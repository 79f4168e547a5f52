# Device entities card — a Dafny model

This project models the state handling of `HaDeviceEntitiesCard`, the card of
the Home Assistant frontend's device page that lists the entities of one
device. The card holds the list of entity registry entries, the
`showDisabled` flag and the list of live row elements it built during its
last render. It decides per property change whether to re-render or only to
hand the new `hass` state object to the existing rows. It partitions the
entries into live rows, static entries and a collapsible disabled section,
and it passes the ids of the enabled entries to the add-to-view action.

Everything is in `entities_card.dfy`, module `DeviceEntitiesCard`:

- `Entry` is a registry entry (`entity_id`, `disabled_by`, `stateName`).
  `Truthy` gives JavaScript truthiness for the optional strings.
- `Hass` stands for the state object: a version number plus a map from each
  entity id that has state to the name `computeStateName` gives for that
  state.
- `Naming` holds two naming helpers as opaque function values handed to
  `Render`: JavaScript's built-in `toLowerCase` (no Unicode case mapping is
  modelled) and the imported `stripPrefixFromEntityName`, whose code is not
  part of this model. The model gives them no behaviour.
- `Row` is a live row element. It keeps the entry it was built from and its
  final config (entity id and optional name), and has a mutable `hass` field.
- `EntitiesCard` is the card. Its fields are `deviceName`, `hass`, `entities`,
  `showDisabled` and `rows` (the source's `_entityRows`).
- The render output is abstracted as a `View`: no entities, or the main list
  of `Item`s (blank for disabled entries, a live row, or a static entry with
  its label) plus the disabled `Section`.

The rows produced by `Render` are specified by the pure functions
`LiveEntries`, `MainItems`, `DisabledEntries` and `DisabledSection`, and the
partition lemmas are proved about those functions.

## Model

| member | source | states |
|---|---|---|
| DeviceEntitiesCard.NeedsRender | src/panels/config/devices/device-detail/ha-device-entities-card.ts:43-51 | the gate skips rendering exactly when the changed-property set is `{"hass"}`; `hass` changing together with anything else, or any other change, renders |
| DeviceEntitiesCard.EntitiesCard.ShouldUpdate | src/panels/config/devices/device-detail/ha-device-entities-card.ts:43-51 | returns `NeedsRender(changed)`; when it skips, every row ends up holding the card's current `hass`; the row list itself (length, order, rows and their entries) is unchanged; when it renders, no row's `hass` is touched |
| DeviceEntitiesCard.EntitiesCard.Render | src/panels/config/devices/device-detail/ha-device-entities-card.ts:53-114 | returns the abstract view `ViewOf` of the current inputs; replaces `rows` by fresh, pairwise distinct rows, one per live entry (enabled and with state) in `entities` order; each row carries its entry, the card's `hass` and the config built from that entry; with no entities the rows are empty |
| DeviceEntitiesCard.MainItemsAt | src/panels/config/devices/device-detail/ha-device-entities-card.ts:61-69 | at every position of the main list: a blank exactly for a disabled entry, a live row exactly for an enabled entry with state, otherwise a static entry with that entry's label; every non-blank item carries its entry, a live item the row config built from it |
| DeviceEntitiesCard.WalkStep | src/panels/config/devices/device-detail/ha-device-entities-card.ts:61-69 | one step of the walk over `entities` appends that entry's item, collects it when disabled, and adds a row exactly when it is live |
| DeviceEntitiesCard.LiveEntries | src/panels/config/devices/device-detail/ha-device-entities-card.ts:62-67 | the entries that become rows are all enabled and have state, and there are no more of them than entries |
| DeviceEntitiesCard.DisabledEntriesAppend | src/panels/config/devices/device-detail/ha-device-entities-card.ts:61-63 | the disabled list is collected in `entities` order: the list of a concatenation is the concatenation of the lists, so order and repeated entries are kept (and shown in that order at lines 86-88) |
| DeviceEntitiesCard.DisabledSection | src/panels/config/devices/device-detail/ha-device-entities-card.ts:71-98 | empty disabled list: nothing; non-empty and flag off: only a button carrying the count of disabled entries; non-empty and flag on: one static entry per disabled entry, in order, then the hide button |
| DeviceEntitiesCard.EntitiesCard.RenderList | src/panels/config/devices/device-detail/ha-device-entities-card.ts:61-69 | walking `entities` from an empty row list yields the main list `MainItems`, the disabled list `DisabledEntries` and fresh, distinct rows, one per live entry in order, each holding the card's `hass` |
| DeviceEntitiesCard.EntitiesCard.RenderEntity | src/panels/config/devices/device-detail/ha-device-entities-card.ts:120-141 | appends exactly one fresh row to the row list, built from the entry, holding the card's `hass` and configured with the entry's id and its row name |
| DeviceEntitiesCard.RowName | src/panels/config/devices/device-detail/ha-device-entities-card.ts:128-135 | a row's `config.name` is set exactly when the stripped state name is non-empty, is then that stripped name, and is never the empty string |
| DeviceEntitiesCard.StaticLabel | src/panels/config/devices/device-detail/ha-device-entities-card.ts:155-161 | a static entry's label is the stripped `stateName` when `stateName` is truthy, otherwise the raw `entity_id` |
| DeviceEntitiesCard.AddToViewIds | src/panels/config/devices/device-detail/ha-device-entities-card.ts:189-191 | the ids handed on plus the disabled entries account for every entry |
| DeviceEntitiesCard.AddToViewIdsAppend | src/panels/config/devices/device-detail/ha-device-entities-card.ts:189-191 | the filter/map keeps `entities` order: the ids of a concatenation are the concatenation of the ids, so an enabled entry listed twice hands its id on twice |
| DeviceEntitiesCard.AddToViewIdsInListOrder | src/panels/config/devices/device-detail/ha-device-entities-card.ts:185-193 | for every state object, the add-to-view ids are exactly the ids of the non-blank items of the main list (live rows and static entries), in order |
| DeviceEntitiesCard.EntitiesCard.AddToLovelaceView | src/panels/config/devices/device-detail/ha-device-entities-card.ts:185-193 | an id is passed to the add-to-view action exactly when some enabled entry of the card has it, and the ids passed are, in order, those of the non-blank items of the card's main list |
| DeviceEntitiesCard.AddToViewIdsMembers | src/panels/config/devices/device-detail/ha-device-entities-card.ts:189-191 | an id is in the add-to-view list if and only if some entry without `disabled_by` has that id |
| DeviceEntitiesCard.LiveIdsAddedToView | src/panels/config/devices/device-detail/ha-device-entities-card.ts:185-193 | the id of every entry that became a live row is handed to the add-to-view action |
| DeviceEntitiesCard.AddToViewIdsAllLive | src/panels/config/devices/device-detail/ha-device-entities-card.ts:185-193 | when every enabled entry has state, the add-to-view ids are exactly the ids of the live rows, in order |
| DeviceEntitiesCard.LiveEntriesMembers | src/panels/config/devices/device-detail/ha-device-entities-card.ts:62-67 | an entry becomes a row if and only if it is in `entities`, has no `disabled_by` and its id has state |
| DeviceEntitiesCard.DisabledEntriesMembers | src/panels/config/devices/device-detail/ha-device-entities-card.ts:62-63 | an entry is collected as disabled if and only if it is in `entities` and has `disabled_by` |
| DeviceEntitiesCard.DisabledNeverLive | src/panels/config/devices/device-detail/ha-device-entities-card.ts:62-65 | a disabled entry never becomes a live row |
| DeviceEntitiesCard.LiveItemsAreLiveEntries | src/panels/config/devices/device-detail/ha-device-entities-card.ts:61-69 | the live items of the main list are exactly the entries the row list is built from, in the same order |
| DeviceEntitiesCard.PartitionCount | src/panels/config/devices/device-detail/ha-device-entities-card.ts:61-69 | every entry is exactly one of: a live row, disabled, or an enabled entry without state |
| DeviceEntitiesCard.StatelessEntriesMembers | src/panels/config/devices/device-detail/ha-device-entities-card.ts:62-68 | an entry is shown as a stateless static entry of the main list if and only if it is in `entities`, has no `disabled_by` and its id has no state |
| DeviceEntitiesCard.EntitiesCard.ToggleShowDisabled | src/panels/config/devices/device-detail/ha-device-entities-card.ts:116-118 | `showDisabled` becomes its negation; the method itself leaves `entities` and `rows` unchanged and nothing else may change (the update the flag change then triggers re-renders, see `ToggleChangeRenders`) |
| DeviceEntitiesCard.ToggleChangeRenders | src/panels/config/devices/device-detail/ha-device-entities-card.ts:39-51 | `showDisabled` is a reactive property, and a change of it alone passes the update gate as "render", so the click rebuilds the rows |
| DeviceEntitiesCard.ToggleTwice | src/panels/config/devices/device-detail/ha-device-entities-card.ts:116-118 | toggling twice restores the flag and leaves entities and rows unchanged |
| DeviceEntitiesCard.EntitiesCard.constructor | src/panels/config/devices/device-detail/ha-device-entities-card.ts:31-41 | a new card starts with `showDisabled` false and no rows |

## Left out

- Lit templates, the generated HTML, CSS and the `header` property: only the abstract partition (rows, disabled list, which static entries or button) is modelled.
- `createRowElement`, `computeStateName`, `stripPrefixFromEntityName`, `computeDomain` and `domainIcon` are imported and their code is not part of this model. Row creation is a `Row` constructor. `computeStateName` is folded into the `Hass` state map. Prefix stripping is an opaque function value.
- The built-in `toLowerCase` (lines 131, 159) is kept opaque, so Unicode case mapping is not modelled.
- `hass.localize` (lines 78, 93, 101, 109) is a method of the state object; localized texts and icons are not modelled.
- EntitiesCard.RenderEntity: the source creates the element from a config holding only the entity id (lines 121-125) and sets `config.name` on that same object afterwards (line 134), then attaches the entry (line 138). The model hands the finished config to the `Row` constructor, so it assumes that `createRowElement` keeps the config object by reference and sees the later name.
- `_overrideMoreInfo` and `_openEditEntry` (lines 168-183) open the entity editor dialog through DOM events. The dialog and the event plumbing are UI calls. The entry they pass is the one a `Row` or a `Static` item carries, and `Render`'s contract states that.
- `addEntitiesToLovelaceView` itself is a foreign UI call. Only the ids passed to it are modelled.
- The `if (this.hass)` guard in `_renderEntity` (line 126) is always taken in the model: render already reads `this.hass.states` on line 66 before it can reach that guard, so `hass` is a non-optional field.
- The Lit update lifecycle and the custom-element registration: framework plumbing.
- Rendered DOM nodes that alias the row elements: the model keeps only the `rows` list.
- An empty stripped name leaves a row's `config.name` unset (lines 133-135); which name the row element then shows is decided inside the row element, which is not part of this model. A static entry's label has no such fallback in this file: it is whatever `stripPrefixFromEntityName` returns.
