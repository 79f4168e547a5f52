/** A model of the device entities card of the Home Assistant configuration UI:
    the card that lists the entities of one device, shows live rows for the
    entities that have state, collapses the disabled ones behind a button,
    and forwards a refreshed state object to its live rows without
    re-rendering when nothing else changed. */
module DeviceEntitiesCard {

  datatype Option<T> = None | Some(value: T)

  /** JavaScript truthiness of an optional string: present and non-empty. */
  predicate Truthy(o: Option<string>) {
    o.Some? && o.value != ""
  }

  /** An entity registry entry as the card receives it. */
  datatype Entry = Entry(entityId: string, disabledBy: Option<string>, stateName: Option<string>)

  /** The shared state object. `states` maps every entity id that has a
      state to the display name computed from that state; `version` tells
      two state objects apart. */
  datatype Hass = Hass(version: nat, states: map<string, string>)

  /** The two naming helpers, kept opaque: the built-in lower-casing of a
      string (no Unicode case mapping is modelled) and the imported prefix
      stripping of an entity name, whose code is not part of this model. */
  datatype Naming = Naming(lower: string -> string, strip: (string, string) -> string)

  /** The configuration a row element is created from. */
  datatype RowConfig = RowConfig(entity: string, name: Option<string>)

  /** One item of the main entity list. */
  datatype Item =
    | Blank                                     // a disabled entry, shown in the collapsible section instead
    | Live(entry: Entry, config: RowConfig)     // a live row element
    | Static(entry: Entry, caption: string)       // a static entry with icon and label

  /** What is shown below the list for the disabled entries. */
  datatype Section =
    | NoSection
    | ShowDisabledButton(count: nat)
    | DisabledShown(entries: seq<Item>)         // followed by the "hide disabled" button

  /** The abstract outcome of one structural render. */
  datatype View =
    | NoEntities
    | Listed(items: seq<Item>, disabled: Section)

  predicate Disabled(e: Entry) {
    Truthy(e.disabledBy)
  }

  predicate HasState(e: Entry, h: Hass) {
    e.entityId in h.states
  }

  /** An entry that becomes a live row. */
  predicate IsLive(e: Entry, h: Hass) {
    !Disabled(e) && HasState(e, h)
  }

  /** The prefix stripped from names: the device name and a space, lower-cased. */
  function Prefix(deviceName: string, n: Naming): string {
    n.lower(deviceName + " ")
  }

  /** The name given to a live row: only set when the stripped state name is non-empty. */
  function RowName(e: Entry, h: Hass, deviceName: string, n: Naming): (r: Option<string>)
    requires HasState(e, h)
    ensures r != Some("")
    ensures r.Some? <==> n.strip(h.states[e.entityId], Prefix(deviceName, n)) != ""
    ensures r.Some? ==> r.value == n.strip(h.states[e.entityId], Prefix(deviceName, n))
  {
    var name := n.strip(h.states[e.entityId], Prefix(deviceName, n));
    if name != "" then Some(name) else None
  }

  /** The label of a static entry: the stripped stored name when there is one,
      otherwise the raw entity id. */
  function StaticLabel(e: Entry, deviceName: string, n: Naming): (r: string)
    ensures !Truthy(e.stateName) ==> r == e.entityId
    ensures Truthy(e.stateName) ==> r == n.strip(e.stateName.value, Prefix(deviceName, n))
  {
    if Truthy(e.stateName) then n.strip(e.stateName.value, Prefix(deviceName, n)) else e.entityId
  }

  /** How one entry shows up in the main list. */
  function ItemOf(e: Entry, h: Hass, deviceName: string, n: Naming): Item {
    if Disabled(e) then Blank
    else if HasState(e, h) then Live(e, RowConfig(e.entityId, RowName(e, h, deviceName, n)))
    else Static(e, StaticLabel(e, deviceName, n))
  }

  /** The main list: one item per entry, in order. */
  function MainItems(es: seq<Entry>, h: Hass, deviceName: string, n: Naming): (r: seq<Item>)
    ensures |r| == |es|
  {
    if es == [] then []
    else MainItems(es[..|es| - 1], h, deviceName, n) + [ItemOf(es[|es| - 1], h, deviceName, n)]
  }

  /** What the main list shows for the entry at position i: a blank exactly
      for a disabled entry, a live row exactly for an enabled entry with
      state, a static entry otherwise; every non-blank item carries its entry. */
  lemma {:induction false} MainItemsAt(es: seq<Entry>, h: Hass, deviceName: string, n: Naming, i: nat)
    requires i < |es|
    ensures MainItems(es, h, deviceName, n)[i].Blank? <==> Disabled(es[i])
    ensures MainItems(es, h, deviceName, n)[i].Live? <==> IsLive(es[i], h)
    ensures !Disabled(es[i]) ==> MainItems(es, h, deviceName, n)[i].entry == es[i]
    ensures IsLive(es[i], h) ==>
      MainItems(es, h, deviceName, n)[i].config == RowConfig(es[i].entityId, RowName(es[i], h, deviceName, n))
    ensures !Disabled(es[i]) && !HasState(es[i], h) ==>
      MainItems(es, h, deviceName, n)[i].caption == StaticLabel(es[i], deviceName, n)
  {
    if i < |es| - 1 {
      MainItemsAt(es[..|es| - 1], h, deviceName, n, i);
    }
  }

  /** The entries that become live rows, in order. */
  function LiveEntries(es: seq<Entry>, h: Hass): (r: seq<Entry>)
    ensures |r| <= |es|
    ensures forall i :: 0 <= i < |r| ==> IsLive(r[i], h)
  {
    if es == [] then []
    else LiveEntries(es[..|es| - 1], h) + (if IsLive(es[|es| - 1], h) then [es[|es| - 1]] else [])
  }

  /** The entries collected as disabled, in order. */
  function DisabledEntries(es: seq<Entry>): (r: seq<Entry>)
    ensures |r| <= |es|
  {
    if es == [] then []
    else DisabledEntries(es[..|es| - 1]) + (if Disabled(es[|es| - 1]) then [es[|es| - 1]] else [])
  }

  /** The entity ids of the non-blank items of a list, in order. */
  function NonBlankIds(items: seq<Item>): seq<string> {
    if items == [] then []
    else NonBlankIds(items[..|items| - 1]) + (if !items[|items| - 1].Blank? then [items[|items| - 1].entry.entityId] else [])
  }

  /** The entries of the live items of a list, in order. */
  function LiveItemEntries(items: seq<Item>): seq<Entry> {
    if items == [] then []
    else LiveItemEntries(items[..|items| - 1]) + (if items[|items| - 1].Live? then [items[|items| - 1].entry] else [])
  }

  /** The disabled section, chosen from the disabled list and the flag. */
  function DisabledSection(disabled: seq<Entry>, showDisabled: bool, deviceName: string, n: Naming): (r: Section)
    ensures r.NoSection? <==> disabled == []
    ensures r.ShowDisabledButton? <==> disabled != [] && !showDisabled
    ensures r.ShowDisabledButton? ==> r.count == |disabled|
    ensures r.DisabledShown? <==> disabled != [] && showDisabled
    ensures r.DisabledShown? ==> |r.entries| == |disabled|
    ensures r.DisabledShown? ==>
      forall i :: 0 <= i < |disabled| ==> r.entries[i] == Static(disabled[i], StaticLabel(disabled[i], deviceName, n))
  {
    if disabled == [] then NoSection
    else if !showDisabled then ShowDisabledButton(|disabled|)
    else DisabledShown(seq(|disabled|, i requires 0 <= i < |disabled| => Static(disabled[i], StaticLabel(disabled[i], deviceName, n))))
  }

  /** The abstract result of render for the given inputs. */
  function ViewOf(es: seq<Entry>, h: Hass, showDisabled: bool, deviceName: string, n: Naming): View {
    if es == [] then NoEntities
    else Listed(MainItems(es, h, deviceName, n), DisabledSection(DisabledEntries(es), showDisabled, deviceName, n))
  }

  /** The ids handed to the add-to-view action: those of the enabled
      entries, in order, whether or not they have state. */
  function AddToViewIds(es: seq<Entry>): (r: seq<string>)
    ensures |r| + |DisabledEntries(es)| == |es|
  {
    if es == [] then []
    else AddToViewIds(es[..|es| - 1]) + (if !Disabled(es[|es| - 1]) then [es[|es| - 1].entityId] else [])
  }

  /** The update gate: whether a change of the given properties needs a render. */
  function NeedsRender(changed: set<string>): (r: bool)
    ensures !r <==> changed == {"hass"}
  {
    if "hass" in changed && |changed| == 1 then
      SingletonIs(changed, "hass");
      false
    else true
  }

  lemma SingletonIs(s: set<string>, x: string)
    requires x in s && |s| == 1
    ensures s == {x}
  {
    assert |s - {x}| == 0;
  }

  /** The entity ids of a list of entries, in order. */
  function Ids(es: seq<Entry>): seq<string> {
    seq(|es|, i requires 0 <= i < |es| => es[i].entityId)
  }

  // ---------------------------------------------------------------------
  // Properties of the partition

  lemma {:induction false} LiveEntriesMembers(es: seq<Entry>, h: Hass, e: Entry)
    ensures e in LiveEntries(es, h) <==> e in es && IsLive(e, h)
  {
    if es != [] {
      var init := es[..|es| - 1];
      LiveEntriesMembers(init, h, e);
      assert es == init + [es[|es| - 1]];
    }
  }

  lemma {:induction false} DisabledEntriesMembers(es: seq<Entry>, e: Entry)
    ensures e in DisabledEntries(es) <==> e in es && Disabled(e)
  {
    if es != [] {
      var init := es[..|es| - 1];
      DisabledEntriesMembers(init, e);
      assert es == init + [es[|es| - 1]];
    }
  }

  /** A disabled entry never becomes a live row. */
  lemma DisabledNeverLive(es: seq<Entry>, h: Hass, e: Entry)
    requires e in DisabledEntries(es)
    ensures e !in LiveEntries(es, h)
  {
    DisabledEntriesMembers(es, e);
    LiveEntriesMembers(es, h, e);
  }

  /** The live items of the main list are exactly the live entries, in order. */
  lemma {:induction false} LiveItemsAreLiveEntries(es: seq<Entry>, h: Hass, deviceName: string, n: Naming)
    ensures LiveItemEntries(MainItems(es, h, deviceName, n)) == LiveEntries(es, h)
  {
    if es != [] {
      var init := es[..|es| - 1];
      LiveItemsAreLiveEntries(init, h, deviceName, n);
      var items := MainItems(es, h, deviceName, n);
      assert items[..|items| - 1] == MainItems(init, h, deviceName, n);
    }
  }

  /** An id is handed to the add-to-view action exactly when some enabled entry has it. */
  lemma {:induction false} AddToViewIdsMembers(es: seq<Entry>, x: string)
    ensures x in AddToViewIds(es) <==> exists i :: 0 <= i < |es| && !Disabled(es[i]) && es[i].entityId == x
  {
    if es != [] {
      var init := es[..|es| - 1];
      AddToViewIdsMembers(init, x);
      if exists i :: 0 <= i < |es| && !Disabled(es[i]) && es[i].entityId == x {
        var i :| 0 <= i < |es| && !Disabled(es[i]) && es[i].entityId == x;
        if i < |init| {
          assert init[i] == es[i];
        }
      }
    }
  }

  /** The id of every live row is handed to the add-to-view action. */
  lemma {:induction false} LiveIdsAddedToView(es: seq<Entry>, h: Hass, e: Entry)
    requires e in LiveEntries(es, h)
    ensures e.entityId in AddToViewIds(es)
  {
    LiveEntriesMembers(es, h, e);
    var i :| 0 <= i < |es| && es[i] == e;
    AddToViewIdsMembers(es, e.entityId);
  }

  /** When every enabled entry has state, the add-to-view ids are exactly the
      ids of the live rows, in order. */
  lemma {:induction false} AddToViewIdsAllLive(es: seq<Entry>, h: Hass)
    requires forall e :: e in es && !Disabled(e) ==> HasState(e, h)
    ensures Ids(LiveEntries(es, h)) == AddToViewIds(es)
  {
    if es != [] {
      var init := es[..|es| - 1];
      var last := es[|es| - 1];
      assert forall e :: e in init ==> e in es;
      assert last in es;
      AddToViewIdsAllLive(init, h);
      var tail := if IsLive(last, h) then [last] else [];
      assert Ids(LiveEntries(init, h) + tail) == Ids(LiveEntries(init, h)) + Ids(tail);
    }
  }

  /** The add-to-view ids follow `entities`: splitting the list splits the ids,
      so order and repeated entries are kept. */
  lemma {:induction false} AddToViewIdsAppend(a: seq<Entry>, b: seq<Entry>)
    ensures AddToViewIds(a + b) == AddToViewIds(a) + AddToViewIds(b)
  {
    if b != [] {
      var b' := b[..|b| - 1];
      assert (a + b)[..|a + b| - 1] == a + b';
      assert (a + b)[|a + b| - 1] == b[|b| - 1];
      AddToViewIdsAppend(a, b');
    } else {
      assert a + b == a;
    }
  }

  /** The disabled list follows `entities` the same way: order and repeats are kept. */
  lemma {:induction false} DisabledEntriesAppend(a: seq<Entry>, b: seq<Entry>)
    ensures DisabledEntries(a + b) == DisabledEntries(a) + DisabledEntries(b)
  {
    if b != [] {
      var b' := b[..|b| - 1];
      assert (a + b)[..|a + b| - 1] == a + b';
      assert (a + b)[|a + b| - 1] == b[|b| - 1];
      DisabledEntriesAppend(a, b');
    } else {
      assert a + b == a;
    }
  }

  /** The add-to-view ids are the ids of the non-blank items of the main list
      (its live rows and static entries), in order, whatever the state object. */
  lemma {:induction false} AddToViewIdsInListOrder(es: seq<Entry>, h: Hass, deviceName: string, n: Naming)
    ensures AddToViewIds(es) == NonBlankIds(MainItems(es, h, deviceName, n))
  {
    if es != [] {
      var init := es[..|es| - 1];
      AddToViewIdsInListOrder(init, h, deviceName, n);
      var items := MainItems(es, h, deviceName, n);
      assert items[..|items| - 1] == MainItems(init, h, deviceName, n);
      assert items[|items| - 1] == ItemOf(es[|es| - 1], h, deviceName, n);
    }
  }

  lemma AddToViewIdsInListOrderAll(es: seq<Entry>, h: Hass, deviceName: string)
    ensures forall n: Naming :: AddToViewIds(es) == NonBlankIds(MainItems(es, h, deviceName, n))
  {
    forall n: Naming ensures AddToViewIds(es) == NonBlankIds(MainItems(es, h, deviceName, n)) {
      AddToViewIdsInListOrder(es, h, deviceName, n);
    }
  }

  /** An entry is shown as a stateless static entry exactly when it is in
      `entities`, enabled and without state. */
  lemma {:induction false} StatelessEntriesMembers(es: seq<Entry>, h: Hass, e: Entry)
    ensures e in StatelessEntries(es, h) <==> e in es && !Disabled(e) && !HasState(e, h)
  {
    if es != [] {
      var init := es[..|es| - 1];
      StatelessEntriesMembers(init, h, e);
      assert es == init + [es[|es| - 1]];
    }
  }

  /** Every entry is exactly one of: a live row, disabled, or a static stateless entry. */
  lemma {:induction false} PartitionCount(es: seq<Entry>, h: Hass)
    ensures |LiveEntries(es, h)| + |DisabledEntries(es)| + |StatelessEntries(es, h)| == |es|
  {
    if es != [] {
      PartitionCount(es[..|es| - 1], h);
    }
  }

  /** The enabled entries without state, rendered as static entries in the main list. */
  function StatelessEntries(es: seq<Entry>, h: Hass): (r: seq<Entry>)
    ensures |r| <= |es|
  {
    if es == [] then []
    else
      StatelessEntries(es[..|es| - 1], h)
      + (if !Disabled(es[|es| - 1]) && !HasState(es[|es| - 1], h) then [es[|es| - 1]] else [])
  }

  // ---------------------------------------------------------------------
  // The card and its row elements

  /** A live row element: built from one entry, it keeps that entry for the
      more-info handler and receives the state object. */
  class Row {
    const entry: Entry
    const config: RowConfig
    var hass: Hass

    constructor (entry: Entry, config: RowConfig, hass: Hass)
      ensures this.entry == entry && this.config == config && this.hass == hass
    {
      this.entry := entry;
      this.config := config;
      this.hass := hass;
    }
  }

  /** The rows are one per live entry, in order: each was built from its
      entry and carries the config made from that entry. */
  ghost predicate RowsBuilt(rs: seq<Row>, live: seq<Entry>, h: Hass, deviceName: string, n: Naming) {
    && |rs| == |live|
    && (forall j :: 0 <= j < |live| ==> IsLive(live[j], h))
    && (forall j :: 0 <= j < |rs| ==> rs[j].entry == live[j])
    && (forall j :: 0 <= j < |rs| ==> rs[j].config == RowConfig(live[j].entityId, RowName(live[j], h, deviceName, n)))
  }

  /** Every row holds the given state object. */
  ghost predicate AllHold(rs: seq<Row>, h: Hass)
    reads set r | r in rs
  {
    forall j :: 0 <= j < |rs| ==> rs[j].hass == h
  }

  /** After the first i entries of a render's walk: the items, the disabled
      list and the rows are those of that prefix. */
  ghost predicate Walked(es: seq<Entry>, i: nat, h: Hass, deviceName: string, n: Naming,
                         items: seq<Item>, disabled: seq<Entry>, rs: seq<Row>)
  {
    && i <= |es|
    && items == MainItems(es[..i], h, deviceName, n)
    && disabled == DisabledEntries(es[..i])
    && RowsBuilt(rs, LiveEntries(es[..i], h), h, deviceName, n)
  }

  /** One step of the walk: the entry's item is appended, a disabled entry is
      collected, and a live entry adds exactly its row. */
  lemma WalkStep(es: seq<Entry>, i: nat, h: Hass, deviceName: string, n: Naming,
                 items: seq<Item>, disabled: seq<Entry>, rs: seq<Row>, rs': seq<Row>, item: Item)
    requires Walked(es, i, h, deviceName, n, items, disabled, rs) && i < |es|
    requires item == ItemOf(es[i], h, deviceName, n)
    requires IsLive(es[i], h) ==> |rs'| == |rs| + 1 && rs'[..|rs|] == rs
    requires IsLive(es[i], h) ==> rs'[|rs|].entry == es[i]
    requires IsLive(es[i], h) ==> rs'[|rs|].config == RowConfig(es[i].entityId, RowName(es[i], h, deviceName, n))
    requires !IsLive(es[i], h) ==> rs' == rs
    ensures Walked(es, i + 1, h, deviceName, n, items + [item],
                   disabled + (if Disabled(es[i]) then [es[i]] else []), rs')
  {
    assert es[..i + 1][..i] == es[..i];
    if IsLive(es[i], h) {
      assert rs' == rs + [rs'[|rs|]];
      RowsBuiltSnoc(rs, LiveEntries(es[..i], h), h, deviceName, n, rs'[|rs|], es[i]);
    }
  }

  /** No row element appears twice. */
  predicate Distinct(rs: seq<Row>) {
    forall j, k :: 0 <= j < k < |rs| ==> rs[j] != rs[k]
  }

  lemma DistinctSnoc(rs: seq<Row>, r: Row)
    requires Distinct(rs) && r !in rs
    ensures Distinct(rs + [r])
  {
  }

  /** Appending a row built from a live entry keeps the rows matched with their entries. */
  lemma RowsBuiltSnoc(rs: seq<Row>, live: seq<Entry>, h: Hass, deviceName: string, n: Naming, r: Row, e: Entry)
    requires RowsBuilt(rs, live, h, deviceName, n)
    requires IsLive(e, h) && r.entry == e
    requires r.config == RowConfig(e.entityId, RowName(e, h, deviceName, n))
    ensures RowsBuilt(rs + [r], live + [e], h, deviceName, n)
  {
  }

  class EntitiesCard {
    var deviceName: string
    var hass: Hass
    var entities: seq<Entry>
    var showDisabled: bool
    var rows: seq<Row>

    constructor (deviceName: string, hass: Hass, entities: seq<Entry>)
      ensures this.deviceName == deviceName && this.hass == hass && this.entities == entities
      ensures !showDisabled && rows == []
    {
      this.deviceName := deviceName;
      this.hass := hass;
      this.entities := entities;
      showDisabled := false;
      rows := [];
    }

    /** The update gate. On a change of `hass` alone it hands the current
        state object to every existing row and skips the render; the row
        list itself stays as it was. */
    method ShouldUpdate(changed: set<string>) returns (render: bool)
      modifies set r | r in rows
      ensures render == NeedsRender(changed)
      ensures rows == old(rows)
      ensures !render ==> AllHold(rows, hass)
      ensures render ==> forall j :: 0 <= j < |rows| ==> rows[j].hass == old(rows[j].hass)
    {
      if !NeedsRender(changed) {
        var i := 0;
        while i < |rows|
          invariant 0 <= i <= |rows|
          invariant forall j :: 0 <= j < i ==> rows[j].hass == hass
        {
          rows[i].hass := hass;
          i := i + 1;
        }
        return false;
      }
      return true;
    }

    /** A structural render. The row list is replaced by fresh rows, one per
        live entry in order; the disabled entries are collected on the way. */
    method Render(n: Naming) returns (v: View)
      modifies this`rows
      ensures v == ViewOf(entities, hass, showDisabled, deviceName, n)
      ensures RowsBuilt(rows, LiveEntries(entities, hass), hass, deviceName, n)
      ensures AllHold(rows, hass)
      ensures forall j :: 0 <= j < |rows| ==> fresh(rows[j])
      ensures Distinct(rows)
    {
      rows := [];
      var items, disabledEntities := RenderList(n);
      if entities == [] {
        v := NoEntities;
      } else {
        v := Listed(items, DisabledSection(disabledEntities, showDisabled, deviceName, n));
      }
    }

    /** The walk over the entries inside a render, starting from an empty row
        list: each disabled entry is collected and leaves a blank, each
        enabled entry with state gets a row, the others a static entry. */
    method RenderList(n: Naming) returns (items: seq<Item>, disabledEntities: seq<Entry>)
      requires rows == []
      modifies this`rows
      ensures items == MainItems(entities, hass, deviceName, n)
      ensures disabledEntities == DisabledEntries(entities)
      ensures RowsBuilt(rows, LiveEntries(entities, hass), hass, deviceName, n)
      ensures AllHold(rows, hass)
      ensures forall j :: 0 <= j < |rows| ==> fresh(rows[j])
      ensures Distinct(rows)
    {
      var es, h, dn := entities, hass, deviceName;
      disabledEntities := [];
      items := [];
      var i := 0;
      while i < |es|
        invariant 0 <= i <= |es|
        invariant Walked(es, i, h, dn, n, items, disabledEntities, rows)
        invariant forall j :: 0 <= j < |rows| ==> fresh(rows[j]) && rows[j].hass == h
        invariant Distinct(rows)
      {
        var entry := es[i];
        ghost var rowsBefore, disabledBefore := rows, disabledEntities;
        var item: Item;
        if Disabled(entry) {
          disabledEntities := disabledEntities + [entry];
          item := Blank;
        } else if HasState(entry, h) {
          var element := RenderEntity(entry, n);
          DistinctSnoc(rowsBefore, element);
          item := Live(entry, element.config);
        } else {
          item := Static(entry, StaticLabel(entry, dn, n));
        }
        WalkStep(es, i, h, dn, n, items, disabledBefore, rowsBefore, rows, item);
        items := items + [item];
        i := i + 1;
      }
      assert es[..i] == es;
    }

    /** Builds the live row of an enabled entry that has state and appends
        it to the row list. The row is named only when the stripped state
        name is non-empty. */
    method RenderEntity(entry: Entry, n: Naming) returns (element: Row)
      requires HasState(entry, hass)
      modifies this`rows
      ensures fresh(element) && rows == old(rows) + [element]
      ensures element.entry == entry && element.hass == hass
      ensures element.config == RowConfig(entry.entityId, RowName(entry, hass, deviceName, n))
    {
      var config := RowConfig(entry.entityId, RowName(entry, hass, deviceName, n));
      element := new Row(entry, config, hass);
      rows := rows + [element];
    }

    /** The show/hide button of the disabled section: flips the flag and nothing else. */
    method ToggleShowDisabled()
      modifies this`showDisabled
      ensures showDisabled == !old(showDisabled)
      ensures entities == old(entities) && rows == old(rows)
    {
      showDisabled := !showDisabled;
    }

    /** The ids the add-to-view button hands on: those of the non-blank items
        of the main list, in order. */
    function AddToLovelaceView(): (ids: seq<string>)
      reads this
      ensures forall x :: x in ids <==> exists i :: 0 <= i < |entities| && !Disabled(entities[i]) && entities[i].entityId == x
      ensures forall n: Naming :: ids == NonBlankIds(MainItems(entities, hass, deviceName, n))
    {
      AddToViewIdsMembersAll(entities);
      AddToViewIdsInListOrderAll(entities, hass, deviceName);
      AddToViewIds(entities)
    }
  }

  lemma AddToViewIdsMembersAll(es: seq<Entry>)
    ensures forall x :: x in AddToViewIds(es) <==> exists i :: 0 <= i < |es| && !Disabled(es[i]) && es[i].entityId == x
  {
    forall x ensures x in AddToViewIds(es) <==> exists i :: 0 <= i < |es| && !Disabled(es[i]) && es[i].entityId == x {
      AddToViewIdsMembers(es, x);
    }
  }

  /** The flag is a reactive property: the change a toggle causes goes through
      the update gate, which asks for a render, so the rows are then rebuilt. */
  lemma ToggleChangeRenders()
    ensures NeedsRender({"showDisabled"})
  {
  }

  /** Showing then hiding the disabled entries restores the flag. */
  method ToggleTwice(card: EntitiesCard)
    modifies card`showDisabled
    ensures card.showDisabled == old(card.showDisabled)
    ensures card.rows == old(card.rows) && card.entities == old(card.entities)
  {
    card.ToggleShowDisabled();
    card.ToggleShowDisabled();
  }
}
