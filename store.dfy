/** The canvas store: the ordered component list, the selected id, and a one-level
    snapshot of the list taken before each document change. */
module Store {
  import opened Outcomes
  import opened JsValue
  import opened ComponentTypes

  /** The three fields of the store, as one value. */
  datatype StoreState = StoreState(components: seq<Component>, selected: Option<string>, previous: seq<Component>)

  function Initial(): StoreState {
    StoreState([], None, [])
  }

  /** `{...component, id: uuidv4()}`: the fresh id overrides whatever id the caller supplied. */
  function WithId(c: Component, id: string): Component {
    c.(id := id)
  }

  /** `components.map(comp => comp.id === id ? {...comp, ...patch} : comp)`. */
  function UpdateList(cs: seq<Component>, id: string, p: Patch): seq<Component>
    decreases |cs|
  {
    if cs == [] then []
    else [if cs[0].id == id then Merge(cs[0], p) else cs[0]] + UpdateList(cs[1..], id, p)
  }

  /** `components.filter(comp => comp.id !== id)`. */
  function RemoveId(cs: seq<Component>, id: string): seq<Component>
    decreases |cs|
  {
    if cs == [] then []
    else if cs[0].id == id then RemoveId(cs[1..], id)
    else [cs[0]] + RemoveId(cs[1..], id)
  }

  /** How many entries of `cs` carry `id`. */
  function CountId(cs: seq<Component>, id: string): nat
    decreases |cs|
  {
    if cs == [] then 0 else (if cs[0].id == id then 1 else 0) + CountId(cs[1..], id)
  }

  function Ids(cs: seq<Component>): set<string> {
    set i | 0 <= i < |cs| :: cs[i].id
  }

  predicate UniqueIds(cs: seq<Component>) {
    forall i, j :: 0 <= i < j < |cs| ==> cs[i].id != cs[j].id
  }

  // ---- the seven actions, as transitions of the state ----

  function AddStep(s: StoreState, c: Component, freshId: string): StoreState {
    StoreState(s.components + [WithId(c, freshId)], Some(freshId), s.components)
  }

  function UpdateStep(s: StoreState, id: string, p: Patch): StoreState {
    StoreState(UpdateList(s.components, id, p), s.selected, s.components)
  }

  function DeleteStep(s: StoreState, id: string): StoreState {
    StoreState(RemoveId(s.components, id), if s.selected == Some(id) then None else s.selected, s.components)
  }

  function SelectStep(s: StoreState, id: string): StoreState {
    s.(selected := Some(id))
  }

  function SetStep(s: StoreState, list: seq<Component>): StoreState {
    StoreState(list, s.selected, s.components)
  }

  function UndoStep(s: StoreState): StoreState {
    StoreState(if |s.previous| > 0 then s.previous else s.components, s.selected, [])
  }

  function DeleteAllStep(s: StoreState): StoreState {
    StoreState([], None, s.components)
  }

  /** The store object. Every action reassigns some of its three fields. */
  class ComponentStore {
    var components: seq<Component>
    var selectedComponentId: Option<string>
    var previousComponents: seq<Component>

    ghost function State(): StoreState
      reads this
    {
      StoreState(components, selectedComponentId, previousComponents)
    }

    /** The initial state: no components, no selection, an empty snapshot. */
    constructor ()
      ensures components == [] && selectedComponentId == None && previousComponents == []
      ensures State() == Initial()
    {
      components := [];
      selectedComponentId := None;
      previousComponents := [];
    }

    method AddComponent(component: Component, freshId: string)
      modifies this
      ensures components == old(components) + [WithId(component, freshId)]
      ensures selectedComponentId == Some(freshId) && previousComponents == old(components)
      ensures State() == AddStep(old(State()), component, freshId)
    {
      var newComponent := component.(id := freshId);
      previousComponents := components;
      components := components + [newComponent];
      selectedComponentId := Some(newComponent.id);
    }

    method UpdateComponent(id: string, updatedProps: Patch)
      modifies this
      ensures components == UpdateList(old(components), id, updatedProps)
      ensures selectedComponentId == old(selectedComponentId) && previousComponents == old(components)
      ensures State() == UpdateStep(old(State()), id, updatedProps)
    {
      previousComponents := components;
      components := UpdateList(components, id, updatedProps);
    }

    method DeleteComponent(id: string)
      modifies this
      ensures components == RemoveId(old(components), id)
      ensures selectedComponentId == (if old(selectedComponentId) == Some(id) then None else old(selectedComponentId))
      ensures previousComponents == old(components)
      ensures State() == DeleteStep(old(State()), id)
    {
      previousComponents := components;
      components := RemoveId(components, id);
      if selectedComponentId == Some(id) {
        selectedComponentId := None;
      }
    }

    method SelectComponent(id: string)
      modifies this
      ensures selectedComponentId == Some(id)
      ensures components == old(components) && previousComponents == old(previousComponents)
      ensures State() == SelectStep(old(State()), id)
    {
      selectedComponentId := Some(id);
    }

    method SetComponents(newComponents: seq<Component>)
      modifies this
      ensures components == newComponents && previousComponents == old(components)
      ensures selectedComponentId == old(selectedComponentId)
      ensures State() == SetStep(old(State()), newComponents)
    {
      previousComponents := components;
      components := newComponents;
    }

    method UndoChanges()
      modifies this
      ensures components == (if |old(previousComponents)| > 0 then old(previousComponents) else old(components))
      ensures previousComponents == [] && selectedComponentId == old(selectedComponentId)
      ensures State() == UndoStep(old(State()))
    {
      if |previousComponents| > 0 {
        components := previousComponents;
      }
      previousComponents := [];
    }

    method DeleteAllComponents()
      modifies this
      ensures components == [] && selectedComponentId == None && previousComponents == old(components)
      ensures State() == DeleteAllStep(old(State()))
    {
      previousComponents := components;
      components := [];
      selectedComponentId := None;
    }
  }

  // ---- what the actions promise ----

  /** Adding appends exactly one entry, carrying the fresh id and not the caller's, keeps the
      earlier entries in place, selects the new id and snapshots the pre-add list. */
  lemma AddAppendsOne(s: StoreState, c: Component, freshId: string)
    ensures var t := AddStep(s, c, freshId);
      && |t.components| == |s.components| + 1
      && t.components[..|s.components|] == s.components
      && t.components[|s.components|] == c.(id := freshId)
      && t.components[|s.components|].id == freshId
      && t.selected == Some(freshId) && t.previous == s.components
  {
    assert (s.components + [WithId(c, freshId)])[..|s.components|] == s.components;
  }

  /** The caller's own id is discarded: a caller that selects the id it put on the record
      (as the canvas drop handler does) leaves a selection that names no component, unless
      that id happened to be present already. */
  lemma CallerIdIsDiscarded(s: StoreState, c: Component, freshId: string)
    requires c.id != freshId && c.id !in Ids(s.components)
    ensures var t := SelectStep(AddStep(s, c, freshId), c.id);
      t.selected == Some(c.id) && c.id !in Ids(t.components)
  {
    var t := AddStep(s, c, freshId);
    forall i | 0 <= i < |t.components| ensures t.components[i].id != c.id {
      if i < |s.components| {
        assert t.components[i] == s.components[i];
        assert s.components[i].id in Ids(s.components);
      }
    }
  }

  /** Updating keeps length and order; exactly the entries with the id are merged with the patch. */
  lemma {:induction false} UpdateListPointwise(cs: seq<Component>, id: string, p: Patch)
    ensures |UpdateList(cs, id, p)| == |cs|
    ensures forall i :: 0 <= i < |cs| ==>
              UpdateList(cs, id, p)[i] == if cs[i].id == id then Merge(cs[i], p) else cs[i]
    decreases |cs|
  {
    if cs != [] {
      UpdateListPointwise(cs[1..], id, p);
      var r := UpdateList(cs, id, p);
      forall i | 0 <= i < |cs|
        ensures r[i] == if cs[i].id == id then Merge(cs[i], p) else cs[i]
      {
        if i > 0 {
          assert r[i] == UpdateList(cs[1..], id, p)[i - 1];
          assert cs[i] == cs[1..][i - 1];
        }
      }
    }
  }

  /** An update naming an id no entry has leaves the list value as it was, yet the snapshot
      is still overwritten with the pre-call list. */
  lemma StaleUpdateKeepsList(s: StoreState, id: string, p: Patch)
    requires id !in Ids(s.components)
    ensures UpdateStep(s, id, p).components == s.components
    ensures UpdateStep(s, id, p).previous == s.components
  {
    UpdateListPointwise(s.components, id, p);
    var r := UpdateList(s.components, id, p);
    forall i | 0 <= i < |s.components| ensures r[i] == s.components[i] {
      assert s.components[i].id in Ids(s.components);
    }
  }

  /** A `props` patch replaces the entire props record: a key the patch's props leave out is
      gone from the updated component, even if the component had it. */
  lemma PropsPatchReplacesProps(c: Component, p: Patch, k: string)
    requires p.props.Some? && k !in Keys(p.props.value)
    ensures Lookup(Merge(c, p).props, k) == None
  {
  }

  /** Deleting keeps exactly the entries without the id, in order: the result is the list
      with the entries of that id taken out, it has none of them, and its length drops by
      their number. */
  lemma {:induction false} RemoveIdSpec(cs: seq<Component>, id: string)
    ensures id !in Ids(RemoveId(cs, id))
    ensures |RemoveId(cs, id)| == |cs| - CountId(cs, id)
    ensures Ids(RemoveId(cs, id)) == Ids(cs) - {id}
    ensures id !in Ids(cs) ==> RemoveId(cs, id) == cs
    decreases |cs|
  {
    if cs != [] {
      RemoveIdSpec(cs[1..], id);
      IdsCons(cs[0], cs[1..]);
      assert [cs[0]] + cs[1..] == cs;
      if cs[0].id != id {
        IdsCons(cs[0], RemoveId(cs[1..], id));
      }
    }
  }

  lemma IdsCons(c: Component, cs: seq<Component>)
    ensures Ids([c] + cs) == {c.id} + Ids(cs)
  {
    var r := [c] + cs;
    forall x | x in Ids(r) ensures x in {c.id} + Ids(cs) {
      var i :| 0 <= i < |r| && r[i].id == x;
      if i > 0 { assert r[i] == cs[i - 1]; }
    }
    forall x | x in {c.id} + Ids(cs) ensures x in Ids(r) {
      if x == c.id {
        assert r[0].id in Ids(r);
      } else {
        var i :| 0 <= i < |cs| && cs[i].id == x;
        assert r[i + 1] == cs[i];
        assert r[i + 1].id in Ids(r);
      }
    }
  }

  /** Filtering distributes over concatenation, so the kept entries stay in their order. */
  lemma {:induction false} RemoveIdConcat(a: seq<Component>, b: seq<Component>, id: string)
    ensures RemoveId(a + b, id) == RemoveId(a, id) + RemoveId(b, id)
    decreases |a|
  {
    if a == [] {
      assert a + b == b;
    } else {
      RemoveIdConcat(a[1..], b, id);
      assert (a + b)[1..] == a[1..] + b;
    }
  }

  /** With unique ids, deleting a present id removes exactly one entry. */
  lemma {:induction false} DeleteRemovesOne(cs: seq<Component>, id: string)
    requires UniqueIds(cs) && id in Ids(cs)
    ensures |RemoveId(cs, id)| == |cs| - 1
  {
    var i :| 0 <= i < |cs| && cs[i].id == id;
    assert cs == cs[..i] + [cs[i]] + cs[i + 1..];
    CountIdConcat(cs[..i] + [cs[i]], cs[i + 1..], id);
    CountIdConcat(cs[..i], [cs[i]], id);
    CountIdAbsent(cs[..i], id);
    CountIdAbsent(cs[i + 1..], id);
    RemoveIdSpec(cs, id);
  }

  lemma {:induction false} CountIdConcat(a: seq<Component>, b: seq<Component>, id: string)
    ensures CountId(a + b, id) == CountId(a, id) + CountId(b, id)
    decreases |a|
  {
    if a == [] {
      assert a + b == b;
    } else {
      CountIdConcat(a[1..], b, id);
      assert (a + b)[1..] == a[1..] + b;
    }
  }

  lemma {:induction false} CountIdAbsent(cs: seq<Component>, id: string)
    requires forall i :: 0 <= i < |cs| ==> cs[i].id != id
    ensures CountId(cs, id) == 0
    decreases |cs|
  {
    if cs != [] {
      CountIdAbsent(cs[1..], id);
    }
  }

  /** Deleting clears the selection exactly when it named the deleted id. */
  lemma DeleteClearsSelection(s: StoreState, id: string)
    ensures DeleteStep(s, id).selected.None? <==> s.selected.None? || s.selected == Some(id)
  {
  }

  /** Selecting touches neither the list nor the snapshot, and accepts ids not in the list. */
  lemma SelectOnlySelects(s: StoreState, id: string)
    ensures SelectStep(s, id).components == s.components
    ensures SelectStep(s, id).previous == s.previous
    ensures SelectStep(s, id).selected == Some(id)
  {
  }

  /** Installing a list keeps the selection, which may then name no component. */
  lemma SetMayLeaveSelectionDangling(s: StoreState, list: seq<Component>)
    requires s.selected.Some? && s.selected.value !in Ids(list)
    ensures SetStep(s, list).selected == s.selected
    ensures SetStep(s, list).selected.value !in Ids(SetStep(s, list).components)
    ensures SetStep(s, list).previous == s.components
  {
  }

  /** Undo always clears the snapshot, so a second undo in a row changes nothing. */
  lemma UndoTwiceIsUndoOnce(s: StoreState)
    ensures UndoStep(UndoStep(s)) == UndoStep(s)
    ensures UndoStep(s).previous == []
  {
  }

  /** Undo restores the list from before the last change only if that list was not empty;
      it never restores the selection. */
  lemma UndoAfterChange(s: StoreState, t: StoreState)
    requires t.previous == s.components
    ensures UndoStep(t).components == if s.components == [] then t.components else s.components
    ensures UndoStep(t).selected == t.selected
  {
  }

  /** The first component added to an empty canvas cannot be undone. */
  lemma FirstAddCannotBeUndone(c: Component, freshId: string)
    ensures UndoStep(AddStep(Initial(), c, freshId)).components == [c.(id := freshId)]
  {
  }

  /** Undoing an add onto a non-empty canvas takes the new component away but keeps it selected. */
  lemma UndoAddKeepsSelection(s: StoreState, c: Component, freshId: string)
    requires s.components != []
    ensures UndoStep(AddStep(s, c, freshId)).components == s.components
    ensures UndoStep(AddStep(s, c, freshId)).selected == Some(freshId)
  {
  }

  /** Undoing a delete of the selected component restores it but not the selection. */
  lemma UndoDeleteLosesSelection(s: StoreState, id: string)
    requires s.selected == Some(id) && s.components != []
    ensures UndoStep(DeleteStep(s, id)).components == s.components
    ensures UndoStep(DeleteStep(s, id)).selected == None
  {
  }

  /** Deleting everything empties the list and the selection and snapshots the old list. */
  lemma DeleteAllEmpties(s: StoreState)
    ensures DeleteAllStep(s).components == [] && DeleteAllStep(s).selected == None
    ensures DeleteAllStep(s).previous == s.components
    ensures s.components != [] ==> UndoStep(DeleteAllStep(s)).components == s.components
  {
  }

  /** Ids stay pairwise distinct when the added id is new. */
  lemma AddKeepsIdsUnique(s: StoreState, c: Component, freshId: string)
    requires UniqueIds(s.components) && freshId !in Ids(s.components)
    ensures UniqueIds(AddStep(s, c, freshId).components)
  {
    var cs := AddStep(s, c, freshId).components;
    forall i, j | 0 <= i < j < |cs| ensures cs[i].id != cs[j].id {
      if j == |s.components| {
        assert cs[i] == s.components[i];
        assert s.components[i].id in Ids(s.components);
      }
    }
  }

  /** Ids stay pairwise distinct under delete, and under an update that does not change ids. */
  lemma {:induction false} DeleteKeepsIdsUnique(cs: seq<Component>, id: string)
    requires UniqueIds(cs)
    ensures UniqueIds(RemoveId(cs, id))
    decreases |cs|
  {
    if cs != [] {
      assert UniqueIds(cs[1..]) by {
        forall i, j | 0 <= i < j < |cs[1..]| ensures cs[1..][i].id != cs[1..][j].id {
          assert cs[1..][i] == cs[i + 1] && cs[1..][j] == cs[j + 1];
        }
      }
      DeleteKeepsIdsUnique(cs[1..], id);
      if cs[0].id != id {
        var tail := RemoveId(cs[1..], id);
        RemoveIdSpec(cs[1..], id);
        assert cs[0].id !in Ids(cs[1..]) by {
          forall i | 0 <= i < |cs[1..]| ensures cs[1..][i].id != cs[0].id {
            assert cs[1..][i] == cs[i + 1];
          }
        }
        var r := [cs[0]] + tail;
        forall i, j | 0 <= i < j < |r| ensures r[i].id != r[j].id {
          if i == 0 {
            assert r[j] == tail[j - 1];
            assert tail[j - 1].id in Ids(tail);
          } else {
            assert r[i] == tail[i - 1] && r[j] == tail[j - 1];
          }
        }
      }
    }
  }

  lemma UpdateKeepsIdsUnique(cs: seq<Component>, id: string, p: Patch)
    requires UniqueIds(cs) && (p.id.None? || p.id == Some(id))
    ensures UniqueIds(UpdateList(cs, id, p))
  {
    UpdateListPointwise(cs, id, p);
    var r := UpdateList(cs, id, p);
    assert forall i :: 0 <= i < |cs| ==> r[i].id == cs[i].id;
  }
}
