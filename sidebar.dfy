/** The layers panel: components grouped by their template id, and the store calls its
    buttons are wired to. */
module Sidebar {
  import opened Outcomes
  import opened JsValue
  import opened ComponentTypes
  import Store

  const Ungrouped := "Ungrouped"

  /** `component.templateId || "Ungrouped"`, as the property name it is used under. */
  function GroupKey(c: Component): string {
    var t := Lookup(c.rest, "templateId");
    if IsTruthy(t) then AsString(t.value) else Ungrouped
  }

  /** The group names in the order the reduce first creates them. */
  function GroupOrder(cs: seq<Component>): seq<string>
    decreases |cs|
  {
    if cs == [] then []
    else
      var order := GroupOrder(cs[..|cs| - 1]);
      var k := GroupKey(cs[|cs| - 1]);
      if k in order then order else order + [k]
  }

  /** The components pushed onto group `k`, in list order. */
  function Members(cs: seq<Component>, k: string): seq<Component>
    decreases |cs|
  {
    if cs == [] then []
    else Members(cs[..|cs| - 1], k) + (if GroupKey(cs[|cs| - 1]) == k then [cs[|cs| - 1]] else [])
  }

  predicate Distinct(ks: seq<string>) {
    forall i, j :: 0 <= i < j < |ks| ==> ks[i] != ks[j]
  }

  /** The `groupedComponents` reduce: `acc[templateId]` is created empty on first sight and
      then receives a `push` of each component. */
  method GroupByTemplate(cs: seq<Component>) returns (order: seq<string>, groups: map<string, seq<Component>>)
    ensures order == GroupOrder(cs)
    ensures forall k :: k in groups <==> k in order
    ensures forall k :: k in groups ==> groups[k] == Members(cs, k)
  {
    order := [];
    groups := map[];
    var i := 0;
    while i < |cs|
      invariant 0 <= i <= |cs|
      invariant order == GroupOrder(cs[..i])
      invariant forall k :: k in groups <==> k in order
      invariant forall k :: k in groups ==> groups[k] == Members(cs[..i], k)
    {
      var component := cs[i];
      var templateId := GroupKey(component);
      assert cs[..i + 1][..i] == cs[..i];
      if templateId !in groups {
        NotSeenHasNoMembers(cs[..i], templateId);
        groups := groups[templateId := []];
        order := order + [templateId];
      }
      groups := groups[templateId := groups[templateId] + [component]];
      i := i + 1;
    }
    assert cs[..i] == cs;
  }

  // ---- what the grouping promises ----

  /** A group name is listed exactly when some component carries it, and never twice. */
  lemma {:induction false} GroupOrderSpec(cs: seq<Component>)
    ensures Distinct(GroupOrder(cs))
    ensures forall k :: k in GroupOrder(cs) <==> exists i :: 0 <= i < |cs| && GroupKey(cs[i]) == k
    decreases |cs|
  {
    if cs != [] {
      var init := cs[..|cs| - 1];
      GroupOrderSpec(init);
      forall k | k in GroupOrder(cs) ensures exists i :: 0 <= i < |cs| && GroupKey(cs[i]) == k {
        if k in GroupOrder(init) {
          var i :| 0 <= i < |init| && GroupKey(init[i]) == k;
          assert cs[i] == init[i];
        } else {
          assert GroupKey(cs[|cs| - 1]) == k;
        }
      }
      forall k | exists i :: 0 <= i < |cs| && GroupKey(cs[i]) == k ensures k in GroupOrder(cs) {
        var i :| 0 <= i < |cs| && GroupKey(cs[i]) == k;
        if i < |cs| - 1 {
          assert init[i] == cs[i];
        }
      }
    }
  }

  lemma {:induction false} NotSeenHasNoMembers(cs: seq<Component>, k: string)
    requires k !in GroupOrder(cs)
    ensures Members(cs, k) == []
    decreases |cs|
  {
    if cs != [] {
      NotSeenHasNoMembers(cs[..|cs| - 1], k);
    }
  }

  /** A group holds exactly the components with its name. */
  lemma {:induction false} MembersSpec(cs: seq<Component>, k: string)
    ensures forall c :: c in Members(cs, k) <==> c in cs && GroupKey(c) == k
    decreases |cs|
  {
    if cs != [] {
      var init := cs[..|cs| - 1];
      MembersSpec(init, k);
      assert cs == init + [cs[|cs| - 1]];
    }
  }

  /** Every component lands in exactly one group: the one named by its key. */
  lemma ExactlyOneGroup(cs: seq<Component>, i: nat, k: string)
    requires i < |cs|
    ensures GroupKey(cs[i]) in GroupOrder(cs)
    ensures cs[i] in Members(cs, k) <==> k == GroupKey(cs[i])
  {
    GroupOrderSpec(cs);
    MembersSpec(cs, k);
  }

  function SizeSum(cs: seq<Component>, ks: seq<string>): nat
    decreases |ks|
  {
    if ks == [] then 0 else SizeSum(cs, ks[..|ks| - 1]) + |Members(cs, ks[|ks| - 1])|
  }

  lemma {:induction false} SizeSumStep(cs: seq<Component>, c: Component, ks: seq<string>)
    requires Distinct(ks)
    ensures SizeSum(cs + [c], ks) == SizeSum(cs, ks) + (if GroupKey(c) in ks then 1 else 0)
    decreases |ks|
  {
    if ks != [] {
      var init := ks[..|ks| - 1];
      assert Distinct(init);
      SizeSumStep(cs, c, init);
      assert (cs + [c])[..|cs + [c]| - 1] == cs;
      assert GroupKey(c) in ks <==> GroupKey(c) in init || GroupKey(c) == ks[|ks| - 1];
    }
  }

  /** The group sizes add up to the number of components. */
  lemma {:induction false} GroupSizesSum(cs: seq<Component>)
    ensures SizeSum(cs, GroupOrder(cs)) == |cs|
    decreases |cs|
  {
    if cs != [] {
      var init := cs[..|cs| - 1];
      var c := cs[|cs| - 1];
      assert cs == init + [c];
      GroupSizesSum(init);
      GroupOrderSpec(init);
      var order := GroupOrder(init);
      SizeSumStep(init, c, order);
      if GroupKey(c) !in order {
        NotSeenHasNoMembers(init, GroupKey(c));
        assert (order + [GroupKey(c)])[..|order|] == order;
      }
    }
  }

  /** No groups, and so the "No components added yet" message, exactly for an empty list. */
  lemma NoGroupsIffEmpty(cs: seq<Component>)
    ensures GroupOrder(cs) == [] <==> cs == []
  {
    if cs != [] {
      GroupOrderSpec(cs);
      assert GroupKey(cs[0]) in GroupOrder(cs);
    }
  }

  /** Components placed without a template id all fall into the single "Ungrouped" group. */
  lemma {:induction false} AllUngrouped(cs: seq<Component>)
    requires cs != []
    requires forall i :: 0 <= i < |cs| ==> !IsTruthy(Lookup(cs[i].rest, "templateId"))
    ensures GroupOrder(cs) == [Ungrouped]
    decreases |cs|
  {
    var init := cs[..|cs| - 1];
    assert GroupKey(cs[|cs| - 1]) == Ungrouped;
    if init != [] {
      assert forall i :: 0 <= i < |init| ==> init[i] == cs[i];
      AllUngrouped(init);
    }
  }

  // ---- the buttons ----

  /** What the user can press in the panel. */
  datatype Press =
    | TrashGroup(templateId: string)
    | ClickRow(id: string)
    | ToggleRow(id: string)
    | DuplicateRow(id: string)
    | MoveUp(id: string)
    | MoveDown(id: string)
    | DeleteRow(id: string)

  /** The store members the buttons call. */
  datatype StoreCall =
    | DeleteAllComponents
    | DeleteTemplate(templateId: string)
    | SelectComponent(id: string)
    | ToggleVisibility(id: string)
    | DuplicateComponent(id: string)
    | Undo
    | Redo
    | DeleteComponent(id: string)

  function CallFor(p: Press): StoreCall {
    match p
    case TrashGroup(t) => if t == Ungrouped then DeleteAllComponents else DeleteTemplate(t)
    case ClickRow(id) => SelectComponent(id)
    case ToggleRow(id) => ToggleVisibility(id)
    case DuplicateRow(id) => DuplicateComponent(id)
    case MoveUp(_) => Undo
    case MoveDown(_) => Redo
    case DeleteRow(id) => DeleteComponent(id)
  }

  /** Running a call against the store: `None` when the store has no such member, so the
      handler calls `undefined` and throws. */
  function Perform(s: Store.StoreState, call: StoreCall): (r: Option<Store.StoreState>)
    ensures r.Some? <==> call.DeleteAllComponents? || call.SelectComponent? || call.DeleteComponent?
  {
    match call
    case DeleteAllComponents => Some(Store.DeleteAllStep(s))
    case SelectComponent(id) => Some(Store.SelectStep(s, id))
    case DeleteComponent(id) => Some(Store.DeleteStep(s, id))
    case _ => None
  }

  /** Only trashing the "Ungrouped" group, clicking a row and deleting a row reach an
      operation the store has; trashing the "Ungrouped" group empties the canvas; the
      "Move up" and "Move down" buttons call `undo` and `redo`. */
  lemma WiredButtons(s: Store.StoreState, p: Press)
    ensures Perform(s, CallFor(p)).Some? <==>
              p == TrashGroup(Ungrouped) || p.ClickRow? || p.DeleteRow?
    ensures p == TrashGroup(Ungrouped) ==> Perform(s, CallFor(p)).value.components == []
    ensures p.MoveUp? ==> CallFor(p) == Undo
    ensures p.MoveDown? ==> CallFor(p) == Redo
  {
    if p == TrashGroup(Ungrouped) {
      Store.DeleteAllEmpties(s);
    }
  }
}
