/** The AI assistant's handling of model responses: pulling JSON out of free text,
    normalising the records it holds, and handing them to the store. The generative
    service itself is not modelled; its reply text is an input. */
module AIAssistant {
  import opened Outcomes
  import opened JsValue
  import opened ComponentTypes
  import Strings
  import opened Store

  /** `JSON.parse`: `None` when it throws. */
  type Parser = string -> Option<Json>

  /** `text.match(re)`: the text of the first match (or of capture group 1), `None` when
      there is no match. */
  type Matcher = string -> Option<string>

  /** `extractValidJSON`. Three attempts in order, the first that parses wins:
      the whole text; the first `{...}` or `[{...}]` match (`braceMatch`); the contents
      of a fenced code block (`fenceMatch`). `null` otherwise. */
  function ExtractValidJson(text: string, parse: Parser, braceMatch: Matcher, fenceMatch: Matcher): (r: Json)
    // Attempt 1 wins whenever the whole text parses.
    ensures parse(text).Some? ==> r == parse(text).value
    // No brace match: give up at once, without looking for a code block.
    ensures parse(text).None? && braceMatch(text).None? ==> r == Null
    // Attempt 2 wins when the match parses.
    ensures parse(text).None? && braceMatch(text).Some? && parse(braceMatch(text).value).Some? ==>
              r == parse(braceMatch(text).value).value
    // Attempt 3 is reached only after a brace match that does not parse; an empty block is skipped.
    ensures parse(text).None? && braceMatch(text).Some? && parse(braceMatch(text).value).None? ==>
              r == (if fenceMatch(text).Some? && fenceMatch(text).value != ""
                    then parse(fenceMatch(text).value).GetOr(Null) else Null)
  {
    match parse(text)
    case Some(v) => v
    case None =>
      match braceMatch(text)
      case None => Null
      case Some(m) =>
        match parse(m)
        case Some(v) => v
        case None =>
          match fenceMatch(text)
          case Some(block) => if block != "" then parse(block).GetOr(Null) else Null
          case None => Null
  }

  /** Whatever comes back is `null` or what the parser made of one of the three candidates. */
  lemma ExtractIsSound(text: string, parse: Parser, braceMatch: Matcher, fenceMatch: Matcher)
    ensures var r := ExtractValidJson(text, parse, braceMatch, fenceMatch);
      || r == Null
      || parse(text) == Some(r)
      || (braceMatch(text).Some? && parse(braceMatch(text).value) == Some(r))
      || (fenceMatch(text).Some? && parse(fenceMatch(text).value) == Some(r))
  {
  }

  /** `!text.trim()`. */
  predicate IsBlank(text: string) {
    Strings.Trim(text) == ""
  }

  // ---- analysed canvas: a list of records replaces the canvas ----

  /** One element of the analysed list:
      `{...comp, id: comp.id || uuid, type: comp.type || 'div', props: {...comp.props,
      style: {...(style || {}), left: left || '0px', top: top || '0px'}, children: string-or-'Component'}}`.
      Reading `comp.id` on a `null` element throws, which is the `Err` case. */
  function NormalizeAnalyzed(comp: Json, freshId: string): (r: Result<Component, string>)
    ensures r.Err? <==> comp == Null
  {
    if comp == Null then Err("Cannot read properties of null")
    else
      var props := Get(comp, "props");
      var style := GetOpt(props, "style");
      var styleFields := Assign(Assign(FieldsOf(style), "left", OrElse(GetOpt(style, "left"), Str("0px"))),
                                "top", OrElse(GetOpt(style, "top"), Str("0px")));
      var children := if IsString(GetOpt(props, "children")) then GetOpt(props, "children").value
                      else Str("Component");
      var newProps := Assign(Assign(FieldsOf(props), "style", Obj(styleFields)), "children", children);
      var id := if IsTruthy(Get(comp, "id")) then AsString(Get(comp, "id").value) else freshId;
      var kind := if IsTruthy(Get(comp, "type")) then AsString(Get(comp, "type").value) else "div";
      Ok(Component(id, kind, newProps, Without(FieldsOf(Some(comp)), ["id", "type", "props"])))
  }

  /** Each analysed element keeps a truthy id and type (else a fresh id and `'div'`), has
      `left`/`top` defaulted to `'0px'` when falsy with its other style keys kept, has string
      children (else `'Component'`), and keeps its other props. */
  lemma NormalizeAnalyzedSpec(comp: Json, freshId: string)
    requires comp != Null
    ensures var c := NormalizeAnalyzed(comp, freshId).value;
      && c.id == (if IsTruthy(Get(comp, "id")) then AsString(Get(comp, "id").value) else freshId)
      && c.kind == (if IsTruthy(Get(comp, "type")) then AsString(Get(comp, "type").value) else "div")
      && Lookup(c.props, "style") == Some(Obj(StyleOf(c)))
      && Lookup(StyleOf(c), "left") == Some(OrElse(GetOpt(GetOpt(Get(comp, "props"), "style"), "left"), Str("0px")))
      && Lookup(StyleOf(c), "top") == Some(OrElse(GetOpt(GetOpt(Get(comp, "props"), "style"), "top"), Str("0px")))
      && (forall k :: k != "left" && k != "top" ==>
            Lookup(StyleOf(c), k) == Lookup(FieldsOf(GetOpt(Get(comp, "props"), "style")), k))
      && Lookup(c.props, "children") ==
           (if IsString(GetOpt(Get(comp, "props"), "children"))
            then GetOpt(Get(comp, "props"), "children") else Some(Str("Component")))
      && (forall k :: k != "style" && k != "children" ==>
            Lookup(c.props, k) == Lookup(FieldsOf(Get(comp, "props")), k))
  {
  }

  /** `extractedJSON.map(...)`: element `i` draws id `freshIds(i)` if it needs one.
      The whole map fails if any element is `null`. */
  function NormalizeAll(items: seq<Json>, freshIds: nat -> string): (r: Result<seq<Component>, string>)
    ensures r.Ok? <==> forall i :: 0 <= i < |items| ==> items[i] != Null
    ensures r.Ok? ==> |r.value| == |items|
  {
    if exists i :: 0 <= i < |items| && items[i] == Null then Err("Cannot read properties of null")
    else Ok(seq(|items|, i requires 0 <= i < |items| => NormalizeAnalyzed(items[i], freshIds(i)).value))
  }

  /** What applying the analysed reply does. */
  datatype ApplyOutcome =
    | Ignored                   // blank reply text: return without any change
    | Failed(message: string)   // the error shown; the store is not called
    | Applied(list: seq<Component>)

  const InvalidFormat := "AI response is not in valid JSON format."

  /** `handleApplyAnalyzedChanges`, up to the store calls. */
  function AnalyzedOutcome(text: string, parse: Parser, braceMatch: Matcher, fenceMatch: Matcher,
                           freshIds: nat -> string): ApplyOutcome
  {
    if IsBlank(text) then Ignored
    else
      var extracted := ExtractValidJson(text, parse, braceMatch, fenceMatch);
      if !Truthy(extracted) || !extracted.Arr? then Failed(InvalidFormat)
      else
        match NormalizeAll(extracted.items, freshIds)
        case Err(_) => Failed(InvalidFormat)
        case Ok(list) => Applied(list)
  }

  /** The store calls: `setComponents(list)`, then `selectComponent(list[0].id)` if the list is not empty. */
  function ApplyOutcomeToStore(s: StoreState, o: ApplyOutcome): StoreState {
    match o
    case Applied(list) =>
      var t := SetStep(s, list);
      if |list| > 0 then SelectStep(t, list[0].id) else t
    case _ => s
  }

  /** Blank text does nothing; a reply that is not a JSON array (or holds a `null` element)
      reports the format error and leaves the store as it was. */
  lemma AnalyzedRejects(s: StoreState, text: string, parse: Parser, braceMatch: Matcher, fenceMatch: Matcher,
                        freshIds: nat -> string)
    ensures IsBlank(text) ==> AnalyzedOutcome(text, parse, braceMatch, fenceMatch, freshIds) == Ignored
    ensures var e := ExtractValidJson(text, parse, braceMatch, fenceMatch);
      !IsBlank(text) && (!e.Arr? || exists i :: 0 <= i < |e.items| && e.items[i] == Null) ==>
        AnalyzedOutcome(text, parse, braceMatch, fenceMatch, freshIds) == Failed(InvalidFormat)
    ensures !AnalyzedOutcome(text, parse, braceMatch, fenceMatch, freshIds).Applied? ==>
              ApplyOutcomeToStore(s, AnalyzedOutcome(text, parse, braceMatch, fenceMatch, freshIds)) == s
  {
  }

  /** A reply that is a JSON array without `null` elements replaces the canvas with the
      normalised elements, one per element in order, snapshots the old list, and selects
      the first element when there is one. */
  lemma AnalyzedApplies(s: StoreState, text: string, parse: Parser, braceMatch: Matcher, fenceMatch: Matcher,
                        freshIds: nat -> string)
    requires !IsBlank(text)
    requires var e := ExtractValidJson(text, parse, braceMatch, fenceMatch);
      e.Arr? && forall i :: 0 <= i < |e.items| ==> e.items[i] != Null
    ensures var items := ExtractValidJson(text, parse, braceMatch, fenceMatch).items;
      var t := ApplyOutcomeToStore(s, AnalyzedOutcome(text, parse, braceMatch, fenceMatch, freshIds));
      && |t.components| == |items|
      && (forall i :: 0 <= i < |items| ==> NormalizeAnalyzed(items[i], freshIds(i)) == Ok(t.components[i]))
      && t.previous == s.components
      && t.selected == (if |items| > 0 then Some(t.components[0].id) else s.selected)
  {
    var items := ExtractValidJson(text, parse, braceMatch, fenceMatch).items;
    assert NormalizeAll(items, freshIds).Ok?;
  }

  // ---- generated component: one record appended to the canvas ----

  /** `{...style, left: left || "100px", top: top || "100px", width: width || "200px"}` */
  function GeneratedStyle(style: Option<Json>): Fields
  {
    Assign(Assign(Assign(FieldsOf(style), "left", OrElse(GetOpt(style, "left"), Str("100px"))),
                  "top", OrElse(GetOpt(style, "top"), Str("100px"))),
           "width", OrElse(GetOpt(style, "width"), Str("200px")))
  }

  /** `{...props, style: GeneratedStyle(props?.style), children: string-or-fallback}` */
  function GeneratedProps(props: Option<Json>, fallbackChildren: string): Fields
  {
    var children := if IsString(GetOpt(props, "children")) then GetOpt(props, "children").value
                    else Str(fallbackChildren);
    Assign(Assign(FieldsOf(props), "style", Obj(GeneratedStyle(GetOpt(props, "style")))), "children", children)
  }

  /** The generated-record safeguards: `left`/`top` default to `"100px"` and `width` to
      `"200px"` when falsy, other style keys are kept; children stay if they are a string and
      fall back otherwise; other props are kept. */
  lemma GeneratedPropsSpec(props: Option<Json>, fallbackChildren: string)
    ensures var r := GeneratedProps(props, fallbackChildren);
      var st := GeneratedStyle(GetOpt(props, "style"));
      && Lookup(r, "style") == Some(Obj(st))
      && Lookup(st, "left") == Some(OrElse(GetOpt(GetOpt(props, "style"), "left"), Str("100px")))
      && Lookup(st, "top") == Some(OrElse(GetOpt(GetOpt(props, "style"), "top"), Str("100px")))
      && Lookup(st, "width") == Some(OrElse(GetOpt(GetOpt(props, "style"), "width"), Str("200px")))
      && (forall k :: k != "left" && k != "top" && k != "width" ==>
            Lookup(st, k) == Lookup(FieldsOf(GetOpt(props, "style")), k))
      && Lookup(r, "children") ==
           (if IsString(GetOpt(props, "children")) then GetOpt(props, "children") else Some(Str(fallbackChildren)))
      && (forall k :: k != "style" && k != "children" ==> Lookup(r, k) == Lookup(FieldsOf(props), k))
  {
  }

  /** The record shown when the reply holds no usable JSON. */
  function DefaultComponent(componentId: string, name: string): Component {
    Component(componentId, "div",
      [("style", Obj([("width", Str("200px")), ("height", Str("auto")), ("left", Str("100px")),
                      ("top", Str("100px")), ("backgroundColor", Str("#f8f9fa")), ("borderRadius", Str("8px")),
                      ("padding", Str("16px")), ("boxShadow", Str("0 4px 6px rgba(0,0,0,0.1)"))])),
       ("children", Str(name))],
      [])
  }

  /** The record shown when the request to the service fails. */
  function FallbackComponent(freshId: string, name: string): Component {
    Component(freshId, "div",
      [("style", Obj([("width", Str("200px")), ("height", Str("auto")), ("left", Str("100px")),
                      ("top", Str("100px")), ("backgroundColor", Str("#f8f9fa")), ("padding", Str("10px")),
                      ("border", Str("1px solid #ddd")), ("borderRadius", Str("4px"))])),
       ("children", Str(if name != "" then name else "New Component"))],
      [])
  }

  /** The record built from an extracted (truthy) JSON value. */
  function SafeFromExtracted(v: Json, componentId: string, name: string): Component {
    Component(
      if IsTruthy(Get(v, "id")) then AsString(Get(v, "id").value) else componentId,
      if IsTruthy(Get(v, "type")) then AsString(Get(v, "type").value) else "div",
      GeneratedProps(Get(v, "props"), name),
      Without(FieldsOf(Some(v)), ["id", "type", "props"]))
  }

  datatype GenerateOutcome =
    | NameRequired                                  // "Please enter a component name."
    | Generated(component: Component, failed: bool) // failed: the request threw, error shown

  /** `handleGenerateComponent` after the request: `reply` is the reply text, `None` when
      the request threw. `componentId` is the id drawn before the request, `fallbackId` the one
      drawn in the error path. */
  function GenerateComponent(name: string, reply: Option<string>, parse: Parser, braceMatch: Matcher,
                             fenceMatch: Matcher, componentId: string, fallbackId: string): (r: GenerateOutcome)
    ensures IsBlank(name) <==> r == NameRequired
    ensures r.Generated? ==> r.failed == reply.None?
    ensures !IsBlank(name) && reply.None? ==> r == Generated(FallbackComponent(fallbackId, name), true)
    ensures !IsBlank(name) && reply.Some? ==>
              var extracted := ExtractValidJson(reply.value, parse, braceMatch, fenceMatch);
              r == Generated(if Truthy(extracted) then SafeFromExtracted(extracted, componentId, name)
                             else DefaultComponent(componentId, name), false)
  {
    if IsBlank(name) then NameRequired
    else if reply.None? then Generated(FallbackComponent(fallbackId, name), true)
    else
      var extracted := ExtractValidJson(reply.value, parse, braceMatch, fenceMatch);
      if !Truthy(extracted) then Generated(DefaultComponent(componentId, name), false)
      else Generated(SafeFromExtracted(extracted, componentId, name), false)
  }

  /** Whichever path produced it, the record shown has string children and `left`, `top`
      and `width` set. */
  lemma GeneratedRecordShape(name: string, reply: Option<string>, parse: Parser, braceMatch: Matcher,
                             fenceMatch: Matcher, componentId: string, fallbackId: string)
    requires !IsBlank(name)
    ensures var c := GenerateComponent(name, reply, parse, braceMatch, fenceMatch, componentId, fallbackId).component;
      && Lookup(c.props, "children").Some? && Lookup(c.props, "children").value.Str?
      && Lookup(StyleOf(c), "left").Some? && Lookup(StyleOf(c), "top").Some?
      && Lookup(StyleOf(c), "width").Some?
  {
    var c := GenerateComponent(name, reply, parse, braceMatch, fenceMatch, componentId, fallbackId).component;
    if reply.None? {
      FallbackShape(fallbackId, name);
    } else {
      var extracted := ExtractValidJson(reply.value, parse, braceMatch, fenceMatch);
      if Truthy(extracted) {
        GeneratedPropsSpec(Get(extracted, "props"), name);
      } else {
        DefaultShape(componentId, name);
      }
    }
  }

  lemma DefaultShape(componentId: string, name: string)
    ensures var c := DefaultComponent(componentId, name);
      && Lookup(c.props, "children") == Some(Str(name))
      && Lookup(StyleOf(c), "left") == Some(Str("100px")) && Lookup(StyleOf(c), "top") == Some(Str("100px"))
      && Lookup(StyleOf(c), "width") == Some(Str("200px"))
  {
  }

  lemma FallbackShape(freshId: string, name: string)
    ensures var c := FallbackComponent(freshId, name);
      && Lookup(c.props, "children") == Some(Str(if name != "" then name else "New Component"))
      && Lookup(StyleOf(c), "left") == Some(Str("100px")) && Lookup(StyleOf(c), "top") == Some(Str("100px"))
      && Lookup(StyleOf(c), "width") == Some(Str("200px"))
  {
  }

  /** A request that fails shows a placeholder titled with the entered name. */
  lemma FailedRequestUsesName(name: string, parse: Parser, braceMatch: Matcher, fenceMatch: Matcher,
                             componentId: string, fallbackId: string)
    requires !IsBlank(name)
    ensures var r := GenerateComponent(name, None, parse, braceMatch, fenceMatch, componentId, fallbackId);
      r.Generated? && r.component.id == fallbackId && Lookup(r.component.props, "children") == Some(Str(name))
  {
  }

  /** The records this path puts on the canvas are outside the declared component type:
      `"div"` is not a component kind, and no `className` is set. */
  lemma GeneratedRecordsAreNotWellTyped(componentId: string, name: string)
    ensures !WellTyped(DefaultComponent(componentId, name))
    ensures !WellTyped(FallbackComponent(componentId, name))
    ensures DefaultComponent(componentId, name).kind == "div" && FallbackComponent(componentId, name).kind == "div"
    ensures Lookup(DefaultComponent(componentId, name).props, "className").None?
    ensures Lookup(FallbackComponent(componentId, name).props, "className").None?
    ensures !IsProps(DefaultComponent(componentId, name).props) && !IsProps(FallbackComponent(componentId, name).props)
  {
    assert ParseType("div").None?;
  }

  /** `handleApplyGeneratedChanges`: the safeguards again (with the name as entered now), then
      `setComponents([...components, safe])` and `selectComponent(safe.id)`. */
  function ApplyGenerated(s: StoreState, generated: Option<Component>, nameNow: string, freshId: string): StoreState {
    if generated.None? then s
    else
      var g := generated.value;
      var safe := Component(
        if g.id != "" then g.id else freshId,
        if g.kind != "" then g.kind else "div",
        GeneratedProps(Some(Obj(g.props)), if nameNow != "" then nameNow else "New Component"),
        g.rest);
      SelectStep(SetStep(s, s.components + [safe]), safe.id)
  }

  /** Applying a generated record appends it after every existing component, keeps its own
      id (unlike `addComponent`), selects it, and snapshots the old list. The appended record
      has the type or `div`, the safeguarded props (children falling back to the name as
      entered now, else `New Component`) and the record's other keys. */
  lemma ApplyGeneratedAppends(s: StoreState, g: Component, nameNow: string, freshId: string)
    ensures var t := ApplyGenerated(s, Some(g), nameNow, freshId);
      var id := if g.id != "" then g.id else freshId;
      var fallback := if nameNow != "" then nameNow else "New Component";
      && |t.components| == |s.components| + 1
      && t.components[..|s.components|] == s.components
      && t.components[|s.components|].id == id
      && t.components[|s.components|].kind == (if g.kind != "" then g.kind else "div")
      && t.components[|s.components|].props == GeneratedProps(Some(Obj(g.props)), fallback)
      && t.components[|s.components|].rest == g.rest
      && t.selected == Some(id)
      && t.previous == s.components
  {
    var t := ApplyGenerated(s, Some(g), nameNow, freshId);
    assert t.components[..|s.components|] == s.components;
  }

  /** The record on the canvas has its `left`, `top` and `width` set (defaults `100px`,
      `100px`, `200px` for falsy ones, other style keys kept) and string children. */
  lemma AppliedRecordShape(s: StoreState, g: Component, nameNow: string, freshId: string)
    ensures var c := ApplyGenerated(s, Some(g), nameNow, freshId).components[|s.components|];
      var st := GetOpt(Some(Obj(g.props)), "style");
      && Lookup(StyleOf(c), "left") == Some(OrElse(GetOpt(st, "left"), Str("100px")))
      && Lookup(StyleOf(c), "top") == Some(OrElse(GetOpt(st, "top"), Str("100px")))
      && Lookup(StyleOf(c), "width") == Some(OrElse(GetOpt(st, "width"), Str("200px")))
      && (forall k :: k != "left" && k != "top" && k != "width" ==> Lookup(StyleOf(c), k) == Lookup(FieldsOf(st), k))
      && Lookup(c.props, "children").Some? && Lookup(c.props, "children").value.Str?
  {
    ApplyGeneratedAppends(s, g, nameNow, freshId);
    GeneratedPropsSpec(Some(Obj(g.props)), if nameNow != "" then nameNow else "New Component");
  }

  lemma ApplyNothingIsNoOp(s: StoreState, nameNow: string, freshId: string)
    ensures ApplyGenerated(s, None, nameNow, freshId) == s
  {
  }
}
