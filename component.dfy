/** The component record kept on the canvas, and the declared types it is meant to satisfy. */
module ComponentTypes {
  import opened Outcomes
  import opened JsValue

  /** The closed set of component kinds. */
  datatype ComponentType = Button | Text | Input | Card | Image | Navbar | Form

  /** The tag each kind is written as. */
  function TypeName(t: ComponentType): string {
    match t
    case Button => "button"
    case Text => "text"
    case Input => "input"
    case Card => "card"
    case Image => "image"
    case Navbar => "navbar"
    case Form => "form"
  }

  /** Reads a tag back; exactly the seven tag strings are kinds. */
  function ParseType(s: string): (r: Option<ComponentType>)
    ensures r.Some? <==> s in ["button", "text", "input", "card", "image", "navbar", "form"]
    ensures r.Some? ==> TypeName(r.value) == s
  {
    match s
    case "button" => Some(Button)
    case "text" => Some(Text)
    case "input" => Some(Input)
    case "card" => Some(Card)
    case "image" => Some(Image)
    case "navbar" => Some(Navbar)
    case "form" => Some(Form)
    case _ => None
  }

  /** Every kind survives writing and reading back its tag. */
  lemma TypeNameRoundTrip(t: ComponentType)
    ensures ParseType(TypeName(t)) == Some(t)
  {
  }

  /** A style object: every entry, named or extra, is a string (an absent entry is `undefined`). */
  predicate IsStyle(v: Json) {
    v.Obj? && forall i :: 0 <= i < |v.fields| ==> v.fields[i].1.Str?
  }

  predicate OptionalString(o: Option<Json>) {
    o.None? || o.value.Str?
  }

  /** The declared props shape: `style` and `className` always present, `placeholder`, `src`
      and `alt` optional strings, `children` anything renderable, any further keys allowed. */
  predicate IsProps(fs: Fields) {
    && Lookup(fs, "style").Some? && IsStyle(Lookup(fs, "style").value)
    && Lookup(fs, "className").Some? && Lookup(fs, "className").value.Str?
    && OptionalString(Lookup(fs, "placeholder"))
    && OptionalString(Lookup(fs, "src"))
    && OptionalString(Lookup(fs, "alt"))
  }

  /** A component as the store holds it at run time. `id`, `type` (here `kind`) and `props`
      are the declared fields; `rest` holds any other top-level properties a caller put on
      the record (`isVisible`, `templateId`, keys from AI output), which the declared
      interface does not name. */
  datatype Component = Component(id: string, kind: string, props: Fields, rest: Fields)

  /** The component satisfies the declared `Component` interface. */
  predicate WellTyped(c: Component) {
    ParseType(c.kind).Some? && IsProps(c.props)
  }

  /** `Partial<Component>` as passed to `updateComponent`: each declared field may be
      absent; other top-level properties ride along in `rest`. */
  datatype Patch = Patch(id: Option<string>, kind: Option<string>, props: Option<Fields>, rest: Fields)

  /** `{...comp, ...patch}`: a shallow, top-level merge. A `props` in the patch replaces the
      component's whole props object. */
  function Merge(c: Component, p: Patch): (r: Component)
    ensures r.id == (if p.id.Some? then p.id.value else c.id)
    ensures r.kind == (if p.kind.Some? then p.kind.value else c.kind)
    ensures r.props == (if p.props.Some? then p.props.value else c.props)
    ensures UniqueKeys(p.rest) ==>
              forall k :: Lookup(r.rest, k) == if k in Keys(p.rest) then Lookup(p.rest, k) else Lookup(c.rest, k)
    ensures UniqueKeys(p.rest) ==> Keys(r.rest) == Keys(c.rest) + NewKeys(Keys(c.rest), Keys(p.rest))
  {
    SpreadKeys(c.rest, p.rest);
    Component(p.id.GetOr(c.id), p.kind.GetOr(c.kind), p.props.GetOr(c.props), Spread(c.rest, p.rest))
  }

  /** The style object of a component, or `{}` when it has none. */
  function StyleOf(c: Component): Fields {
    FieldsOf(Lookup(c.props, "style"))
  }
}
