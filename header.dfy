/** The code export panel of the header: the JSX and HTML renderings of the canvas and the
    switch between the export formats. */
module Header {
  import opened JsValue
  import opened Strings
  import opened ComponentTypes

  /** `JSON.stringify`; its output format is not modelled. */
  type Stringify = Json -> string

  const NoJsx := "// No components to display"
  const NoHtml := "<!-- No components to display -->"

  // ---- JSX ----

  /** One attribute of a JSX line: a string as `key="value"`, `true` as the bare key, and
      every other value (`false` included) as `key={JSON}`. */
  function PropAttr(key: string, value: Json, stringify: Stringify): string {
    if value.Str? then key + "=\"" + value.s + "\""
    else if value == Bool(true) then key
    else key + "={" + stringify(value) + "}"
  }

  /** The three renderings can be told apart from the text: the bare key is exactly `true`,
      a quote after `=` is exactly a string, a brace after `=` is exactly everything else. */
  lemma PropAttrCases(key: string, value: Json, stringify: Stringify)
    ensures PropAttr(key, value, stringify) == key <==> value == Bool(true)
    ensures StartsWith(PropAttr(key, value, stringify), key + "=\"") <==> value.Str?
    ensures StartsWith(PropAttr(key, value, stringify), key + "={") <==> !value.Str? && value != Bool(true)
  {
    var r := PropAttr(key, value, stringify);
    var n := |key|;
    if value.Str? {
      assert r[..n + 2] == key + "=\"";
      assert r[n + 1] == '"';
    } else if value != Bool(true) {
      assert r[..n + 2] == key + "={";
      assert r[n + 1] == '{';
    }
  }

  function Attrs(fs: Fields, stringify: Stringify): seq<string> {
    seq(|fs|, i requires 0 <= i < |fs| => PropAttr(fs[i].0, fs[i].1, stringify))
  }

  /** `${c.props.children || ""}`. */
  function ChildrenText(c: Component): string {
    AsString(OrElse(Lookup(c.props, "children"), Str("")))
  }

  /** `<type props>children</type>` for one component. */
  function JsxLine(c: Component, stringify: Stringify): string {
    "<" + c.kind + " " + Join(Attrs(c.props, stringify), " ") + ">" + ChildrenText(c) + "</" + c.kind + ">"
  }

  function JsxLines(cs: seq<Component>, stringify: Stringify): (lines: seq<string>)
    ensures |lines| == |cs|
  {
    seq(|cs|, i requires 0 <= i < |cs| => JsxLine(cs[i], stringify))
  }

  /** `getJSXCode`. */
  function JsxCode(cs: seq<Component>, stringify: Stringify): (r: string)
    ensures cs == [] ==> r == NoJsx
  {
    if |cs| == 0 then NoJsx else Join(JsxLines(cs, stringify), "\n")
  }

  /** One line per component, in list order: when no rendered line holds a newline, splitting
      the code at newlines gives back exactly the lines of the components. */
  lemma JsxOneLinePerComponent(cs: seq<Component>, stringify: Stringify)
    requires cs != []
    requires forall i :: 0 <= i < |cs| ==> '\n' !in JsxLine(cs[i], stringify)
    ensures Split(JsxCode(cs, stringify), '\n') == JsxLines(cs, stringify)
  {
    var lines := JsxLines(cs, stringify);
    assert forall i :: 0 <= i < |lines| ==> lines[i] == JsxLine(cs[i], stringify);
    JoinSplit(lines, '\n');
  }

  /** A line opens with the component's type and carries every one of its props' attributes. */
  lemma JsxLineHasEveryProp(c: Component, stringify: Stringify, i: nat)
    requires i < |c.props|
    ensures StartsWith(JsxLine(c, stringify), "<" + c.kind + " ")
    ensures Contains(JsxLine(c, stringify), PropAttr(c.props[i].0, c.props[i].1, stringify))
  {
    var attrs := Join(Attrs(c.props, stringify), " ");
    var pre := "<" + c.kind + " ";
    var post := ">" + ChildrenText(c) + "</" + c.kind + ">";
    assert JsxLine(c, stringify) == pre + attrs + post;
    JoinContains(Attrs(c.props, stringify), " ", i);
    ContainsInFramed(pre, attrs, post, Attrs(c.props, stringify)[i]);
  }

  /** Every component's line occurs in the code, and the first one starts it. */
  lemma JsxHasEveryComponent(cs: seq<Component>, stringify: Stringify, i: nat)
    requires i < |cs|
    ensures Contains(JsxCode(cs, stringify), JsxLine(cs[i], stringify))
    ensures StartsWith(JsxCode(cs, stringify), JsxLine(cs[0], stringify))
  {
    JoinContains(JsxLines(cs, stringify), "\n", i);
  }

  // ---- style keys ----

  /** `key.replace(/[A-Z]/g, m => '-' + m.toLowerCase())`. */
  function Kebab(key: string): (r: string)
    ensures forall i :: 0 <= i < |r| ==> !IsUpperAscii(r[i])
    decreases |key|
  {
    if key == [] then []
    else (if IsUpperAscii(key[0]) then ['-', ToLowerChar(key[0])] else [key[0]]) + Kebab(key[1..])
  }

  predicate IsLowerAscii(c: char) {
    'a' <= c <= 'z'
  }

  /** The inverse direction, reading `-x` as the capital of `x`. */
  function Camelize(s: string): string
    decreases |s|
  {
    if |s| >= 2 && s[0] == '-' && IsLowerAscii(s[1]) then [(s[1] as int - 32) as char] + Camelize(s[2..])
    else if s == [] then []
    else [s[0]] + Camelize(s[1..])
  }

  /** A camelCase key without hyphens survives the conversion to kebab case. */
  lemma {:induction false} KebabRoundTrip(key: string)
    requires '-' !in key
    ensures Camelize(Kebab(key)) == key
    decreases |key|
  {
    if key != [] {
      KebabRoundTrip(key[1..]);
      var rest := Kebab(key[1..]);
      if IsUpperAscii(key[0]) {
        var k := ['-', ToLowerChar(key[0])] + rest;
        assert k[2..] == rest;
      } else {
        var k := [key[0]] + rest;
        assert k[1..] == rest;
      }
      assert key == [key[0]] + key[1..];
    }
  }

  /** Hence distinct hyphen-free keys become distinct CSS property names. */
  lemma KebabInjective(a: string, b: string)
    requires '-' !in a && '-' !in b && a != b
    ensures Kebab(a) != Kebab(b)
  {
    KebabRoundTrip(a);
    KebabRoundTrip(b);
  }

  /** A key that already holds a hyphen can collide with a camelCase one. */
  lemma KebabCollision()
    ensures Kebab("aB") == Kebab("a-b") == "a-b"
  {
    assert "aB"[1..] == "B" && "B"[1..] == "";
    assert "a-b"[1..] == "-b" && "-b"[1..] == "b" && "b"[1..] == "";
    assert Kebab("B") == "-b";
  }

  // ---- HTML ----

  /** `kebab: value;` for one style entry. */
  function StyleDecl(key: string, value: Json): string {
    Kebab(key) + ": " + AsString(value) + ";"
  }

  function StyleDecls(fs: Fields): seq<string> {
    seq(|fs|, i requires 0 <= i < |fs| => StyleDecl(fs[i].0, fs[i].1))
  }

  /** The block for one component, with the class taken from the lowercased type, the inline
      style from `c.props.style || {}` and the body from the children or `""`. */
  function HtmlBlock(c: Component): string {
    DivOpen(c) + StyleAttr(c) + ">\n      " + ChildrenText(c) + "\n    </div>"
  }

  function DivOpen(c: Component): string {
    "\n    <div class=\"" + ToLower(c.kind) + "\""
  }

  function StyleAttr(c: Component): string {
    " style=\"" + Join(StyleDecls(StyleOf(c)), " ") + "\""
  }

  function HtmlBlocks(cs: seq<Component>): (blocks: seq<string>)
    ensures |blocks| == |cs|
  {
    seq(|cs|, i requires 0 <= i < |cs| => HtmlBlock(cs[i]))
  }

  const HtmlHead :=
    "\n<!DOCTYPE html>\n<html lang=\"en\">\n<head>\n  <meta charset=\"UTF-8\">\n"
    + "  <meta name=\"viewport\" content=\"width=device-width, initial-scale=1.0\">\n"
    + "  <title>Shared UI</title>\n  <style>\n"
    + "    body { font-family: Arial, sans-serif; padding: 20px; background-color: #f4f4f4; }\n"
    + "    .container { max-width: 800px; margin: auto; padding: 20px; background: white; border-radius: 8px; box-shadow: 0 4px 8px rgba(0, 0, 0, 0.1); }\n"
    + "  </style>\n</head>\n<body>\n  <div class=\"container\">\n    "

  const HtmlTail := "\n  </div>\n</body>\n</html>"

  /** `getHTMLCode`. */
  function HtmlCode(cs: seq<Component>): (r: string)
    ensures cs == [] ==> r == NoHtml
  {
    if |cs| == 0 then NoHtml else HtmlHead + Join(HtmlBlocks(cs), "\n") + HtmlTail
  }

  /** A non-empty canvas gives the fixed document head, then every component's block. */
  lemma HtmlHasEveryComponent(cs: seq<Component>, i: nat)
    requires i < |cs|
    ensures StartsWith(HtmlCode(cs), HtmlHead)
    ensures Contains(HtmlCode(cs), HtmlBlock(cs[i]))
  {
    JoinContains(HtmlBlocks(cs), "\n", i);
    ContainsInFramed(HtmlHead, Join(HtmlBlocks(cs), "\n"), HtmlTail, HtmlBlock(cs[i]));
  }

  /** Every style entry of a component is declared in its block, under a name with no capitals. */
  lemma HtmlBlockHasEveryStyle(c: Component, i: nat)
    requires i < |StyleOf(c)|
    ensures Contains(HtmlBlock(c), StyleDecl(StyleOf(c)[i].0, StyleOf(c)[i].1))
    ensures forall j :: 0 <= j < |Kebab(StyleOf(c)[i].0)| ==> !IsUpperAscii(Kebab(StyleOf(c)[i].0)[j])
  {
    var decl := StyleDecls(StyleOf(c))[i];
    JoinContains(StyleDecls(StyleOf(c)), " ", i);
    ContainsInFramed(" style=\"", Join(StyleDecls(StyleOf(c)), " "), "\"", decl);
    var body := ">\n      " + ChildrenText(c) + "\n    </div>";
    assert HtmlBlock(c) == DivOpen(c) + StyleAttr(c) + body;
    ContainsInFramed(DivOpen(c), StyleAttr(c), body, decl);
  }

  /** The block opens with a class attribute holding the type with its capitals lowered,
      letter for letter. */
  lemma HtmlClassIsLowercased(c: Component)
    ensures StartsWith(HtmlBlock(c), "\n    <div class=\"" + ToLower(c.kind) + "\"")
    ensures |ToLower(c.kind)| == |c.kind|
    ensures forall j :: 0 <= j < |c.kind| ==> !IsUpperAscii(ToLower(c.kind)[j])
  {
    var rest := StyleAttr(c) + ">\n      " + ChildrenText(c) + "\n    </div>";
    assert HtmlBlock(c) == DivOpen(c) + rest;
    assert (DivOpen(c) + rest)[..|DivOpen(c)|] == DivOpen(c);
  }

  // ---- the format switch ----

  /** `getActiveCode`: `jsonCode` is `JSON.stringify(components, null, 2)`. Any other format
      name gives the empty string. */
  function ActiveCode(format: string, cs: seq<Component>, stringify: Stringify, jsonCode: string): (r: string)
    ensures format == "jsx" ==> r == JsxCode(cs, stringify)
    ensures format == "html" ==> r == HtmlCode(cs)
    ensures format == "json" ==> r == jsonCode
    ensures format !in ["jsx", "html", "json"] ==> r == ""
  {
    match format
    case "jsx" => JsxCode(cs, stringify)
    case "html" => HtmlCode(cs)
    case "json" => jsonCode
    case _ => ""
  }
}
