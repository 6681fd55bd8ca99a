/** The preview page's JSX export: one React component definition per canvas component and
    a layout component that renders them all. */
module Preview {
  import opened JsValue
  import opened Strings
  import opened ComponentTypes

  /** `id.replace(/-/g, '')`: every hyphen dropped, every other character kept in order. */
  function RemoveHyphens(s: string): (r: string)
    ensures '-' !in r
    decreases |s|
  {
    if s == [] then [] else (if s[0] == '-' then [] else [s[0]]) + RemoveHyphens(s[1..])
  }

  /** Nothing is added: every character of the result was in the id. */
  lemma {:induction false} RemoveHyphensKeepsOnly(s: string)
    ensures forall ch :: ch in RemoveHyphens(s) ==> ch in s
    decreases |s|
  {
    if s != [] {
      RemoveHyphensKeepsOnly(s[1..]);
    }
  }

  /** Every character other than a hyphen is kept as often as it occurs. */
  lemma {:induction false} RemoveHyphensCounts(s: string)
    ensures multiset(RemoveHyphens(s)) == multiset(s)['-' := 0]
    decreases |s|
  {
    if s != [] {
      RemoveHyphensCounts(s[1..]);
      assert s == [s[0]] + s[1..];
    }
  }

  /** The name under which a component is defined and referenced. */
  function ComponentName(c: Component): string {
    "Component" + RemoveHyphens(c.id)
  }

  /** Ids without hyphens are used as they are, so distinct ones give distinct names. */
  lemma {:induction false} HyphenFreeIdKept(id: string)
    requires '-' !in id
    ensures RemoveHyphens(id) == id
    decreases |id|
  {
    if id != [] {
      HyphenFreeIdKept(id[1..]);
      assert id == [id[0]] + id[1..];
    }
  }

  /** The removal keeps the order: the pieces of a concatenation are treated apart. */
  lemma {:induction false} RemoveHyphensConcat(a: string, b: string)
    ensures RemoveHyphens(a + b) == RemoveHyphens(a) + RemoveHyphens(b)
    decreases |a|
  {
    if a == [] {
      assert a + b == b;
    } else {
      var h := if a[0] == '-' then [] else [a[0]];
      assert (a + b)[0] == a[0] && (a + b)[1..] == a[1..] + b;
      assert RemoveHyphens(a + b) == h + RemoveHyphens(a[1..] + b);
      RemoveHyphensConcat(a[1..], b);
      assert RemoveHyphens(a) == h + RemoveHyphens(a[1..]);
    }
  }

  /** A single character: a hyphen is dropped, any other character stays. */
  lemma RemoveHyphensChar(ch: char)
    ensures RemoveHyphens([ch]) == if ch == '-' then [] else [ch]
  {
    assert [ch][1..] == [];
  }

  /** A hyphen between two pieces is dropped. */
  lemma DropHyphen(x: string, y: string)
    ensures RemoveHyphens(x + "-" + y) == RemoveHyphens(x + y)
  {
    RemoveHyphensConcat(x + "-", y);
    RemoveHyphensConcat(x, "-");
    RemoveHyphensChar('-');
    RemoveHyphensConcat(x, y);
  }

  /** Ids that differ only in their hyphens get the same name, so `a-b` and `ab` are
      both defined as `Componentab`. */
  lemma HyphenCollision(c: Component, d: Component, x: string, y: string)
    requires c.id == x + "-" + y && d.id == x + y
    ensures c.id != d.id && ComponentName(c) == ComponentName(d)
  {
    assert |c.id| == |d.id| + 1;
    DropHyphen(x, y);
  }

  /** `  key: "value"` for one style entry. */
  function StyleEntry(key: string, value: Json): string {
    "  " + key + ": \"" + AsString(value) + "\""
  }

  function StyleEntries(fs: Fields): seq<string> {
    seq(|fs|, i requires 0 <= i < |fs| => StyleEntry(fs[i].0, fs[i].1))
  }

  /** The props the element does not receive as attributes. */
  const Reserved: seq<string> := ["style", "className", "content"]

  /** `key="value"` for one attribute. */
  function Attr(key: string, value: Json): string {
    key + "=\"" + AsString(value) + "\""
  }

  function Attributes(fs: Fields): seq<string> {
    seq(|fs|, i requires 0 <= i < |fs| => Attr(fs[i].0, fs[i].1))
  }

  /** The element inside the wrapper: a text component shows its `content` in a paragraph;
      any other component becomes a self-closing tag of its type carrying the other props. */
  function Element(c: Component): string {
    if c.kind == "text" then "<p>" + AsString(OrElse(Lookup(c.props, "content"), Str(""))) + "</p>"
    else "<" + c.kind + " " + Join(Attributes(Without(c.props, Reserved)), " ") + " />"
  }

  function ClassName(c: Component): string {
    AsString(OrElse(Lookup(c.props, "className"), Str("")))
  }

  /** The definition emitted for one component. */
  function Definition(c: Component): string {
    "\n// Component ID: " + c.id + "\nconst " + ComponentName(c) + " = () => {\n  return (\n    <div \n"
    + "      className=\"" + ClassName(c) + "\"\n      style={{\n" + Join(StyleEntries(StyleOf(c)), ",\n")
    + "\n      }}\n    >\n      {/* Component content */}\n      " + Element(c) + "\n    </div>\n  );\n};\n"
  }

  function Definitions(cs: seq<Component>): (r: seq<string>)
    ensures |r| == |cs|
  {
    seq(|cs|, i requires 0 <= i < |cs| => Definition(cs[i]))
  }

  /** `<ComponentX />` for one component of the layout. */
  function Tag(c: Component): string {
    "<" + ComponentName(c) + " />"
  }

  function Tags(cs: seq<Component>): (r: seq<string>)
    ensures |r| == |cs|
  {
    seq(|cs|, i requires 0 <= i < |cs| => Tag(cs[i]))
  }

  const Imports := "import React from 'react';\n\n"

  const LayoutIndent := "      "

  /** The layout template line by line: the lines before the tags, and after them. */
  const MainHeadLines: seq<string> :=
    ["", "export default function PreviewLayout() {", "  return (",
     "    <div className=\"" + "relative min-h-screen bg-gray-50\">"]
  const MainTailLines: seq<string> := ["    </div>", "  );", "}", ""]

  /** The template text up to the first tag, which sits on an indented line. */
  const MainHead := Join(MainHeadLines, "\n") + "\n" + LayoutIndent
  const MainTail := "\n" + Join(MainTailLines, "\n")

  function MainComponent(cs: seq<Component>): string {
    MainHead + Join(Tags(cs), "\n      ") + MainTail
  }

  /** One indented line per component, holding its tag. */
  function TagLines(cs: seq<Component>): (lines: seq<string>)
    ensures |lines| == |cs|
  {
    seq(|cs|, i requires 0 <= i < |cs| => LayoutIndent + Tag(cs[i]))
  }

  lemma HeadLinesHaveNoNewline()
    ensures forall i :: 0 <= i < |MainHeadLines| ==> '\n' !in MainHeadLines[i]
  {
    FunctionLineHasNoNewline();
    DivLineHasNoNewline();
  }

  lemma FunctionLineHasNoNewline()
    ensures '\n' !in MainHeadLines[1]
  {
  }

  lemma DivLineHasNoNewline()
    ensures '\n' !in MainHeadLines[3]
  {
  }

  lemma TailLinesHaveNoNewline()
    ensures forall i :: 0 <= i < |MainTailLines| ==> '\n' !in MainTailLines[i]
  {
  }

  /** The layout renders one line per component, in list order, holding that component's
      tag, between the fixed opening and closing lines (for ids without newlines). */
  lemma LayoutOneTagPerLine(cs: seq<Component>)
    requires cs != []
    requires forall i :: 0 <= i < |cs| ==> '\n' !in cs[i].id
    ensures Split(MainComponent(cs), '\n') == MainHeadLines + TagLines(cs) + MainTailLines
  {
    MainAsLines(cs);
    LayoutLinesHaveNoNewline(cs);
    JoinSplit(MainHeadLines + TagLines(cs) + MainTailLines, '\n');
  }

  lemma MainAsLines(cs: seq<Component>)
    requires cs != []
    ensures MainComponent(cs) == Join(MainHeadLines + TagLines(cs) + MainTailLines, "\n")
  {
    var h := Join(MainHeadLines, "\n");
    var m := Join(TagLines(cs), "\n");
    var t := Join(MainTailLines, "\n");
    TagsIndented(cs);
    assert MainComponent(cs) == (h + "\n" + LayoutIndent) + Join(Tags(cs), "\n      ") + ("\n" + t);
    assert MainComponent(cs) == h + "\n" + m + "\n" + t;
    JoinAppend(MainHeadLines, TagLines(cs), "\n");
    JoinAppend(MainHeadLines + TagLines(cs), MainTailLines, "\n");
  }

  /** The tags joined by a newline and the indent, after a first indent, are the tag lines. */
  lemma TagsIndented(cs: seq<Component>)
    requires cs != []
    ensures LayoutIndent + Join(Tags(cs), "\n      ") == Join(TagLines(cs), "\n")
  {
    JoinIndented(Tags(cs), LayoutIndent, '\n');
    assert ['\n'] + LayoutIndent == "\n      ";
    assert seq(|cs|, i requires 0 <= i < |cs| => LayoutIndent + Tags(cs)[i]) == TagLines(cs);
  }

  lemma LayoutLinesHaveNoNewline(cs: seq<Component>)
    requires forall i :: 0 <= i < |cs| ==> '\n' !in cs[i].id
    ensures var all := MainHeadLines + TagLines(cs) + MainTailLines;
            forall i :: 0 <= i < |all| ==> '\n' !in all[i]
  {
    HeadLinesHaveNoNewline();
    TailLinesHaveNoNewline();
    var all := MainHeadLines + TagLines(cs) + MainTailLines;
    var n := |MainHeadLines|;
    forall i | 0 <= i < |all| ensures '\n' !in all[i] {
      if i < n {
        assert all[i] == MainHeadLines[i];
      } else if i < n + |cs| {
        NoNewlineInTag(cs[i - n]);
        assert all[i] == TagLines(cs)[i - n];
      } else {
        assert all[i] == MainTailLines[i - n - |cs|];
      }
    }
  }

  lemma NoNewlineInTag(c: Component)
    requires '\n' !in c.id
    ensures '\n' !in LayoutIndent + Tag(c)
  {
    RemoveHyphensKeepsOnly(c.id);
    var r := RemoveHyphens(c.id);
    assert '\n' !in r;
    assert Tag(c) == "<" + ("Component" + r) + " />";
  }

  /** `generateJSXCode`: the imports, then the definitions, then the layout. */
  function GenerateJsx(cs: seq<Component>): string {
    Imports + Join(Definitions(cs), "\n") + MainComponent(cs)
  }

  /** The output opens with the imports, defines every component and references every
      component from the layout. */
  lemma GeneratedHasEveryComponent(cs: seq<Component>, i: nat)
    requires i < |cs|
    ensures StartsWith(GenerateJsx(cs), Imports)
    ensures Contains(GenerateJsx(cs), Definition(cs[i]))
    ensures Contains(GenerateJsx(cs), Tag(cs[i]))
  {
    var defs := Join(Definitions(cs), "\n");
    var main := MainComponent(cs);
    JoinContains(Definitions(cs), "\n", i);
    ContainsInFramed(Imports, defs, main, Definition(cs[i]));
    JoinContains(Tags(cs), "\n      ", i);
    ContainsInFramed(MainHead, Join(Tags(cs), "\n      "), MainTail, Tag(cs[i]));
    ContainsInPrefixed(Imports + defs, main, Tag(cs[i]));
    assert (Imports + defs) + main == Imports + defs + main;
  }

  /** An empty canvas still gives the imports and an empty layout. */
  lemma GeneratedForEmpty()
    ensures GenerateJsx([]) == Imports + MainHead + MainTail
  {
    assert Join(Definitions([]), "\n") == "";
    assert Join(Tags([]), "\n      ") == "";
  }

  /** Every prop other than `style`, `className` and `content` becomes an attribute of a
      non-text element, and those three never do. */
  lemma ElementHasEveryOtherProp(c: Component, k: string)
    requires c.kind != "text" && k !in Reserved && Lookup(c.props, k).Some?
    ensures Contains(Element(c), Attr(k, Lookup(c.props, k).value))
    ensures forall j :: 0 <= j < |Without(c.props, Reserved)| ==> Without(c.props, Reserved)[j].0 !in Reserved
  {
    var fs := Without(c.props, Reserved);
    assert Lookup(fs, k) == Lookup(c.props, k);
    var j := LookupIndex(fs, k);
    JoinContains(Attributes(fs), " ", j);
    ContainsInFramed("<" + c.kind + " ", Join(Attributes(fs), " "), " />", Attributes(fs)[j]);
    forall j | 0 <= j < |fs| ensures fs[j].0 !in Reserved {
      ReservedDropped(c.props, j);
    }
  }

  lemma {:induction false} ReservedDropped(fs: Fields, j: nat)
    requires j < |Without(fs, Reserved)|
    ensures Without(fs, Reserved)[j].0 !in Reserved
    decreases |fs|
  {
    if fs[0].0 !in Reserved && j > 0 {
      ReservedDropped(fs[1..], j - 1);
    } else if fs[0].0 in Reserved {
      ReservedDropped(fs[1..], j);
    }
  }

  /** A text component shows `content`, not `children`: changing its children leaves its
      definition unchanged. */
  lemma TextIgnoresChildren(c: Component, v: Json)
    requires c.kind == "text"
    ensures Definition(c.(props := Assign(c.props, "children", v))) == Definition(c)
  {
    var d := c.(props := Assign(c.props, "children", v));
    assert Lookup(d.props, "content") == Lookup(c.props, "content");
    assert Lookup(d.props, "className") == Lookup(c.props, "className");
    assert Lookup(d.props, "style") == Lookup(c.props, "style");
    assert Element(d) == Element(c);
    assert StyleOf(d) == StyleOf(c);
    assert ClassName(d) == ClassName(c);
  }
}
