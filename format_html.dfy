/** The HTML formatting endpoint: a naive indenter over the pieces between `<` characters,
    and the request handler that falls back to the raw input when the indenter throws. */
module FormatHtml {
  import opened Outcomes
  import opened JsValue
  import opened Strings

  /** `' '.repeat(n)`, which throws a RangeError for a negative count. */
  datatype FormatError = InvalidCount

  function RepeatSpace(n: int): Result<string, FormatError> {
    if n < 0 then Err(InvalidCount) else Ok(Spaces(n))
  }

  /** `part.indexOf('</') === 0`: a closing tag, which steps the indent back before it is written. */
  predicate IsClosing(part: string) {
    StartsWith(part, "</")
  }

  /** The test after emission: indent grows unless the piece looks self-closing or closing. */
  predicate OpensLevel(part: string) {
    StartsWith(part, "<") && !Contains(part, "/>") && !Contains(part, "</") && !Contains(part, "<br")
    && !Contains(part, "<img") && !Contains(part, "<input") && !Contains(part, "<meta")
    && !Contains(part, "<link") && !Contains(part, "<hr")
  }

  function PrependOk(pre: string, r: Result<string, FormatError>): Result<string, FormatError> {
    match r
    case Ok(s) => Ok(pre + s)
    case Err(e) => Err(e)
  }

  lemma PrependAssoc(a: string, b: string, r: Result<string, FormatError>)
    ensures PrependOk(a, PrependOk(b, r)) == PrependOk(a + b, r)
    ensures PrependOk("", r) == r
  {
    if r.Ok? {
      assert a + (b + r.value) == (a + b) + r.value;
      assert "" + r.value == r.value;
    }
  }

  /** What the loop appends for `parts`, starting at indent `indent`: empty pieces are
      skipped; each other piece is written as a newline, twice the indent in spaces, `<`
      and the piece. */
  function Layout(parts: seq<string>, indent: int): Result<string, FormatError>
    decreases |parts|
  {
    if parts == [] then Ok("")
    else if |parts[0]| == 0 then Layout(parts[1..], indent)
    else
      var part := "<" + parts[0];
      var ind := if IsClosing(part) then indent - 1 else indent;
      match RepeatSpace(ind * 2)
      case Err(e) => Err(e)
      case Ok(pad) =>
        PrependOk("\n" + pad + part, Layout(parts[1..], if OpensLevel(part) then ind + 1 else ind))
  }

  lemma LayoutStep(ps: seq<string>, indent: int)
    requires ps != [] && |ps[0]| > 0
    ensures var part := "<" + ps[0];
            var ind := if IsClosing(part) then indent - 1 else indent;
            && (ind < 0 ==> Layout(ps, indent) == Err(InvalidCount))
            && (ind >= 0 ==>
                  Layout(ps, indent) == PrependOk("\n" + Spaces(ind * 2) + part, Layout(ps[1..], if OpensLevel(part) then ind + 1 else ind)))
  {
  }

  /** `formatHTML` as a value: the trimmed layout, or the error `repeat` throws. */
  function FormatSpec(html: string): Result<string, FormatError> {
    match Layout(Split(html, '<'), 0)
    case Ok(s) => Ok(Trim(s))
    case Err(e) => Err(e)
  }

  /** `formatHTML`: the loop over the pieces with the `formatted` string and the `indent` counter. */
  method FormatHTML(html: string) returns (r: Result<string, FormatError>)
    ensures r == FormatSpec(html)
  {
    var formatted := "";
    var indent := 0;
    var parts := Split(html, '<');
    var i := 0;
    assert parts[0..] == parts;
    PrependAssoc("", "", Layout(parts, 0));
    while i < |parts|
      invariant 0 <= i <= |parts|
      invariant Layout(parts, 0) == PrependOk(formatted, Layout(parts[i..], indent))
    {
      assert parts[i..][1..] == parts[i + 1..] && parts[i..][0] == parts[i];
      if |parts[i]| == 0 {
        i := i + 1;
        continue;
      }
      var part := "<" + parts[i];
      LayoutStep(parts[i..], indent);
      if IsClosing(part) {
        indent := indent - 1;
      }
      var pad := RepeatSpace(indent * 2);
      if pad.Err? {
        assert Layout(parts, 0) == Err(InvalidCount);
        return Err(pad.error);
      }
      var line := "\n" + pad.value + part;
      PrependAssoc(formatted, line, Layout(parts[i + 1..], if OpensLevel(part) then indent + 1 else indent));
      formatted := formatted + line;
      if OpensLevel(part) {
        indent := indent + 1;
      }
      i := i + 1;
    }
    assert parts[i..] == [];
    assert formatted + "" == formatted;
    assert Layout(parts, 0) == Ok(formatted);
    return Ok(Trim(formatted));
  }

  // ---- when the indenter throws ----

  /** A closing piece's `<` + piece starts with `</`; it is never an opening piece. */
  function CloseBit(p: string): nat {
    if p != "" && IsClosing("<" + p) then 1 else 0
  }

  function OpenBit(p: string): nat {
    if p != "" && OpensLevel("<" + p) then 1 else 0
  }

  function Closes(ps: seq<string>): nat
    decreases |ps|
  {
    if ps == [] then 0 else CloseBit(ps[0]) + Closes(ps[1..])
  }

  function Opens(ps: seq<string>): nat
    decreases |ps|
  {
    if ps == [] then 0 else OpenBit(ps[0]) + Opens(ps[1..])
  }

  /** No prefix of the pieces closes more levels than the starting indent plus the openings before it. */
  ghost predicate NeverOverClosed(ps: seq<string>, k: int) {
    forall j :: 0 <= j < |ps| ==> Closes(ps[..j + 1]) <= k + Opens(ps[..j])
  }

  lemma ClosingNeverOpens(p: string)
    ensures CloseBit(p) == 1 ==> OpenBit(p) == 0
  {
    if CloseBit(p) == 1 {
      var part := "<" + p;
      assert StartsWith(part, "</");
    }
  }

  lemma PrefixCounts(ps: seq<string>, j: nat)
    requires 0 < j <= |ps|
    ensures Closes(ps[..j]) == CloseBit(ps[0]) + Closes(ps[1..][..j - 1])
    ensures Opens(ps[..j]) == OpenBit(ps[0]) + Opens(ps[1..][..j - 1])
  {
    assert ps[..j][1..] == ps[1..][..j - 1];
  }

  lemma NeverOverClosedStep(ps: seq<string>, k: int)
    requires ps != []
    ensures NeverOverClosed(ps, k) <==>
              CloseBit(ps[0]) <= k
              && NeverOverClosed(ps[1..], k + OpenBit(ps[0]) - CloseBit(ps[0]))
  {
    var k' := k + OpenBit(ps[0]) - CloseBit(ps[0]);
    PrefixCounts(ps, 1);
    assert Closes(ps[..1]) == CloseBit(ps[0]) && Opens(ps[..0]) == 0;
    forall j | 1 <= j < |ps|
      ensures (Closes(ps[..j + 1]) <= k + Opens(ps[..j])) <==>
              (Closes(ps[1..][..j]) <= k' + Opens(ps[1..][..j - 1]))
    {
      PrefixCounts(ps, j + 1);
      PrefixCounts(ps, j);
    }
    if NeverOverClosed(ps, k) {
      forall j | 0 <= j < |ps[1..]| ensures Closes(ps[1..][..j + 1]) <= k' + Opens(ps[1..][..j]) {
        assert Closes(ps[..j + 2]) <= k + Opens(ps[..j + 1]);
      }
    }
    if CloseBit(ps[0]) <= k && NeverOverClosed(ps[1..], k') {
      forall j | 0 <= j < |ps| ensures Closes(ps[..j + 1]) <= k + Opens(ps[..j]) {
        if j > 0 {
          assert Closes(ps[1..][..j]) <= k' + Opens(ps[1..][..j - 1]);
        }
      }
    }
  }

  /** The indenter succeeds exactly when no prefix of the input has more closing tags than
      opening ones plus the starting indent; otherwise the indent goes negative and `repeat` throws. */
  lemma {:induction false} LayoutSucceedsIff(ps: seq<string>, k: int)
    requires k >= 0
    ensures Layout(ps, k).Ok? <==> NeverOverClosed(ps, k)
    decreases |ps|
  {
    if ps != [] {
      var p := ps[0];
      NeverOverClosedStep(ps, k);
      ClosingNeverOpens(p);
      if |p| == 0 {
        LayoutSucceedsIff(ps[1..], k);
      } else {
        var part := "<" + p;
        var ind := if IsClosing(part) then k - 1 else k;
        if ind >= 0 {
          LayoutSucceedsIff(ps[1..], if OpensLevel(part) then ind + 1 else ind);
        }
      }
    }
  }

  /** Whole-input form: formatting throws exactly when some prefix closes more tags than it opened. */
  lemma FormatFailsIff(html: string)
    ensures FormatSpec(html).Err? <==> !NeverOverClosed(Split(html, '<'), 0)
  {
    LayoutSucceedsIff(Split(html, '<'), 0);
  }

  // ---- the shape of a successful result ----

  lemma TrimStartSkips(w: string, t: string)
    requires AllWhitespace(w) && t != [] && !IsWhitespace(t[0])
    ensures TrimStart(w + t) == t
    decreases |w|
  {
    if w != [] {
      assert (w + t)[1..] == w[1..] + t;
      TrimStartSkips(w[1..], t);
    } else {
      assert w + t == t;
    }
  }

  /** Run from indent 0, the first piece written is not indented. */
  lemma {:induction false} LayoutFirstLine(ps: seq<string>)
    requires Layout(ps, 0).Ok? && Layout(ps, 0).value != ""
    ensures |Layout(ps, 0).value| >= 2 && Layout(ps, 0).value[0] == '\n' && Layout(ps, 0).value[1] == '<'
    decreases |ps|
  {
    if |ps[0]| == 0 {
      LayoutFirstLine(ps[1..]);
    } else {
      var part := "<" + ps[0];
      assert !IsClosing(part);
      var rest := Layout(ps[1..], if OpensLevel(part) then 1 else 0);
      assert Layout(ps, 0).value == "\n" + "" + part + rest.value;
      assert part[0] == '<';
    }
  }

  /** A successful, non-empty result starts with `<`: whatever precedes the first `<` in the
      input is written as if it were a tag. */
  lemma FormattedStartsWithLt(html: string)
    requires FormatSpec(html).Ok? && FormatSpec(html).value != ""
    ensures FormatSpec(html).value[0] == '<'
  {
    var s := Layout(Split(html, '<'), 0).value;
    assert Trim(s) == FormatSpec(html).value;
    LayoutFirstLine(Split(html, '<'));
    TrimAfterNewline(s);
  }

  lemma TrimAfterNewline(s: string)
    requires |s| >= 2 && s[0] == '\n' && s[1] == '<'
    ensures Trim(s) != [] && Trim(s)[0] == '<'
  {
    var t := s[1..];
    assert s == "\n" + t;
    TrimStartSkips("\n", t);
    TrimEndKeepsFirst(t);
    assert Trim(s) == TrimEnd(TrimStart(s));
  }

  lemma TrimEndKeepsFirst(t: string)
    requires t != [] && !IsWhitespace(t[0])
    ensures TrimEnd(t) != [] && TrimEnd(t)[0] == t[0]
    decreases |t|
  {
    if IsWhitespace(t[|t| - 1]) {
      TrimEndKeepsFirst(t[..|t| - 1]);
    }
  }

  /** Text without tags and without a leading `/` gains a leading `<`: the whole input is one
      piece, written at indent 0 and then trimmed. */
  lemma TextGainsLt(t: string)
    requires '<' !in t && t != "" && t[0] != '/'
    ensures FormatSpec(t) == Ok(TrimEnd("<" + t))
  {
    SplitWithout(t, '<');
    OnePieceLayout(t);
    TrimAfterLineBreak("<" + t);
  }

  lemma OnePieceLayout(p: string)
    requires p != "" && p[0] != '/'
    ensures Layout([p], 0) == Ok("\n" + ("<" + p))
  {
    var part := "<" + p;
    assert part[1] == p[0];
    assert !IsClosing(part);
    assert [p][0] == p && [p][1..] == [];
    var rest := Layout([p][1..], if OpensLevel(part) then 1 else 0);
    assert rest == Ok("");
    assert Layout([p], 0) == PrependOk("\n" + Spaces(0) + part, rest);
    assert "\n" + Spaces(0) + part + "" == "\n" + part;
  }

  lemma TrimAfterLineBreak(part: string)
    requires part != [] && part[0] == '<'
    ensures Trim("\n" + part) == TrimEnd(part)
  {
    TrimStartSkips("\n", part);
  }

  /** Input starting with `/` is taken for a closing tag before anything is open: its first
      piece drives the indent to -1 and `repeat` throws. */
  lemma LeadingSlashThrows(t: string)
    requires t != "" && t[0] == '/'
    ensures FormatSpec(t) == Err(InvalidCount)
  {
    var ps := Split(t, '<');
    assert ps[0] == [t[0]] + Split(t[1..], '<')[0];
    var part := "<" + ps[0];
    assert part[..2] == "</";
    assert IsClosing(part);
    LayoutStep(ps, 0);
  }

  /** A closing tag with nothing open drives the indent to -1, and `repeat` throws. */
  lemma StrayCloseThrows()
    ensures FormatSpec("</p>") == Err(InvalidCount)
  {
    SplitStrayClose();
    assert ["", "/p>"][1..] == ["/p>"];
    assert "<" + "/p>" == "</p>";
    assert IsClosing("</p>");
    LayoutStep(["/p>"], 0);
  }

  lemma SplitStrayClose()
    ensures Split("</p>", '<') == ["", "/p>"]
  {
    assert "</p>"[1..] == "/p>" && "/p>"[1..] == "p>" && "p>"[1..] == ">" && ">"[1..] == "";
    assert Split("", '<') == [""];
    assert ['>'] + "" == ">" && ['p'] + ">" == "p>" && ['/'] + "p>" == "/p>";
    assert Split(">", '<') == [">"];
    assert Split("p>", '<') == ["p>"];
    assert Split("/p>", '<') == ["/p>"];
  }

  // ---- the request handler ----

  datatype Response =
    | Formatted(formattedHtml: Json)  // 200
    | BadRequest(error: string)       // 400
    | ServerError(error: string)      // 500

  function Status(r: Response): int {
    match r
    case Formatted(_) => 200
    case BadRequest(_) => 400
    case ServerError(_) => 500
  }

  /** `POST`. `body` is the parsed request body, `None` when it is not JSON. */
  method Post(body: Option<Json>) returns (r: Response)
    ensures body.None? ==> r == BadRequest("Invalid JSON in request body")
    // destructuring `null` throws, which the outer handler turns into a 500
    ensures body == Some(Null) ==> r == ServerError("Failed to format HTML")
    ensures body.Some? && body.value != Null && !IsTruthy(Get(body.value, "rawHtml")) ==>
              r == BadRequest("Raw HTML content is required")
    ensures body.Some? && IsTruthy(Get(body.value, "rawHtml")) ==>
              var raw := Get(body.value, "rawHtml").value;
              r == Formatted(if raw.Str? && FormatSpec(raw.s).Ok? then Str(FormatSpec(raw.s).value) else raw)
    ensures Status(r) == 400 <==> body.None? || (body.value != Null && !IsTruthy(Get(body.value, "rawHtml")))
  {
    if body.None? {
      return BadRequest("Invalid JSON in request body");
    }
    if body.value == Null {
      return ServerError("Failed to format HTML");
    }
    var rawHtml := Get(body.value, "rawHtml");
    if !IsTruthy(rawHtml) {
      return BadRequest("Raw HTML content is required");
    }
    var formattedHtml := rawHtml.value;
    if rawHtml.value.Str? {
      var f := FormatHTML(rawHtml.value.s);
      if f.Ok? {
        formattedHtml := Str(f.value);
      }
    }
    // a non-string `rawHtml` has no `split`: the TypeError is caught and the raw value returned
    return Formatted(formattedHtml);
  }
}
