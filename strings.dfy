/** The JavaScript string operations the modelled code relies on, over `seq<char>`. */
module Strings {

  /** `s.indexOf(t) === 0`. */
  predicate StartsWith(s: string, t: string) {
    |t| <= |s| && s[..|t|] == t
  }

  /** `s.indexOf(t) !== -1`: `t` occurs somewhere in `s`. */
  predicate Contains(s: string, t: string)
    decreases |s|
  {
    StartsWith(s, t) || (|s| > 0 && Contains(s[1..], t))
  }

  lemma {:induction false} ContainsInPrefixed(pre: string, s: string, t: string)
    requires Contains(s, t)
    ensures Contains(pre + s, t)
    decreases |pre|
  {
    if pre != [] {
      ContainsInPrefixed(pre[1..], s, t);
      assert (pre + s)[1..] == pre[1..] + s;
    } else {
      assert pre + s == s;
    }
  }

  lemma {:induction false} ContainsInSuffixed(s: string, post: string, t: string)
    requires Contains(s, t)
    ensures Contains(s + post, t)
    decreases |s|
  {
    if StartsWith(s, t) {
      assert (s + post)[..|t|] == s[..|t|];
    } else {
      ContainsInSuffixed(s[1..], post, t);
      assert (s + post)[1..] == s[1..] + post;
    }
  }

  /** A string contains itself wherever it is placed. */
  lemma ContainsInside(pre: string, t: string, post: string)
    ensures Contains(pre + t + post, t)
  {
    assert StartsWith(t + post, t) by { assert (t + post)[..|t|] == t; }
    ContainsInPrefixed(pre, t + post, t);
    assert pre + t + post == pre + (t + post);
  }

  /** What occurs in `s` occurs in `pre + s + post`, which starts with `pre`. */
  lemma ContainsInFramed(pre: string, s: string, post: string, t: string)
    requires Contains(s, t)
    ensures Contains(pre + s + post, t)
    ensures StartsWith(pre + s + post, pre)
  {
    ContainsInSuffixed(s, post, t);
    ContainsInPrefixed(pre, s + post, t);
    assert pre + (s + post) == pre + s + post;
    assert (pre + s + post)[..|pre|] == pre;
  }

  /** `parts.join(sep)`. */
  function Join(parts: seq<string>, sep: string): string
    decreases |parts|
  {
    if |parts| == 0 then ""
    else if |parts| == 1 then parts[0]
    else parts[0] + sep + Join(parts[1..], sep)
  }

  /** Every joined part occurs in the joined string, and the first part starts it. */
  lemma {:induction false} JoinContains(parts: seq<string>, sep: string, i: nat)
    requires i < |parts|
    ensures Contains(Join(parts, sep), parts[i])
    ensures StartsWith(Join(parts, sep), parts[0])
    decreases |parts|
  {
    if |parts| == 1 {
      ContainsInside("", parts[0], "");
      assert "" + parts[0] + "" == parts[0];
    } else {
      var rest := Join(parts[1..], sep);
      assert Join(parts, sep) == parts[0] + (sep + rest);
      assert (parts[0] + (sep + rest))[..|parts[0]|] == parts[0];
      if i == 0 {
        ContainsInside("", parts[0], sep + rest);
        assert "" + parts[0] + (sep + rest) == Join(parts, sep);
      } else {
        JoinContains(parts[1..], sep, i - 1);
        ContainsInPrefixed(parts[0] + sep, rest, parts[i]);
        assert (parts[0] + sep) + rest == Join(parts, sep);
      }
    }
  }

  /** Joining a concatenation: the two joins meet at one separator. */
  lemma {:induction false} JoinAppend(a: seq<string>, b: seq<string>, sep: string)
    requires |a| >= 1 && |b| >= 1
    ensures Join(a + b, sep) == Join(a, sep) + sep + Join(b, sep)
    decreases |a|
  {
    if |a| == 1 {
      assert (a + b)[1..] == b;
    } else {
      JoinAppend(a[1..], b, sep);
      assert (a + b)[1..] == a[1..] + b;
      assert (a + b)[0] == a[0];
    }
  }

  /** A separator that is a character followed by an indent puts the indent at the head of
      every piece after the first; adding it before the first gives every piece its indent. */
  lemma {:induction false} JoinIndented(ts: seq<string>, w: string, c: char)
    requires |ts| >= 1
    ensures w + Join(ts, [c] + w) == Join(seq(|ts|, i requires 0 <= i < |ts| => w + ts[i]), [c])
    decreases |ts|
  {
    var ws := seq(|ts|, i requires 0 <= i < |ts| => w + ts[i]);
    if |ts| > 1 {
      JoinIndented(ts[1..], w, c);
      var ws' := seq(|ts| - 1, i requires 0 <= i < |ts| - 1 => w + ts[1..][i]);
      assert ws[1..] == ws';
      assert w + Join(ts, [c] + w) == (w + ts[0]) + [c] + (w + Join(ts[1..], [c] + w));
    }
  }

  /** `s.split(c)` for a one-character separator. */
  function Split(s: string, c: char): (parts: seq<string>)
    ensures |parts| >= 1
    decreases |s|
  {
    if s == [] then [""]
    else
      var rest := Split(s[1..], c);
      if s[0] == c then [""] + rest else [[s[0]] + rest[0]] + rest[1..]
  }

  lemma JoinConsHead(x: string, y: string, ys: seq<string>, sep: string)
    ensures Join([x + y] + ys, sep) == x + Join([y] + ys, sep)
  {
    if ys != [] {
      assert ([x + y] + ys)[1..] == ys && ([y] + ys)[1..] == ys;
    }
  }

  /** Splitting loses nothing: joining the pieces with the separator gives the input back,
      and no piece holds the separator. */
  lemma {:induction false} SplitJoin(s: string, c: char)
    ensures Join(Split(s, c), [c]) == s
    ensures forall i :: 0 <= i < |Split(s, c)| ==> c !in Split(s, c)[i]
    decreases |s|
  {
    if s != [] {
      SplitJoin(s[1..], c);
      var rest := Split(s[1..], c);
      assert s == [s[0]] + s[1..];
      if s[0] == c {
        assert ([""] + rest)[1..] == rest;
        assert Join([""] + rest, [c]) == "" + [c] + Join(rest, [c]);
      } else {
        JoinConsHead([s[0]], rest[0], rest[1..], [c]);
        assert [rest[0]] + rest[1..] == rest;
        var parts := Split(s, c);
        forall i | 0 <= i < |parts| ensures c !in parts[i] {
          if i > 0 { assert parts[i] == rest[i]; }
        }
      }
    }
  }

  lemma {:induction false} SplitWithout(x: string, c: char)
    requires c !in x
    ensures Split(x, c) == [x]
    decreases |x|
  {
    if x != [] {
      SplitWithout(x[1..], c);
      assert [x[0]] + x[1..] == x;
    }
  }

  lemma {:induction false} SplitAfterPiece(x: string, c: char, y: string)
    requires c !in x
    ensures Split(x + [c] + y, c) == [x] + Split(y, c)
    decreases |x|
  {
    if x == [] {
      assert (x + [c] + y)[1..] == y;
    } else {
      SplitAfterPiece(x[1..], c, y);
      assert (x + [c] + y)[1..] == x[1..] + [c] + y;
      assert [x[0]] + x[1..] == x;
    }
  }

  /** Joining pieces that do not hold the separator and splitting again gives the pieces back. */
  lemma {:induction false} JoinSplit(parts: seq<string>, c: char)
    requires |parts| >= 1
    requires forall i :: 0 <= i < |parts| ==> c !in parts[i]
    ensures Split(Join(parts, [c]), c) == parts
    decreases |parts|
  {
    if |parts| == 1 {
      SplitWithout(parts[0], c);
    } else {
      JoinSplit(parts[1..], c);
      SplitAfterPiece(parts[0], c, Join(parts[1..], [c]));
      assert [parts[0]] + parts[1..] == parts;
    }
  }

  /** A string of `n` spaces, `' '.repeat(n)` for `n >= 0`. */
  function Spaces(n: nat): (r: string)
    ensures |r| == n && forall i :: 0 <= i < n ==> r[i] == ' '
  {
    seq(n, _ => ' ')
  }

  /** The characters `String.prototype.trim` removes: ECMAScript WhiteSpace and LineTerminator. */
  predicate IsWhitespace(c: char) {
    c == '\t' || c == '\n' || c == '\U{000B}' || c == '\U{000C}' || c == '\r' || c == ' '
    || c == '\U{00A0}' || c == '\U{1680}' || ('\U{2000}' <= c <= '\U{200A}')
    || c == '\U{2028}' || c == '\U{2029}' || c == '\U{202F}' || c == '\U{205F}'
    || c == '\U{3000}' || c == '\U{FEFF}'
  }

  predicate AllWhitespace(s: string) {
    forall i :: 0 <= i < |s| ==> IsWhitespace(s[i])
  }

  /** Drops leading whitespace. */
  function TrimStart(s: string): (r: string)
    ensures |r| <= |s|
    decreases |s|
  {
    if |s| > 0 && IsWhitespace(s[0]) then TrimStart(s[1..]) else s
  }

  /** The result is a suffix of `s`, the dropped prefix is all whitespace, and the result does
      not start with whitespace. */
  lemma {:induction false} TrimStartSpec(s: string)
    ensures TrimStart(s) == s[|s| - |TrimStart(s)|..]
    ensures AllWhitespace(s[..|s| - |TrimStart(s)|])
    ensures TrimStart(s) != [] ==> !IsWhitespace(TrimStart(s)[0])
    decreases |s|
  {
    if |s| > 0 && IsWhitespace(s[0]) {
      var t := s[1..];
      TrimStartSpec(t);
      var n := |s| - |TrimStart(s)|;
      assert t[|t| - |TrimStart(t)|..] == s[n..];
      forall j | 0 <= j < n ensures IsWhitespace(s[..n][j]) {
        if j > 0 {
          assert s[..n][j] == t[..n - 1][j - 1];
        }
      }
    }
  }

  /** Drops trailing whitespace. */
  function TrimEnd(s: string): (r: string)
    ensures |r| <= |s|
    decreases |s|
  {
    if |s| > 0 && IsWhitespace(s[|s| - 1]) then TrimEnd(s[..|s| - 1]) else s
  }

  /** The result is a prefix of `s`, the dropped suffix is all whitespace, and the result does
      not end with whitespace. */
  lemma {:induction false} TrimEndSpec(s: string)
    ensures TrimEnd(s) == s[..|TrimEnd(s)|]
    ensures AllWhitespace(s[|TrimEnd(s)|..])
    ensures TrimEnd(s) != [] ==> !IsWhitespace(TrimEnd(s)[|TrimEnd(s)| - 1])
    decreases |s|
  {
    if |s| > 0 && IsWhitespace(s[|s| - 1]) {
      var p := s[..|s| - 1];
      TrimEndSpec(p);
      var n := |TrimEnd(s)|;
      assert p[..n] == s[..n];
      forall j | 0 <= j < |s| - n ensures IsWhitespace(s[n..][j]) {
        if j < |p| - n {
          assert s[n..][j] == p[n..][j];
        }
      }
    }
  }

  /** `s.trim()`. */
  function Trim(s: string): string {
    TrimEnd(TrimStart(s))
  }

  /** Trimming keeps a slice of `s` with only whitespace outside it and none at either end. */
  lemma TrimSpec(s: string)
    ensures var r := Trim(s);
            && (exists i :: 0 <= i <= i + |r| <= |s| && r == s[i..i + |r|]
                           && AllWhitespace(s[..i]) && AllWhitespace(s[i + |r|..]))
            && (r != [] ==> !IsWhitespace(r[0]) && !IsWhitespace(r[|r| - 1]))
  {
    var t := TrimStart(s);
    var r := TrimEnd(t);
    TrimStartSpec(s);
    TrimEndSpec(t);
    var i := |s| - |t|;
    assert r == s[i..i + |r|];
    assert s[i + |r|..] == t[|r|..];
    if r != [] {
      assert r[0] == t[0];
    }
  }

  function DigitChar(d: nat): char
    requires d < 10
  {
    "0123456789"[d]
  }

  /** Decimal notation of a natural number, as `String(n)` writes it. */
  function NatToString(n: nat): (r: string)
    ensures |r| > 0
    decreases n
  {
    if n < 10 then [DigitChar(n)] else NatToString(n / 10) + [DigitChar(n % 10)]
  }

  function IntToString(n: int): string {
    if n < 0 then "-" + NatToString(-n) else NatToString(n)
  }

  predicate IsUpperAscii(c: char) {
    'A' <= c <= 'Z'
  }

  /** `toLowerCase` restricted to ASCII letters; other characters are kept. */
  function ToLowerChar(c: char): (r: char)
    ensures !IsUpperAscii(r)
    ensures IsUpperAscii(c) ==> r as int == c as int + 32
    ensures !IsUpperAscii(c) ==> r == c
  {
    if IsUpperAscii(c) then (c as int + 32) as char else c
  }

  function ToLower(s: string): (r: string)
    ensures |r| == |s| && forall i :: 0 <= i < |s| ==> r[i] == ToLowerChar(s[i])
  {
    seq(|s|, i requires 0 <= i < |s| => ToLowerChar(s[i]))
  }
}
