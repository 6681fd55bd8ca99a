/** JSON-like runtime values: what `JSON.parse` yields and what component records hold. */
module JsValue {
  import opened Outcomes
  import Strings

  /** A JavaScript value that JSON can carry. Objects keep their keys in insertion order,
      because `Object.entries` and template emission depend on that order. */
  datatype Json =
    | Null
    | Bool(b: bool)
    | Num(n: int)
    | Str(s: string)
    | Arr(items: seq<Json>)
    | Obj(fields: Fields)

  /** The own enumerable properties of an object, in order. */
  type Fields = seq<(string, Json)>

  function Keys(fs: Fields): (ks: seq<string>)
    ensures |ks| == |fs|
    decreases |fs|
  {
    if fs == [] then [] else [fs[0].0] + Keys(fs[1..])
  }

  /** No key occurs twice, as in every object a JavaScript engine builds. */
  predicate UniqueKeys(fs: Fields)
    decreases |fs|
  {
    fs == [] || (fs[0].0 !in Keys(fs[1..]) && UniqueKeys(fs[1..]))
  }

  /** Property read `o[k]`; `None` is `undefined`. */
  function Lookup(fs: Fields, k: string): (r: Option<Json>)
    ensures r.Some? <==> k in Keys(fs)
    decreases |fs|
  {
    if fs == [] then None
    else if fs[0].0 == k then Some(fs[0].1)
    else Lookup(fs[1..], k)
  }

  /** A key that is found sits at some position of the entry list. */
  lemma {:induction false} LookupIndex(fs: Fields, k: string) returns (i: nat)
    requires Lookup(fs, k).Some?
    ensures i < |fs| && fs[i] == (k, Lookup(fs, k).value)
    decreases |fs|
  {
    if fs[0].0 == k {
      i := 0;
    } else {
      var j := LookupIndex(fs[1..], k);
      i := j + 1;
    }
  }

  /** Property write `o[k] = v` (and a key written after a spread, `{...o, k: v}`):
      an existing key keeps its position and takes the new value, a new key goes last. */
  function Assign(fs: Fields, k: string, v: Json): (r: Fields)
    ensures Lookup(r, k) == Some(v)
    ensures forall k' :: k' != k ==> Lookup(r, k') == Lookup(fs, k')
    decreases |fs|
  {
    if fs == [] then [(k, v)]
    else if fs[0].0 == k then [(k, v)] + fs[1..]
    else [fs[0]] + Assign(fs[1..], k, v)
  }

  /** Assigning keeps the key order, appends a new key, and keeps keys unique. */
  lemma {:induction false} AssignKeys(fs: Fields, k: string, v: Json)
    ensures k in Keys(fs) ==> Keys(Assign(fs, k, v)) == Keys(fs)
    ensures k !in Keys(fs) ==> Keys(Assign(fs, k, v)) == Keys(fs) + [k]
    ensures UniqueKeys(fs) ==> UniqueKeys(Assign(fs, k, v))
    decreases |fs|
  {
    if fs != [] && fs[0].0 != k {
      AssignKeys(fs[1..], k, v);
      var r := Assign(fs, k, v);
      assert r[1..] == Assign(fs[1..], k, v);
    } else if fs != [] {
      var r := Assign(fs, k, v);
      assert r[1..] == fs[1..];
    }
  }

  /** Object spread `{...fs, ...gs}`: the keys of `gs` are written into `fs` in order. */
  function Spread(fs: Fields, gs: Fields): (r: Fields)
    ensures UniqueKeys(gs) ==>
              forall k :: Lookup(r, k) == if k in Keys(gs) then Lookup(gs, k) else Lookup(fs, k)
    ensures UniqueKeys(fs) ==> UniqueKeys(r)
    decreases |gs|
  {
    if gs == [] then fs
    else
      AssignKeys(fs, gs[0].0, gs[0].1);
      Spread(Assign(fs, gs[0].0, gs[0].1), gs[1..])
  }

  /** The keys of `gs` that `ks` does not hold, in the order of `gs`. */
  function NewKeys(ks: seq<string>, gs: seq<string>): seq<string>
    decreases |gs|
  {
    if gs == [] then [] else (if gs[0] in ks then [] else [gs[0]]) + NewKeys(ks, gs[1..])
  }

  lemma {:induction false} NewKeysSkip(ks: seq<string>, k: string, gs: seq<string>)
    requires k !in gs
    ensures NewKeys(ks + [k], gs) == NewKeys(ks, gs)
    decreases |gs|
  {
    if gs != [] {
      NewKeysSkip(ks, k, gs[1..]);
    }
  }

  /** The key order a spread produces: the keys of `fs` where they were, then the keys only
      `gs` has, in the order of `gs`. */
  lemma {:induction false} SpreadKeys(fs: Fields, gs: Fields)
    ensures UniqueKeys(gs) ==> Keys(Spread(fs, gs)) == Keys(fs) + NewKeys(Keys(fs), Keys(gs))
    decreases |gs|
  {
    if gs != [] && UniqueKeys(gs) {
      var k := gs[0].0;
      var rest := gs[1..];
      var a := Assign(fs, k, gs[0].1);
      assert Spread(fs, gs) == Spread(a, rest);
      assert UniqueKeys(rest) && k !in Keys(rest);
      AssignKeys(fs, k, gs[0].1);
      SpreadKeys(a, rest);
      var ks := Keys(gs);
      assert ks[0] == k && ks[1..] == Keys(rest);
      assert NewKeys(Keys(fs), ks) == (if k in Keys(fs) then [] else [k]) + NewKeys(Keys(fs), Keys(rest));
      if k !in Keys(fs) {
        NewKeysSkip(Keys(fs), k, Keys(rest));
        assert Keys(fs) + [k] + NewKeys(Keys(fs), Keys(rest)) == Keys(fs) + ([k] + NewKeys(Keys(fs), Keys(rest)));
      }
    }
  }

  /** `fs` without the keys in `ks`, order kept: the properties a spread copies that are
      not declared separately. */
  function Without(fs: Fields, ks: seq<string>): (r: Fields)
    ensures forall k :: Lookup(r, k) == if k in ks then None else Lookup(fs, k)
    ensures UniqueKeys(fs) ==> UniqueKeys(r)
    decreases |fs|
  {
    if fs == [] then []
    else if fs[0].0 in ks then Without(fs[1..], ks)
    else [fs[0]] + Without(fs[1..], ks)
  }

  /** Member read through optional chaining, `v?.k` on a value that is not `null`:
      only objects have the properties read here. */
  function Get(v: Json, k: string): Option<Json> {
    if v.Obj? then Lookup(v.fields, k) else None
  }

  /** `o?.k` where `o` may be `undefined` or `null`. */
  function GetOpt(o: Option<Json>, k: string): Option<Json> {
    if o.Some? then Get(o.value, k) else None
  }

  /** What `...v` contributes to an object literal (see README for strings and arrays). */
  function FieldsOf(o: Option<Json>): Fields {
    if o.Some? && o.value.Obj? then o.value.fields else []
  }

  /** JavaScript truthiness. */
  predicate Truthy(v: Json) {
    match v
    case Null => false
    case Bool(b) => b
    case Num(n) => n != 0
    case Str(s) => s != ""
    case Arr(_) => true
    case Obj(_) => true
  }

  /** Truthiness of a possibly-`undefined` value. */
  predicate IsTruthy(o: Option<Json>) {
    o.Some? && Truthy(o.value)
  }

  /** `a || b` where `b` is a value: `a` when it is truthy, else `b`. */
  function OrElse(a: Option<Json>, b: Json): (r: Json)
    ensures IsTruthy(a) ==> Some(r) == a
    ensures !IsTruthy(a) ==> r == b
    ensures Truthy(r) <==> IsTruthy(a) || Truthy(b)
  {
    if IsTruthy(a) then a.value else b
  }

  /** `typeof o === 'string'`. */
  predicate IsString(o: Option<Json>) {
    o.Some? && o.value.Str?
  }

  /** `String(v)`, the conversion a template literal `${v}` applies. */
  function AsString(v: Json): string {
    match v
    case Null => "null"
    case Bool(b) => if b then "true" else "false"
    case Num(n) => Strings.IntToString(n)
    case Str(s) => s
    case Arr(items) =>
      Strings.Join(seq(|items|, i requires 0 <= i < |items| =>
                         if items[i].Null? then "" else AsString(items[i])), ",")
    case Obj(_) => "[object Object]"
  }

  /** `${o}` where `o` may be `undefined`. */
  function AsStringOpt(o: Option<Json>): string {
    if o.Some? then AsString(o.value) else "undefined"
  }
}
