/**
  The string helpers behind API requests: field names in snake case, endpoint paths with
  `{reference}` components, and the `k=v&…` query string.
 */
module Endpoints {
  import opened Common

  // ---------------------------------------------------------------------------
  // toSnakeCase

  /** `Char.isUpperCase`, for the Latin letters. */
  predicate IsUpper(c: char) {
    'A' <= c <= 'Z'
  }

  /** `Char.isLowerCase`, for the Latin letters. */
  predicate IsLower(c: char) {
    'a' <= c <= 'z'
  }

  /** `Char.lowercaseChar`. */
  function Lower(c: char): (r: char)
    ensures IsUpper(c) ==> IsLower(r)
    ensures !IsUpper(c) ==> r == c
  {
    if IsUpper(c) then (c as int - 'A' as int + 'a' as int) as char else c
  }

  /** Whether position `i` starts a new word: an upper-case letter right after a lower-case one. */
  predicate Boundary(s: string, i: nat)
    requires i < |s|
  {
    i > 0 && IsUpper(s[i]) && IsLower(s[i - 1])
  }

  /** What the character at `i` becomes: a separator first at a boundary, and its lower case. */
  function Piece(s: string, i: nat): string
    requires i < |s|
  {
    (if Boundary(s, i) then "_" else "") + [Lower(s[i])]
  }

  /** The snake-case text of the first `n` characters. */
  function SnakeOf(s: string, n: nat): string
    requires n <= |s|
  {
    if n == 0 then "" else SnakeOf(s, n - 1) + Piece(s, n - 1)
  }

  function SnakeCase(s: string): string {
    SnakeOf(s, |s|)
  }

  /** `String.toSnakeCase()`, appending to a builder as it walks the indices. */
  method ToSnakeCase(s: string) returns (r: string)
    ensures r == SnakeCase(s)
  {
    var result: string := "";
    for i := 0 to |s|
      invariant result == SnakeOf(s, i)
    {
      var c := s[i];
      if IsUpper(c) {
        if i > 0 && IsLower(s[i - 1]) {
          result := result + "_";
        }
        result := result + [Lower(c)];
      } else {
        result := result + [c];
      }
    }
    r := result;
  }

  /** The number of boundaries among the first `n` characters. */
  function Boundaries(s: string, n: nat): nat
    requires n <= |s|
  {
    if n == 0 then 0 else Boundaries(s, n - 1) + (if Boundary(s, n - 1) then 1 else 0)
  }

  predicate NoUpper(s: string) {
    forall i :: 0 <= i < |s| ==> !IsUpper(s[i])
  }

  /** Each boundary adds one separator; nothing else changes the length. */
  lemma {:induction false} SnakeCaseLength(s: string, n: nat)
    requires n <= |s|
    ensures |SnakeOf(s, n)| == n + Boundaries(s, n)
  {
    if n > 0 {
      SnakeCaseLength(s, n - 1);
    }
  }

  /** The result has no upper-case letter. */
  lemma {:induction false} SnakeCaseNoUpper(s: string, n: nat)
    requires n <= |s|
    ensures NoUpper(SnakeOf(s, n))
  {
    if n > 0 {
      SnakeCaseNoUpper(s, n - 1);
      var a := SnakeOf(s, n - 1);
      var b := Piece(s, n - 1);
      assert forall i :: 0 <= i < |b| ==> !IsUpper(b[i]);
      assert forall i :: 0 <= i < |a + b| ==> (a + b)[i] == if i < |a| then a[i] else b[i - |a|];
    }
  }

  /** A text with no upper-case letter is left as it is. */
  lemma {:induction false} SnakeCaseIdentity(s: string, n: nat)
    requires n <= |s| && NoUpper(s)
    ensures SnakeOf(s, n) == s[..n]
  {
    if n > 0 {
      SnakeCaseIdentity(s, n - 1);
      assert s[..n] == s[..n - 1] + [s[n - 1]];
    }
  }

  /** Converting twice is converting once. */
  lemma SnakeCaseIdempotent(s: string)
    ensures SnakeCase(SnakeCase(s)) == SnakeCase(s)
  {
    var t := SnakeCase(s);
    SnakeCaseNoUpper(s, |s|);
    SnakeCaseIdentity(t, |t|);
    assert t[..|t|] == t;
  }

  /** `"aB"` becomes `"a_b"`; consecutive capitals get no separator between them. */
  lemma SnakeCaseExamples()
    ensures SnakeCase("aB") == "a_b"
    ensures SnakeCase("AB") == "ab"
  {
    assert SnakeOf("aB", 1) == "a";
    assert Boundary("aB", 1);
    assert SnakeOf("AB", 1) == "a";
    assert !Boundary("AB", 1);
  }

  // ---------------------------------------------------------------------------
  // split and joinToString

  /** `split(sep)`: the pieces between separators, empty ones included; never an empty list. */
  function Split(s: string, sep: char): (r: seq<string>)
    ensures |r| >= 1
    ensures forall k :: 0 <= k < |r| ==> sep !in r[k]
  {
    if s == [] then [""]
    else if s[0] == sep then [""] + Split(s[1..], sep)
    else
      var rest := Split(s[1..], sep);
      [[s[0]] + rest[0]] + rest[1..]
  }

  /** `joinToString(sep)`. */
  function Join(xs: seq<string>, sep: char): string {
    if xs == [] then ""
    else if |xs| == 1 then xs[0]
    else xs[0] + [sep] + Join(xs[1..], sep)
  }

  /** Joining the pieces gives the text back. */
  lemma {:induction false} JoinSplit(s: string, sep: char)
    ensures Join(Split(s, sep), sep) == s
  {
    if s != [] {
      JoinSplit(s[1..], sep);
      var rest := Split(s[1..], sep);
      if s[0] != sep {
        var r := Split(s, sep);
        assert r[1..] == rest[1..];
        if |rest| > 1 {
          assert rest == [rest[0]] + rest[1..];
        }
      }
    }
  }

  lemma {:induction false} SplitPrepend(c: char, s: string, sep: char)
    requires c != sep
    ensures Split([c] + s, sep) == [[c] + Split(s, sep)[0]] + Split(s, sep)[1..]
  {
    assert ([c] + s)[1..] == s;
  }

  /** Splitting a joined list gives the list back, when no item holds the separator. */
  lemma {:induction false} SplitJoin(xs: seq<string>, sep: char)
    requires |xs| >= 1
    requires forall k :: 0 <= k < |xs| ==> sep !in xs[k]
    ensures Split(Join(xs, sep), sep) == xs
    decreases |xs|, |xs[0]|
  {
    var x := xs[0];
    if x == [] {
      if |xs| > 1 {
        SplitJoin(xs[1..], sep);
        assert Join(xs, sep) == [sep] + Join(xs[1..], sep);
        assert ([sep] + Join(xs[1..], sep))[1..] == Join(xs[1..], sep);
        assert [""] + xs[1..] == xs;
      }
    } else {
      var ys := [x[1..]] + xs[1..];
      assert forall k :: 0 <= k < |ys| ==> sep !in ys[k] by {
        assert forall c :: c in x[1..] ==> c in x;
      }
      SplitJoin(ys, sep);
      assert ys[1..] == xs[1..];
      assert Join(xs, sep) == [x[0]] + Join(ys, sep) by {
        assert x == [x[0]] + x[1..];
      }
      SplitPrepend(x[0], Join(ys, sep), sep);
      assert [x[0]] + x[1..] == x;
    }
  }

  // ---------------------------------------------------------------------------
  // Endpoint paths

  /** A path component: a `{reference}` to a request member, or raw text. */
  datatype EndpointComponent = Ref(ref: string) | Raw(str: string)

  /** Whether `removeSurrounding("{", "}")` strips anything. */
  predicate Surrounded(p: string) {
    |p| >= 2 && p[0] == '{' && p[|p| - 1] == '}'
  }

  /** One piece of the path: `{inner}` is a reference to `inner`, anything else raw text. */
  function Component(p: string): (c: EndpointComponent)
    ensures c.Ref? <==> Surrounded(p)
    ensures c.Ref? ==> p == "{" + c.ref + "}"
    ensures c.Raw? ==> c.str == p
  {
    if Surrounded(p) then Ref(p[1..|p| - 1]) else Raw(p)
  }

  /** `parseEndpointPath(path)`: nothing for the empty path, otherwise one component per piece. */
  function ParseEndpointPath(path: string): (r: seq<EndpointComponent>)
    ensures path == "" ==> r == []
    ensures path != "" ==> (|r| == |Split(path, '/')|
      && forall k :: 0 <= k < |r| ==> r[k] == Component(Split(path, '/')[k]))
  {
    if path == "" then []
    else
      var pieces := Split(path, '/');
      seq(|pieces|, k requires 0 <= k < |pieces| => Component(pieces[k]))
  }

  /** The text `rebuild` emits for one component. */
  function Emit(c: EndpointComponent, provider: string -> string): string {
    match c
    case Raw(str) => str
    case Ref(ref) => provider(ref)
  }

  /** `EndpointComponent.rebuild(path, provider)`. */
  function Rebuild(path: seq<EndpointComponent>, provider: string -> string): (r: string)
    ensures path == [] ==> r == ""
  {
    Join(seq(|path|, k requires 0 <= k < |path| => Emit(path[k], provider)), '/')
  }

  /** Writing each reference back in braces rebuilds the path it was parsed from. */
  lemma RebuildParse(path: string)
    ensures Rebuild(ParseEndpointPath(path), (r: string) => "{" + r + "}") == path
  {
    if path != "" {
      var pieces := Split(path, '/');
      var comps := ParseEndpointPath(path);
      var texts := seq(|comps|, k requires 0 <= k < |comps| => Emit(comps[k], (r: string) => "{" + r + "}"));
      assert texts == pieces;
      JoinSplit(path, '/');
    }
  }

  /** A request member's value as `serialize` sees it. */
  datatype Scalar = Number(n: int) | Bool(z: bool) | EnumConst(name: string) | Text(s: string)

  datatype BodyType = Url | Json

  predicate AllDigits(s: string) {
    forall k :: 0 <= k < |s| ==> '0' <= s[k] <= '9'
  }

  /** The decimal digits of a natural number. */
  function Digits(n: nat): (r: string)
    ensures |r| >= 1 && AllDigits(r)
  {
    var d := ['0' + (n % 10) as char];
    if n < 10 then d else Digits(n / 10) + d
  }

  /** `toString` of an integer: a minus sign for a negative number, then its digits. */
  function DecimalText(n: int): string {
    if n < 0 then "-" + Digits(-n) else Digits(n)
  }

  /** The value of a non-empty digit string. */
  function DigitsValue(s: string): nat
    requires |s| >= 1 && AllDigits(s)
  {
    var d := (s[|s| - 1] - '0') as nat;
    if |s| == 1 then d else DigitsValue(s[..|s| - 1]) * 10 + d
  }

  /** Reading a decimal text back, the way the server does. */
  function ParseDecimal(s: string): Option<int> {
    if |s| >= 2 && s[0] == '-' && AllDigits(s[1..]) then
      var v: int := DigitsValue(s[1..]);
      Some(-v)
    else if |s| >= 1 && AllDigits(s) then Some(DigitsValue(s))
    else None
  }

  lemma {:induction false} DigitsValueOfDigits(n: nat)
    ensures DigitsValue(Digits(n)) == n
  {
    if n >= 10 {
      DigitsValueOfDigits(n / 10);
      var s := Digits(n);
      assert s[..|s| - 1] == Digits(n / 10);
    }
  }

  /** The decimal text of every integer reads back as that integer. */
  lemma DecimalRoundTrip(n: int)
    ensures ParseDecimal(DecimalText(n)) == Some(n)
  {
    if n < 0 {
      NegativeRoundTrip(-n);
    } else {
      DigitsValueOfDigits(n);
      NonNegativeRoundTrip(n);
    }
  }

  lemma NegativeRoundTrip(m: nat)
    requires m > 0
    ensures ParseDecimal("-" + Digits(m)) == Some(-(m as int))
  {
    var s := "-" + Digits(m);
    assert s[1..] == Digits(m);
    DigitsValueOfDigits(m);
  }

  lemma NonNegativeRoundTrip(n: nat)
    requires DigitsValue(Digits(n)) == n
    ensures ParseDecimal(Digits(n)) == Some(n)
  {
    var s := Digits(n);
    assert s[0] != '-';
  }

  /**
    `serialize(data, type)`: numbers as their decimal text, booleans as "1" or "0", enum
    constants by name, and text encoded for a URL body, as `encode` does it.
   */
  function Serialize(data: Scalar, ty: BodyType, encode: string -> string): (r: string)
    ensures data.Bool? ==> (r == "1" <==> data.z) && (r == "0" <==> !data.z)
    ensures data.Number? ==> ParseDecimal(r) == Some(data.n)
  {
    match data
    case Number(n) => DecimalRoundTrip(n); DecimalText(n)
    case Bool(z) => if z then "1" else "0"
    case EnumConst(name) => name
    case Text(s) => if ty == Url then encode(s) else s
  }

  /**
    The provider `processEndpointRequest` hands to `rebuild`: the member's serialised value,
    and the empty string for a member that is null.
   */
  function PathValue(value: Option<Scalar>, ty: BodyType, encode: string -> string): (r: string)
    ensures value.None? ==> r == ""
    ensures value.Some? ==> r == Serialize(value.value, ty, encode)
  {
    match value
    case None => ""
    case Some(v) => Serialize(v, ty, encode)
  }

  /** A path without references needs no provider: it rebuilds to its own text. */
  lemma RebuildRawPath(path: string, provider: string -> string)
    requires forall k :: 0 <= k < |Split(path, '/')| ==> !Surrounded(Split(path, '/')[k])
    ensures Rebuild(ParseEndpointPath(path), provider) == path
  {
    if path != "" {
      var pieces := Split(path, '/');
      var comps := ParseEndpointPath(path);
      var texts := seq(|comps|, k requires 0 <= k < |comps| => Emit(comps[k], provider));
      assert texts == pieces;
      JoinSplit(path, '/');
    }
  }

  // ---------------------------------------------------------------------------
  // serializeToUrl

  /** One entry of the query string. */
  function Entry(kv: (string, string)): string {
    kv.0 + "=" + kv.1
  }

  /** `serializeToUrl(data)`: the entries in the map's order, `k=v`, joined by '&'. */
  function SerializeToUrl(data: seq<(string, string)>): (r: string)
    ensures data == [] ==> r == ""
  {
    Join(seq(|data|, k requires 0 <= k < |data| => Entry(data[k])), '&')
  }

  /** The first '=' of an entry splits it back into key and value. */
  function SplitEntry(e: string): (string, string) {
    if '=' !in e then (e, "")
    else if e[0] == '=' then ("", e[1..])
    else
      var (k, v) := SplitEntry(e[1..]);
      ([e[0]] + k, v)
  }

  lemma {:induction false} SplitEntryOf(k: string, v: string)
    requires '=' !in k
    ensures SplitEntry(k + "=" + v) == (k, v)
  {
    if k != [] {
      SplitEntryOf(k[1..], v);
      assert (k + "=" + v)[1..] == k[1..] + "=" + v;
      assert [k[0]] + k[1..] == k;
    } else {
      assert (k + "=" + v)[1..] == v;
    }
  }

  /**
    The query string reads back as its entries: split on '&', then each entry on its first
    '=', when no key holds '&' or '=' and no value holds '&'. Encoded values never do.
   */
  lemma UrlRoundTrip(data: seq<(string, string)>)
    requires |data| >= 1
    requires forall k :: 0 <= k < |data| ==> '&' !in data[k].0 && '=' !in data[k].0 && '&' !in data[k].1
    ensures var pieces := Split(SerializeToUrl(data), '&');
      |pieces| == |data| && forall k :: 0 <= k < |data| ==> SplitEntry(pieces[k]) == data[k]
  {
    var entries := seq(|data|, k requires 0 <= k < |data| => Entry(data[k]));
    assert forall k :: 0 <= k < |entries| ==> '&' !in entries[k];
    SplitJoin(entries, '&');
    forall k | 0 <= k < |data|
      ensures SplitEntry(entries[k]) == data[k]
    {
      SplitEntryOf(data[k].0, data[k].1);
    }
  }

  /** `serialize(map, type)`: the query string for a URL body; a JSON body is not implemented and throws. */
  function SerializeData(data: seq<(string, string)>, ty: BodyType): (r: Result<string, string>)
    ensures r.Ok? <==> ty == Url
    ensures r.Ok? ==> r.value == SerializeToUrl(data)
  {
    if ty == Url then Ok(SerializeToUrl(data)) else Err("NotImplementedError")
  }
}
