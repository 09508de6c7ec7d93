/**
 * The fragment of JavaScript's value semantics that the lib code relies on:
 * numbers with their non-finite values, JSON-shaped values, truthiness,
 * `Number(...)` conversion, and the string helpers trim/split/indexOf/includes.
 */
module Js {

  /** A JavaScript number. Finite values are exact reals; rounding of doubles is not modelled. */
  datatype Number = Finite(r: real) | NaN | PosInfinity | NegInfinity

  /** `Number.isFinite(n)` */
  predicate IsFinite(n: Number) {
    n.Finite?
  }

  /** `Number.isInteger(n)` */
  predicate IsInteger(n: Number) {
    n.Finite? && n.r.Floor as real == n.r
  }

  /** The integer held by a number that `Number.isInteger` accepts. */
  function IntOf(n: Number): (k: int)
    requires IsInteger(n)
    ensures k as real == n.r
  {
    n.r.Floor
  }

  /** A value as it arrives from `JSON.parse` or from a typed caller (`undefined` included). */
  datatype Value =
    | Undefined
    | Null
    | Bool(b: bool)
    | Num(n: Number)
    | Str(s: string)
    | Arr(items: seq<Value>)
    | Obj(props: map<string, Value>)

  /** `Boolean(v)`: the falsy values are undefined, null, false, 0, NaN and the empty string. */
  predicate Truthy(v: Value) {
    match v
    case Undefined => false
    case Null => false
    case Bool(b) => b
    case Num(n) => n != NaN && n != Finite(0.0)
    case Str(s) => s != ""
    case Arr(_) => true
    case Obj(_) => true
  }

  /** `typeof v === 'object'` for a value that is not null: plain objects and arrays. */
  predicate IsObject(v: Value) {
    v.Arr? || v.Obj?
  }

  /**
   * Property read `v[key]`. Only plain objects carry the named properties read by
   * the lib code; on every other value those reads give `undefined`.
   */
  function Get(v: Value, key: string): (r: Value)
    ensures !v.Obj? ==> r == Undefined
    ensures v.Obj? ==> r == if key in v.props then v.props[key] else Undefined
  {
    if v.Obj? && key in v.props then v.props[key] else Undefined
  }

  /** A value JSON can hold: no `undefined` and no NaN or infinite number anywhere inside. */
  predicate IsJson(v: Value) {
    match v
    case Undefined => false
    case Num(n) => n.Finite?
    case Arr(items) => forall i :: 0 <= i < |items| ==> IsJson(items[i])
    case Obj(props) => forall k :: k in props ==> IsJson(props[k])
    case _ => true
  }

  /**
   * `JSON.parse(JSON.stringify(v))`: a property whose value is `undefined` is not written,
   * an `undefined` array element is written as `null`, and so is a NaN or infinite number.
   */
  function JsonRoundTrip(v: Value): (r: Value)
    ensures IsJson(r)
    ensures v.Obj? ==> r.Obj? && (forall k :: k in r.props <==> k in v.props && !v.props[k].Undefined?)
    ensures v.Arr? ==> r.Arr? && |r.items| == |v.items|
  {
    match v
    case Undefined => Null
    case Null => Null
    case Bool(b) => Bool(b)
    case Num(n) => if n.Finite? then Num(n) else Null
    case Str(s) => Str(s)
    case Arr(items) => Arr(seq(|items|, i requires 0 <= i < |items| => JsonRoundTrip(items[i])))
    case Obj(props) => Obj(map k | k in props && !props[k].Undefined? :: JsonRoundTrip(props[k]))
  }

  /** A value JSON can already hold comes back from the round trip unchanged. */
  lemma {:induction false} JsonRoundTripKeepsJson(v: Value)
    ensures IsJson(v) ==> JsonRoundTrip(v) == v
  {
    if !IsJson(v) {
      return;
    }
    match v
    case Arr(items) =>
      forall i | 0 <= i < |items| ensures JsonRoundTrip(items[i]) == items[i] {
        JsonRoundTripKeepsJson(items[i]);
      }
    case Obj(props) =>
      forall k | k in props ensures JsonRoundTrip(props[k]) == props[k] {
        JsonRoundTripKeepsJson(props[k]);
      }
      assert JsonRoundTrip(v).props == props;
    case _ =>
  }

  /**
   * `Number(v)`. How a string is read as a number (whitespace, hex, exponents, ...) is
   * the engine's job and is passed in as `parse`; an array converts through its
   * string form, so `[]` is 0, `[x]` converts like `x` and longer arrays are NaN.
   */
  function ToNumber(v: Value, parse: string -> Number): Number
  {
    match v
    case Undefined => NaN
    case Null => Finite(0.0)
    case Bool(b) => if b then Finite(1.0) else Finite(0.0)
    case Num(n) => n
    case Str(s) => parse(s)
    case Arr(items) =>
      if |items| == 0 then Finite(0.0)
      else if |items| == 1 then ElementToNumber(items[0], parse)
      else NaN
    case Obj(_) => NaN
  }

  /** `Number(String([x]))`: null and undefined print as the empty string inside an array. */
  function ElementToNumber(x: Value, parse: string -> Number): Number
  {
    match x
    case Undefined => Finite(0.0)
    case Null => Finite(0.0)
    case Bool(b) => parse(if b then "true" else "false")
    case Num(n) => n
    case Str(s) => parse(s)
    case Arr(items) =>
      if |items| == 0 then Finite(0.0)
      else if |items| == 1 then ElementToNumber(items[0], parse)
      else NaN
    case Obj(_) => NaN
  }

  /** The characters `String.prototype.trim` removes: WhiteSpace and LineTerminator. */
  predicate IsWhitespace(c: char) {
    c == '\t' || c == '\n' || c == '\U{B}' || c == '\U{C}' || c == '\r' || c == ' '
    || c == '\U{A0}' || c == '\U{1680}' || ('\U{2000}' <= c <= '\U{200A}')
    || c == '\U{2028}' || c == '\U{2029}' || c == '\U{202F}' || c == '\U{205F}'
    || c == '\U{3000}' || c == '\U{FEFF}'
  }

  /** The number of leading whitespace characters. */
  function LeadingSpace(s: string): (k: nat)
    ensures k <= |s|
  {
    if |s| > 0 && IsWhitespace(s[0]) then 1 + LeadingSpace(s[1..]) else 0
  }

  /** The number of trailing whitespace characters. */
  function TrailingSpace(s: string): (k: nat)
    ensures k <= |s|
  {
    if |s| > 0 && IsWhitespace(s[|s| - 1]) then 1 + TrailingSpace(s[..|s| - 1]) else 0
  }

  /** LeadingSpace counts exactly the whitespace run at the start. */
  lemma {:induction false} LeadingSpaceIsTheRun(s: string)
    ensures forall i :: 0 <= i < LeadingSpace(s) ==> IsWhitespace(s[i])
    ensures LeadingSpace(s) < |s| ==> !IsWhitespace(s[LeadingSpace(s)])
  {
    if |s| > 0 && IsWhitespace(s[0]) {
      LeadingSpaceIsTheRun(s[1..]);
      forall i | 0 < i < LeadingSpace(s) ensures IsWhitespace(s[i]) {
        assert s[i] == s[1..][i - 1];
      }
    }
  }

  /** TrailingSpace counts exactly the whitespace run at the end. */
  lemma {:induction false} TrailingSpaceIsTheRun(s: string)
    ensures forall i :: |s| - TrailingSpace(s) <= i < |s| ==> IsWhitespace(s[i])
    ensures TrailingSpace(s) < |s| ==> !IsWhitespace(s[|s| - 1 - TrailingSpace(s)])
  {
    if |s| > 0 && IsWhitespace(s[|s| - 1]) {
      TrailingSpaceIsTheRun(s[..|s| - 1]);
      forall i | |s| - TrailingSpace(s) <= i < |s| - 1 ensures IsWhitespace(s[i]) {
        assert s[i] == s[..|s| - 1][i];
      }
    }
  }

  /** `s.trim()`: the slice of `s` without its leading and trailing whitespace. */
  function Trim(s: string): (r: string)
    ensures |r| <= |s|
  {
    var t := s[LeadingSpace(s)..];
    t[..|t| - TrailingSpace(t)]
  }

  /**
   * What trimming keeps: no whitespace at either end, every other character of `s`,
   * and it is the contiguous slice of `s` left once a whitespace-only prefix and a
   * whitespace-only suffix are cut off.
   */
  lemma TrimProperties(s: string)
    ensures var r := Trim(s); r != [] ==> !IsWhitespace(r[0]) && !IsWhitespace(r[|r| - 1])
    ensures forall i :: 0 <= i < |s| && !IsWhitespace(s[i]) ==> s[i] in Trim(s)
    ensures exists lo, hi ::
              && 0 <= lo <= hi <= |s| && Trim(s) == s[lo..hi]
              && (forall i :: 0 <= i < lo ==> IsWhitespace(s[i]))
              && (forall i :: hi <= i < |s| ==> IsWhitespace(s[i]))
  {
    var k := LeadingSpace(s);
    var t := s[k..];
    var r := t[..|t| - TrailingSpace(t)];
    LeadingSpaceIsTheRun(s);
    TrailingSpaceIsTheRun(t);
    assert forall i :: 0 <= i < |s| && !IsWhitespace(s[i]) ==> k <= i < k + |r| && s[i] == r[i - k];
    assert r == s[k..k + |r|];
    forall i | k + |r| <= i < |s| ensures IsWhitespace(s[i]) {
      assert s[i] == t[i - k];
    }
  }

  /** `s.trim() === ''`: exactly the strings made of whitespace only. */
  lemma TrimEmpty(s: string)
    ensures Trim(s) == [] <==> forall i :: 0 <= i < |s| ==> IsWhitespace(s[i])
  {
    TrimProperties(s);
    if Trim(s) != [] {
      assert !IsWhitespace(Trim(s)[0]);
    }
  }

  /** `c.toLowerCase()` for the letters A-Z; other characters are kept. */
  function LowerChar(c: char): char {
    if 'A' <= c <= 'Z' then (c as int + 32) as char else c
  }

  /** `s.toLowerCase()` restricted to A-Z (see LowerChar). */
  function Lower(s: string): (r: string)
    ensures |r| == |s|
    ensures forall i :: 0 <= i < |s| ==> r[i] == LowerChar(s[i])
  {
    seq(|s|, i requires 0 <= i < |s| => LowerChar(s[i]))
  }

  /** `s.indexOf(x)`: the first position of `x`, or -1. */
  function IndexOf<T(==)>(s: seq<T>, x: T): (r: int)
    ensures r == -1 <==> x !in s
    ensures r != -1 ==> 0 <= r < |s| && s[r] == x && x !in s[..r]
  {
    if |s| == 0 then -1
    else if s[0] == x then 0
    else
      var k := IndexOf(s[1..], x);
      assert s[1..][..if k < 0 then 0 else k] == s[1..1 + if k < 0 then 0 else k];
      if k == -1 then -1 else k + 1
  }

  /** `hay.includes(needle)` */
  predicate Includes(hay: string, needle: string)
    decreases |hay|
  {
    needle <= hay || (|hay| > 0 && Includes(hay[1..], needle))
  }

  /** `s.split(sep)` for a one-character separator. */
  function Split(s: string, sep: char): (r: seq<string>)
    ensures |r| >= 1
    decreases |s|
  {
    var i := IndexOf(s, sep);
    if i == -1 then [s] else [s[..i]] + Split(s[i + 1..], sep)
  }

  /** `pieces.join(sep)` */
  function Join(pieces: seq<string>, sep: char): string
    requires |pieces| >= 1
  {
    if |pieces| == 1 then pieces[0] else pieces[0] + [sep] + Join(pieces[1..], sep)
  }

  /** No piece contains the separator. */
  lemma {:induction false} SplitPiecesLackSeparator(s: string, sep: char)
    ensures forall k :: 0 <= k < |Split(s, sep)| ==> sep !in Split(s, sep)[k]
    decreases |s|
  {
    var i := IndexOf(s, sep);
    if i != -1 {
      SplitPiecesLackSeparator(s[i + 1..], sep);
      var rest := Split(s[i + 1..], sep);
      assert Split(s, sep) == [s[..i]] + rest;
      forall k | 0 <= k < |Split(s, sep)| ensures sep !in Split(s, sep)[k] {
        if k > 0 { assert Split(s, sep)[k] == rest[k - 1]; }
      }
    }
  }

  /** Splitting loses nothing: joining the pieces back gives the original string. */
  lemma {:induction false} SplitJoin(s: string, sep: char)
    ensures Join(Split(s, sep), sep) == s
    decreases |s|
  {
    var i := IndexOf(s, sep);
    if i != -1 {
      SplitJoin(s[i + 1..], sep);
      assert s == s[..i] + [sep] + s[i + 1..];
    }
  }
}
