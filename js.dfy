/**
 * JavaScript value semantics shared by the handlers and helpers of the
 * application: optional values, the fields of a parsed JSON request body,
 * the nullish-coalescing operator `??`, truthiness, white space as `trim()`
 * and the regular expression class `\s` understand it, number-to-text
 * conversion and the values a `throw` can carry.
 */
module Js {

  datatype Option<T> = None | Some(value: T) {
    function GetOr(default: T): T {
      match this
      case Some(v) => v
      case None => default
    }
  }

  /** `Math.max(a, b)` */
  function Max(a: int, b: int): (r: int)
    ensures r >= a && r >= b && (r == a || r == b)
  {
    if a < b then b else a
  }

  /**
   * `a % b` for a positive `b`: what is left of `a` after taking away a
   * multiple of `b`, smaller than `b` in size and of the sign of `a`, which
   * is the remainder of a division truncated toward zero.
   */
  function Rem(a: int, b: int): (r: int)
    requires b > 0
    ensures (a - r) % b == 0
    ensures a >= 0 ==> 0 <= r < b
    ensures a < 0 ==> -b < r <= 0
  {
    if a >= 0 then
      RemOfNonNegative(a, b);
      a % b
    else
      RemOfNegative(a, b);
      -((-a) % b)
  }

  lemma RemOfNonNegative(a: int, b: int)
    requires a >= 0 && b > 0
    ensures (a - a % b) % b == 0 && 0 <= a % b < b
  {
    var k := a / b;
    assert a - a % b == b * k;
    MultipleHasNoRem(b, k);
  }

  lemma RemOfNegative(a: int, b: int)
    requires a < 0 && b > 0
    ensures (a + (-a) % b) % b == 0 && -b < -((-a) % b) <= 0
  {
    var k := (-a) / b;
    assert -a == b * k + (-a) % b;
    assert a + (-a) % b == b * -k;
    MultipleHasNoRem(b, -k);
  }

  lemma MultipleHasNoRem(b: int, k: int)
    requires b > 0
    ensures (b * k) % b == 0
  {
    var d, m := (b * k) / b, (b * k) % b;
    assert b * k == b * d + m;
    assert b * (k - d) == m;
    SmallMultipleIsZero(b, k - d);
  }

  /** The only multiple of `b` strictly between `-b` and `b` is zero. */
  lemma SmallMultipleIsZero(b: int, k: int)
    requires b > 0 && -b < b * k < b
    ensures k == 0
  {
  }

  /** Two values closer than `b` that leave the same multiple-free rest of `a` are equal. */
  lemma SameRest(a: int, b: int, r: int, r': int)
    requires b > 0 && (a - r) % b == 0 && (a - r') % b == 0
    requires -b < r' - r < b
    ensures r == r'
  {
    var q, q' := (a - r) / b, (a - r') / b;
    assert a - r == b * q;
    assert a - r' == b * q';
    assert r - r' == b * q' - b * q;
    assert b * q' - b * q == b * (q' - q);
    SmallMultipleIsZero(b, q' - q);
  }

  /** Those three facts leave one candidate: any `r` with them is `Rem(a, b)`. */
  lemma RemDetermined(a: int, b: int, r: int)
    requires b > 0 && (a - r) % b == 0
    requires a >= 0 ==> 0 <= r < b
    requires a < 0 ==> -b < r <= 0
    ensures r == Rem(a, b)
  {
    SameRest(a, b, r, Rem(a, b));
  }

  /** A field read from a parsed JSON request body; `Undefined` is a missing field. */
  datatype Value =
    | Undefined
    | Null
    | Bool(b: bool)
    | Number(n: real)
    | Str(s: string)
    | Composite   // an array or an object

  /** `v == null`, which holds of `null` and of `undefined` */
  predicate Nullish(v: Value) {
    v.Undefined? || v.Null?
  }

  /** `a ?? b` */
  function Coalesce(a: Value, b: Value): (r: Value)
    ensures !Nullish(a) ==> r == a
    ensures Nullish(a) ==> r == b
  {
    if Nullish(a) then b else a
  }

  /** `a ?? b ?? c` reads as `(a ?? b) ?? c`; grouping the other way gives the same value. */
  lemma CoalesceAssociative(a: Value, b: Value, c: Value)
    ensures Coalesce(Coalesce(a, b), c) == Coalesce(a, Coalesce(b, c))
  {
  }

  /** A parsed JSON object body, by property name. */
  type Body = map<string, Value>

  /** `body.key`: a property that is not there reads as `undefined`. */
  function Get(body: Body, key: string): (v: Value)
    ensures key !in body ==> v == Undefined
    ensures key in body ==> v == body[key]
  {
    if key in body then body[key] else Undefined
  }

  /** The ECMAScript ToBoolean conversion, for the values a JSON body can hold. */
  predicate Truthy(v: Value) {
    match v
    case Undefined => false
    case Null => false
    case Bool(b) => b
    case Number(n) => n != 0.0
    case Str(s) => s != ""
    case Composite => true
  }

  lemma NullishIsFalsy(v: Value)
    ensures Nullish(v) ==> !Truthy(v)
    ensures Truthy(v) ==> !Nullish(v)
  {
  }

  /** The characters ECMAScript counts as WhiteSpace or LineTerminator. */
  const SpaceChars: set<char> :=
    {'\t', '\n', '\U{000B}', '\U{000C}', '\r', ' ', '\U{00A0}', '\U{1680}',
     '\U{2000}', '\U{2001}', '\U{2002}', '\U{2003}', '\U{2004}', '\U{2005}', '\U{2006}', '\U{2007}',
     '\U{2008}', '\U{2009}', '\U{200A}', '\U{2028}', '\U{2029}', '\U{202F}', '\U{205F}', '\U{3000}',
     '\U{FEFF}'}

  predicate IsSpace(c: char) {
    c in SpaceChars
  }

  predicate NoSpace(s: string) {
    forall i :: 0 <= i < |s| ==> !IsSpace(s[i])
  }

  function TrimStart(s: string): (r: string)
    ensures |r| <= |s| && r == s[|s| - |r|..]
    ensures r == [] || !IsSpace(r[0])
    ensures forall i :: 0 <= i < |s| - |r| ==> IsSpace(s[i])
  {
    if s != [] && IsSpace(s[0]) then TrimStart(s[1..]) else s
  }

  function TrimEnd(s: string): (r: string)
    ensures |r| <= |s| && r == s[..|r|]
    ensures r == [] || !IsSpace(r[|r| - 1])
    ensures forall i :: |r| <= i < |s| ==> IsSpace(s[i])
  {
    if s != [] && IsSpace(s[|s| - 1]) then TrimEnd(s[..|s| - 1]) else s
  }

  /** `s.trim()` */
  function Trim(s: string): (r: string)
    ensures r == [] || (!IsSpace(r[0]) && !IsSpace(r[|r| - 1]))
  {
    TrimEnd(TrimStart(s))
  }

  /** A white-space character at `a` does not change what `trimStart()` gives of `s[a..b]`. */
  lemma TrimStartDropSpace(s: string, a: nat, b: nat)
    requires a < b <= |s| && IsSpace(s[a])
    ensures TrimStart(s[a + 1..b]) == TrimStart(s[a..b])
  {
    var u := s[a..b];
    assert u[0] == s[a] && u[1..] == s[a + 1..b];
  }

  lemma {:induction false} TrimStartSkipSpaces(s: string, a: nat, k: nat, b: nat)
    requires a <= k <= b <= |s|
    requires forall q :: a <= q < k ==> IsSpace(s[q])
    ensures TrimStart(s[k..b]) == TrimStart(s[a..b])
    decreases k - a
  {
    if a < k {
      assert IsSpace(s[a]);
      TrimStartSkipSpaces(s, a + 1, k, b);
      TrimStartDropSpace(s, a, b);
    }
  }

  /** Dropping leading white space, here `s[a..k]`, does not change what `trim()` gives. */
  lemma TrimSkipSpaces(s: string, a: nat, k: nat, b: nat)
    requires a <= k <= b <= |s|
    requires forall q :: a <= q < k ==> IsSpace(s[q])
    ensures Trim(s[k..b]) == Trim(s[a..b])
  {
    TrimStartSkipSpaces(s, a, k, b);
  }

  /** The longest prefix of `s` without white space. */
  function TakeWord(s: string): (r: string)
    ensures |r| <= |s| && r == s[..|r|]
    ensures NoSpace(r)
    ensures |r| < |s| ==> IsSpace(s[|r|])
  {
    if s == [] || IsSpace(s[0]) then [] else [s[0]] + TakeWord(s[1..])
  }

  /** `s.trim().split(/\s+/)[0]` */
  function FirstWord(s: string): (r: string)
    ensures NoSpace(r)
  {
    TakeWord(Trim(s))
  }

  /** The first word is free of white space, and it is empty exactly when `s` is all white space. */
  lemma FirstWordShape(s: string)
    ensures NoSpace(FirstWord(s))
    ensures FirstWord(s) == [] <==> forall i :: 0 <= i < |s| ==> IsSpace(s[i])
  {
    var t := TrimStart(s);
    if t != [] {
      assert Trim(s) == TrimEnd(t);
      assert TrimEnd(t) != [];
      assert TrimEnd(t)[0] == t[0];
      assert !IsSpace(s[|s| - |t|]);
    }
  }

  lemma EmptyHasNoFirstWord()
    ensures FirstWord("") == ""
  {
  }

  /** The first word of a string is a prefix of the string once its leading white space is dropped. */
  lemma {:induction false} FirstWordIsPrefix(s: string)
    ensures FirstWord(s) == TrimStart(s)[..|FirstWord(s)|]
  {
  }

  /** `s.includes(sub)` */
  predicate Contains(s: string, sub: string)
    decreases |s|
  {
    sub <= s || (s != [] && Contains(s[1..], sub))
  }

  function LowerChar(c: char): char {
    if 'A' <= c <= 'Z' then (c as int + 32) as char else c
  }

  /** `s.toLowerCase()` on the Latin letters A to Z. */
  function ToLower(s: string): (r: string)
    ensures |r| == |s|
    ensures forall i :: 0 <= i < |s| ==> r[i] == LowerChar(s[i])
  {
    if s == [] then [] else [LowerChar(s[0])] + ToLower(s[1..])
  }

  function DigitChar(d: nat): char
    requires d < 10
  {
    "0123456789"[d]
  }

  predicate IsDigit(c: char) {
    '0' <= c <= '9'
  }

  function DigitValue(c: char): nat
    requires IsDigit(c)
  {
    c as int - '0' as int
  }

  /** Decimal digits of a natural number, without leading zeros. */
  function NatToString(n: nat): (r: string)
    ensures |r| >= 1
    ensures forall i :: 0 <= i < |r| ==> IsDigit(r[i])
    ensures n > 0 ==> r[0] != '0'
  {
    if n < 10 then [DigitChar(n)] else NatToString(n / 10) + [DigitChar(n % 10)]
  }

  predicate AllDigits(s: string) {
    forall i :: 0 <= i < |s| ==> IsDigit(s[i])
  }

  /** The longest prefix of `s` made of decimal digits. */
  function TakeDigits(s: string): (r: string)
    ensures |r| <= |s| && r == s[..|r|] && AllDigits(r)
    ensures |r| < |s| ==> !IsDigit(s[|r|])
  {
    if s == [] || !IsDigit(s[0]) then [] else [s[0]] + TakeDigits(s[1..])
  }

  /** The digit prefix of digits followed by a non-digit is exactly those digits. */
  lemma {:induction false} TakeDigitsOfDigits(d: string, rest: string)
    requires AllDigits(d)
    requires rest == [] || !IsDigit(rest[0])
    ensures TakeDigits(d + rest) == d
  {
    if d != [] {
      assert (d + rest)[1..] == d[1..] + rest;
      TakeDigitsOfDigits(d[1..], rest);
    } else {
      assert d + rest == rest;
    }
  }

  /** The number that a non-empty string of decimal digits denotes. */
  function ParseNat(s: string): nat
    requires forall i :: 0 <= i < |s| ==> IsDigit(s[i])
  {
    if s == [] then 0 else 10 * ParseNat(s[..|s| - 1]) + DigitValue(s[|s| - 1])
  }

  lemma {:induction false} ParseNatToString(n: nat)
    ensures ParseNat(NatToString(n)) == n
  {
    var r := NatToString(n);
    if n >= 10 {
      ParseNatToString(n / 10);
      assert r[..|r| - 1] == NatToString(n / 10);
    }
  }

  /** `${i}` for an integer `i` (negative zero prints as `0`). */
  function IntToString(i: int): (r: string)
    ensures |r| >= 1
  {
    if i < 0 then "-" + NatToString(-i) else NatToString(i)
  }

  /**
   * A value a `throw` delivers: an instance of `Error` with its message and,
   * for errors of the HTTP client, a status; or any other value, which may
   * or may not carry a `message` property.
   */
  datatype Thrown =
    | Error(message: string, status: Option<int>)
    | NonError(maybeMessage: Option<string>, maybeStatus: Option<int>)
  {
    /** `String(err?.message ?? '')` */
    function MessageText(): string {
      match this
      case Error(m, _) => m
      case NonError(m, _) => m.GetOr("")
    }

    /** `err?.status` */
    function Status(): Option<int> {
      match this
      case Error(_, s) => s
      case NonError(_, s) => s
    }
  }

  /** An operation that either produces a value or throws. */
  datatype Outcome<T> = Done(value: T) | Threw(thrown: Thrown)
}
