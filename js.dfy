/** JavaScript values as the core receives them (JSON request bodies and
    worker messages), with the few coercions the core applies to them. */
module Js {

  /** A JavaScript value. Objects and arrays are collapsed into `Obj`: the core
      only asks of them whether they are truthy, strings or finite numbers. */
  datatype Value =
    | Undefined
    | Null
    | Bool(b: bool)
    | Num(x: real)              // a finite number
    | NaN
    | Infinity(negative: bool)
    | Str(s: string)
    | Obj

  /** ECMAScript ToBoolean: what `if (v)`, `v || d` and `filter(Boolean)` test. */
  predicate Truthy(v: Value) {
    match v
    case Undefined => false
    case Null => false
    case Bool(b) => b
    case Num(x) => x != 0.0
    case NaN => false
    case Infinity(_) => true
    case Str(s) => s != ""
    case Obj => true
  }

  /** `Number.isFinite(v)`: true only for a number that is neither NaN nor infinite. */
  predicate IsFinite(v: Value) {
    v.Num?
  }

  /** `typeof v === 'string'`. */
  predicate IsString(v: Value) {
    v.Str?
  }

  /** `v || null`. */
  function OrNull(v: Value): Value {
    if Truthy(v) then v else Null
  }

  /** `Number.isFinite(v) ? v : d`. */
  function FiniteOr(v: Value, d: real): real {
    if v.Num? then v.x else d
  }

  /** The character of one decimal digit. */
  function DigitChar(d: int): char
    requires 0 <= d < 10
  {
    ('0' as int + d) as char
  }

  /** `String(n)` for a non-negative integer: its decimal digits, no leading zeros. */
  function NatToString(n: nat): string
    decreases n
  {
    if n < 10 then [DigitChar(n)] else NatToString(n / 10) + [DigitChar(n % 10)]
  }

  predicate IsDecimal(s: string) {
    |s| > 0 && forall i :: 0 <= i < |s| ==> '0' <= s[i] <= '9'
  }

  /** Reads a string of decimal digits back as a number. */
  function ParseDecimal(s: string): nat
    requires forall i :: 0 <= i < |s| ==> '0' <= s[i] <= '9'
    decreases |s|
  {
    if s == [] then 0
    else ParseDecimal(s[..|s| - 1]) * 10 + (s[|s| - 1] as int - '0' as int)
  }

  /** `String(n)` is a non-empty run of digits that reads back as `n`. */
  lemma {:induction false} ParseNatToString(n: nat)
    ensures IsDecimal(NatToString(n))
    ensures ParseDecimal(NatToString(n)) == n
    decreases n
  {
    if n >= 10 {
      ParseNatToString(n / 10);
      var s := NatToString(n);
      assert s[..|s| - 1] == NatToString(n / 10);
    }
  }

  /** Distinct counters give distinct ids. */
  lemma NatToStringInjective(m: nat, n: nat)
    requires NatToString(m) == NatToString(n)
    ensures m == n
  {
    ParseNatToString(m);
    ParseNatToString(n);
  }

  /** The ids a counter starting at 1 hands out, in order: "1", "2", …. */
  function IdsUpTo(n: nat): (ids: seq<string>)
    ensures |ids| == n
    ensures forall i :: 0 <= i < n ==> ids[i] == NatToString(i + 1)
  {
    seq(n, i requires 0 <= i < n => NatToString(i + 1))
  }

  /** The ids handed out are pairwise distinct. */
  lemma IdsDistinct(n: nat)
    ensures forall i, j :: 0 <= i < j < n ==> IdsUpTo(n)[i] != IdsUpTo(n)[j]
  {
    forall i, j | 0 <= i < j < n
      ensures IdsUpTo(n)[i] != IdsUpTo(n)[j]
    {
      if IdsUpTo(n)[i] == IdsUpTo(n)[j] {
        NatToStringInjective(i + 1, j + 1);
      }
    }
  }

  /** The next id is new: it extends the list of ids handed out. */
  lemma IdsSnoc(n: nat)
    ensures IdsUpTo(n + 1) == IdsUpTo(n) + [NatToString(n + 1)]
    ensures NatToString(n + 1) !in IdsUpTo(n)
  {
    assert IdsUpTo(n + 1) == IdsUpTo(n) + [NatToString(n + 1)];
    if NatToString(n + 1) in IdsUpTo(n) {
      var i :| 0 <= i < n && IdsUpTo(n)[i] == NatToString(n + 1);
      NatToStringInjective(i + 1, n + 1);
    }
  }
}
