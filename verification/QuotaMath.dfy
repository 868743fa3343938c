/** Saturating quota conversions (common/quota_math.go). A float64 is a real, an infinity or NaN;
    rounding of the floating-point representation itself is not modelled. */
module QuotaMath {
  import opened Common

  datatype Float = NaN | PosInf | NegInf | Fin(r: real)

  datatype ClampKind = Overflow | Underflow | NotANumber

  const MAX_QUOTA: int := 0x7fff_ffff
  const MIN_QUOTA: int := -0x8000_0000

  predicate AtMost(a: Float, b: Float) {
    a != NaN && b != NaN && (a.NegInf? || b.PosInf? || (a.Fin? && b.Fin? && a.r <= b.r))
  }

  /** int(value): toward zero. */
  function Truncated(r: real): int {
    if r >= 0.0 then r.Floor else -((-r).Floor)
  }

  /** math.Round and decimal Round(0): half away from zero. */
  function Rounded(r: real): int {
    if r >= 0.0 then (r + 0.5).Floor else -((0.5 - r).Floor)
  }

  function RoundFloat(v: Float): Float {
    if v.Fin? then Fin(Rounded(v.r) as real) else v
  }

  function Saturate(v: Float): (int, Option<ClampKind>) {
    match v
    case NaN => (0, Some(NotANumber))
    case PosInf => (MAX_QUOTA, Some(Overflow))
    case NegInf => (MIN_QUOTA, Some(Underflow))
    case Fin(r) =>
      if r >= MAX_QUOTA as real then (MAX_QUOTA, Some(Overflow))
      else if r <= MIN_QUOTA as real then (MIN_QUOTA, Some(Underflow))
      else (Truncated(r), None)
  }

  /** QuotaFromFloatChecked, QuotaRoundChecked; QuotaFromDecimalChecked is the latter on finite values. */
  function FromFloatChecked(v: Float): (int, Option<ClampKind>) {
    Saturate(v)
  }

  function RoundChecked(v: Float): (int, Option<ClampKind>) {
    Saturate(RoundFloat(v))
  }

  datatype Strict = Quota(q: int) | Rejected(kind: ClampKind)

  function StrictOf(checked: (int, Option<ClampKind>)): Strict {
    if checked.1.Some? then Rejected(checked.1.value) else Quota(checked.0)
  }

  lemma FloorBounds(r: real)
    ensures r.Floor as real <= r < r.Floor as real + 1.0
  {
  }

  lemma RoundingMonotone(a: real, b: real)
    requires a <= b
    ensures Truncated(a) <= Truncated(b) && Rounded(a) <= Rounded(b)
  {
    FloorBounds(a); FloorBounds(b); FloorBounds(-a); FloorBounds(-b);
    FloorBounds(a + 0.5); FloorBounds(b + 0.5); FloorBounds(0.5 - a); FloorBounds(0.5 - b);
  }

  lemma RoundingClose(r: real)
    ensures if r >= 0.0 then 0 <= Truncated(r) && Truncated(r) as real <= r < Truncated(r) as real + 1.0
            else Truncated(r) <= 0 && Truncated(r) as real - 1.0 < r <= Truncated(r) as real
    ensures -0.5 <= r - Rounded(r) as real <= 0.5
    ensures Truncated(Rounded(r) as real) == Rounded(r)
  {
    FloorBounds(r); FloorBounds(-r); FloorBounds(r + 0.5); FloorBounds(0.5 - r);
  }

  /** Conversions keep the order of amounts, so a larger charge never becomes a smaller one. */
  lemma ConversionsMonotone(a: Float, b: Float)
    requires AtMost(a, b)
    ensures FromFloatChecked(a).0 <= FromFloatChecked(b).0
    ensures RoundChecked(a).0 <= RoundChecked(b).0
  {
    ConversionsExact(a);
    ConversionsExact(b);
    if a.Fin? && b.Fin? { RoundingMonotone(a.r, b.r); }
  }

  /** Every conversion stays in the 32-bit range and keeps a non-negative amount non-negative;
      unclamped truncation is within 1 toward zero, unclamped rounding within 1/2; a clamp is
      reported, and the strict form fails, exactly when the converted value is not strictly
      between the limits. */
  lemma ConversionsExact(v: Float)
    ensures -2147483648 <= FromFloatChecked(v).0 <= 2147483647 && -2147483648 <= RoundChecked(v).0 <= 2147483647
    ensures AtMost(Fin(0.0), v) ==> FromFloatChecked(v).0 >= 0 && RoundChecked(v).0 >= 0
    ensures FromFloatChecked(v).1.None? <==> v.Fin? && -2147483648.0 < v.r < 2147483647.0
    ensures RoundChecked(v).1.None? <==> v.Fin? && -2147483647.5 < v.r < 2147483646.5
    ensures FromFloatChecked(v).1.None? ==>
              var q := FromFloatChecked(v).0 as real;
              if v.r >= 0.0 then q <= v.r < q + 1.0 else q - 1.0 < v.r <= q
    ensures RoundChecked(v).1.None? ==>
              var q := RoundChecked(v).0 as real;
              if v.r >= 0.0 then q - 0.5 <= v.r < q + 0.5 else q - 0.5 < v.r <= q + 0.5
    ensures StrictOf(FromFloatChecked(v)).Rejected? <==> FromFloatChecked(v).1.Some?
    ensures StrictOf(RoundChecked(v)).Rejected? <==> RoundChecked(v).1.Some?
    ensures FromFloatChecked(v).1.None? ==> StrictOf(FromFloatChecked(v)) == Quota(FromFloatChecked(v).0)
    ensures RoundChecked(v).1.None? ==> StrictOf(RoundChecked(v)) == Quota(RoundChecked(v).0)
  {
    if v.Fin? {
      RoundingClose(v.r);
      RoundingHalves(v.r);
    }
  }

  /** What a clamped value becomes: 0 for NaN, the limit on its side otherwise. */
  lemma ClampsExactly(v: Float)
    ensures v.NaN? ==> FromFloatChecked(v) == RoundChecked(v) == (0, Some(NotANumber))
    ensures AtMost(Fin(2147483647.0), v) ==> FromFloatChecked(v) == (2147483647, Some(Overflow))
    ensures AtMost(v, Fin(-2147483648.0)) ==> FromFloatChecked(v) == (-2147483648, Some(Underflow))
    ensures AtMost(Fin(2147483646.5), v) ==> RoundChecked(v) == (2147483647, Some(Overflow))
    ensures AtMost(v, Fin(-2147483647.5)) ==> RoundChecked(v) == (-2147483648, Some(Underflow))
    ensures StrictOf(FromFloatChecked(v)).Rejected? ==> Some(StrictOf(FromFloatChecked(v)).kind) == FromFloatChecked(v).1
  {
    if v.Fin? { RoundingHalves(v.r); }
  }

  /** Halves round away from zero. */
  lemma RoundingHalves(r: real)
    ensures if r >= 0.0 then Rounded(r) as real - 0.5 <= r < Rounded(r) as real + 0.5
            else Rounded(r) as real - 0.5 < r <= Rounded(r) as real + 0.5
  {
    FloorBounds(r + 0.5);
    FloorBounds(0.5 - r);
  }
}
