/** Per-stat arithmetic (main.go:98-146): the remainder of each stat modulo
    ten with its low/high flag, the base tier (the sum of each stat divided
    by ten) and the overflow (the sum of the six remainders). Go's integer
    `/` and `%` truncate toward zero; they are written out here, so the
    functions are defined on every integer, as in the source. */
module StatMath {
  import opened Gear

  /** Go's `a / d` for a positive divisor: the quotient truncated toward zero. */
  function GoQuo(a: int, d: int): int
    requires d > 0
  {
    if a >= 0 then a / d else -((-a) / d)
  }

  /** Go's `a % d` for a positive divisor: the remainder that goes with the
      truncated quotient, carrying the sign of `a`. */
  function GoRem(a: int, d: int): int
    requires d > 0
  {
    a - d * GoQuo(a, d)
  }

  /** Truncated division splits `a` into quotient and remainder, the
      remainder is smaller than the divisor in magnitude and has the sign
      of `a`, and on non-negative `a` it coincides with Euclidean division. */
  lemma TruncatedDivision(a: int, d: int)
    requires d > 0
    ensures a == d * GoQuo(a, d) + GoRem(a, d)
    ensures -d < GoRem(a, d) < d
    ensures a >= 0 ==> 0 <= GoRem(a, d) && GoQuo(a, d) == a / d && GoRem(a, d) == a % d
    ensures a < 0 ==> GoRem(a, d) <= 0
  {
    if a < 0 {
      assert -a == d * ((-a) / d) + (-a) % d;
    }
  }

  /** The remainder of one stat modulo ten and whether it is below five. */
  datatype Remainder = Remainder(val: int, low: bool)

  /** The remainders of the six stats (main.go:103-110). */
  datatype Remainders = Remainders(
    mobility: Remainder,
    resilience: Remainder,
    recovery: Remainder,
    discipline: Remainder,
    intellect: Remainder,
    strength: Remainder
  )

  /** Reads the remainder of one stat dimension. */
  function GetRem(rs: Remainders, s: Stat): Remainder
  {
    match s
    case Mobility => rs.mobility
    case Resilience => rs.resilience
    case Recovery => rs.recovery
    case Discipline => rs.discipline
    case Intellect => rs.intellect
    case Strength => rs.strength
  }

  /** `modulus` (main.go:123-126). On a non-negative stat the value is the
      stat modulo ten, in [0, 9], and splits the stat into tens and units. */
  function Modulus(stat: int): (r: Remainder)
    ensures stat >= 0 ==> 0 <= r.val <= 9 && r.val == stat % 10 && stat == 10 * (stat / 10) + r.val
    ensures -9 <= r.val <= 9
    ensures r.low <==> r.val < 5
  {
    TruncatedDivision(stat, 10);
    var val := GoRem(stat, 10);
    Remainder(val, val < 5)
  }

  /** The six remainders of a totals record, as `analyze` builds them
      (main.go:190-197). */
  function RemaindersOf(totals: Armor): (r: Remainders)
    ensures forall s: Stat :: GetRem(r, s) == Modulus(Get(totals, s))
  {
    Remainders(
      Modulus(totals.mobility),
      Modulus(totals.resilience),
      Modulus(totals.recovery),
      Modulus(totals.discipline),
      Modulus(totals.intellect),
      Modulus(totals.strength))
  }

  /** `sum` (main.go:128-136): the base tier. On non-negative stats it is
      the sum over the six stats of the stat divided by ten. */
  function Sum(totals: Armor): (r: int)
    ensures NonNegative(totals) ==> r >= 0
    ensures NonNegative(totals) ==>
      r == Get(totals, Mobility) / 10 + Get(totals, Resilience) / 10 + Get(totals, Recovery) / 10
         + Get(totals, Discipline) / 10 + Get(totals, Intellect) / 10 + Get(totals, Strength) / 10
  {
    var r := GoQuo(totals.mobility, 10)
      + GoQuo(totals.resilience, 10)
      + GoQuo(totals.recovery, 10)
      + GoQuo(totals.discipline, 10)
      + GoQuo(totals.intellect, 10)
      + GoQuo(totals.strength, 10);
    assert NonNegative(totals) ==>
      r == totals.mobility / 10 + totals.resilience / 10 + totals.recovery / 10
         + totals.discipline / 10 + totals.intellect / 10 + totals.strength / 10 by {
      if NonNegative(totals) {
        assert Get(totals, Mobility) >= 0 && Get(totals, Resilience) >= 0 && Get(totals, Recovery) >= 0;
        assert Get(totals, Discipline) >= 0 && Get(totals, Intellect) >= 0 && Get(totals, Strength) >= 0;
        TruncatedDivision(totals.mobility, 10);
        TruncatedDivision(totals.resilience, 10);
        TruncatedDivision(totals.recovery, 10);
        TruncatedDivision(totals.discipline, 10);
        TruncatedDivision(totals.intellect, 10);
        TruncatedDivision(totals.strength, 10);
      }
    }
    r
  }

  /** `overflow` (main.go:138-146): the points that do not reach the next
      tier. With every remainder in [0, 9] it lies in [0, 54]. */
  function Overflow(rs: Remainders): (r: int)
    ensures (forall s: Stat :: 0 <= GetRem(rs, s).val <= 9) ==> 0 <= r <= 54
  {
    var r := rs.mobility.val + rs.resilience.val + rs.recovery.val
      + rs.discipline.val + rs.intellect.val + rs.strength.val;
    assert (forall s: Stat :: 0 <= GetRem(rs, s).val <= 9) ==> 0 <= r <= 54 by {
      if forall s: Stat :: 0 <= GetRem(rs, s).val <= 9 {
        assert 0 <= GetRem(rs, Mobility).val <= 9 && 0 <= GetRem(rs, Resilience).val <= 9;
        assert 0 <= GetRem(rs, Recovery).val <= 9 && 0 <= GetRem(rs, Discipline).val <= 9;
        assert 0 <= GetRem(rs, Intellect).val <= 9 && 0 <= GetRem(rs, Strength).val <= 9;
      }
    }
    r
  }

  /** Tens and units add back up to the stat total: ten times the base tier
      plus the overflow is the sum of the six stats. This holds for every
      record, because truncated quotient and remainder always recombine. */
  lemma TiersAndOverflow(totals: Armor)
    ensures 10 * Sum(totals) + Overflow(RemaindersOf(totals)) == StatTotal(totals)
  {
    TruncatedDivision(totals.mobility, 10);
    TruncatedDivision(totals.resilience, 10);
    TruncatedDivision(totals.recovery, 10);
    TruncatedDivision(totals.discipline, 10);
    TruncatedDivision(totals.intellect, 10);
    TruncatedDivision(totals.strength, 10);
  }

  /** On non-negative stats every remainder is in [0, 9] and the overflow
      in [0, 54]. */
  lemma OverflowBounds(totals: Armor)
    requires NonNegative(totals)
    ensures forall s: Stat :: 0 <= GetRem(RemaindersOf(totals), s).val <= 9
    ensures 0 <= Overflow(RemaindersOf(totals)) <= 54
  {
    forall s: Stat
      ensures 0 <= GetRem(RemaindersOf(totals), s).val <= 9
    {
      assert Get(totals, s) >= 0;
    }
  }

  /** On a negative stat Go's remainder is not the stat modulo ten: -1 gives
      a remainder of -1 (flagged low), where Euclidean arithmetic gives 9. */
  lemma NegativeStatRemainder()
    ensures Modulus(-1) == Remainder(-1, true)
    ensures (-1) % 10 == 9
  {
    TruncatedDivision(-1, 10);
  }
}
