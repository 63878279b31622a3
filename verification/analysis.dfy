/** Evaluation of one four-piece combination: the totals record built in
    `process` (main.go:222-235) and the tier, overflow and report decision
    of `analyze` (main.go:189-210). */
module Analysis {
  import opened Gear
  import opened StatMath

  /** One helmet, gauntlets, chest and legs combination. */
  datatype Loadout = Loadout(helm: Armor, gauntlets: Armor, chest: Armor, legs: Armor)

  /** The record `analyze` works on (main.go:112-121): the summed totals,
      the four pieces, and the derived remainders, tier and overflow. */
  datatype Bundle = Bundle(
    totals: Armor,
    helm: Armor,
    gauntlets: Armor,
    chest: Armor,
    legs: Armor,
    remainders: Remainders,
    tier: int,
    over: int
  )

  /** Each stat of the totals is the plain sum of that stat over the four
      pieces; the text fields of the totals stay empty. */
  function Aggregate(t: Loadout): (r: Armor)
    ensures forall s: Stat :: Get(r, s) == Get(t.helm, s) + Get(t.gauntlets, s) + Get(t.chest, s) + Get(t.legs, s)
    ensures r.name == r.kind == r.rarity == r.guardian == ""
    ensures StatTotal(r) == StatTotal(t.helm) + StatTotal(t.gauntlets) + StatTotal(t.chest) + StatTotal(t.legs)
    ensures NonNegative(t.helm) && NonNegative(t.gauntlets) && NonNegative(t.chest) && NonNegative(t.legs)
      ==> NonNegative(r)
  {
    var h, g, c, l := t.helm, t.gauntlets, t.chest, t.legs;
    Armor("", "", "", "",
      h.mobility + g.mobility + c.mobility + l.mobility,
      h.resilience + g.resilience + c.resilience + l.resilience,
      h.recovery + g.recovery + c.recovery + l.recovery,
      h.discipline + g.discipline + c.discipline + l.discipline,
      h.intellect + g.intellect + c.intellect + l.intellect,
      h.strength + g.strength + c.strength + l.strength)
  }

  /** The Go zero value of a remainder set. */
  const NoRemainders := Remainders(Remainder(0, false), Remainder(0, false), Remainder(0, false),
                                   Remainder(0, false), Remainder(0, false), Remainder(0, false))

  /** The fresh bundle `process` builds for one combination, before
      `analyze` fills in the derived fields. */
  function Assemble(t: Loadout): Bundle
  {
    Bundle(Aggregate(t), t.helm, t.gauntlets, t.chest, t.legs, NoRemainders, 0, 0)
  }

  /** The derived fields `analyze` computes (main.go:190-199). The totals
      and the four pieces are kept as they are; each remainder belongs to
      its stat; ten times the unadjusted tier plus the overflow is the stat
      total; on non-negative totals the overflow is in [0, 54] and the
      unadjusted tier is the sum of the six stats divided by ten. */
  function Analyze(b: Bundle, mods: int, powerful: int): (r: Bundle)
    ensures r.totals == b.totals && r.helm == b.helm && r.gauntlets == b.gauntlets
      && r.chest == b.chest && r.legs == b.legs
    ensures forall s: Stat :: GetRem(r.remainders, s) == Modulus(Get(b.totals, s))
    ensures 10 * (r.tier - mods - powerful) + r.over == StatTotal(b.totals)
    ensures NonNegative(b.totals) ==> 0 <= r.over <= 54
    ensures NonNegative(b.totals) ==>
      r.tier - mods - powerful == b.totals.mobility / 10 + b.totals.resilience / 10 + b.totals.recovery / 10
        + b.totals.discipline / 10 + b.totals.intellect / 10 + b.totals.strength / 10
  {
    TiersAndOverflow(b.totals);
    assert NonNegative(b.totals) ==> 0 <= Overflow(RemaindersOf(b.totals)) <= 54 by {
      if NonNegative(b.totals) {
        OverflowBounds(b.totals);
      }
    }
    Fill(b, mods, powerful)
  }

  /** The three assignments of `analyze` (main.go:190-199): remainders,
      tier with the mod bonuses, overflow. */
  function Fill(b: Bundle, mods: int, powerful: int): Bundle
  {
    var rs := RemaindersOf(b.totals);
    b.(remainders := rs, tier := Sum(b.totals) + mods + powerful, over := Overflow(rs))
  }

  /** The report predicate of `analyze` (main.go:201-204), thresholds as
      hard-coded there. */
  predicate ShouldReport(over: int, tier: int)
  {
    (over <= 9 && tier >= 38) || tier >= 40
  }

  /** The emission step of `analyze`, branch for branch: the first two
      branches print the bundle; the third would apply the traction mod,
      but its body is commented out, so it emits nothing, like the
      implicit fall-through. The result is the bundle alone exactly when
      the report predicate holds, and nothing otherwise. */
  function Emit(b: Bundle): (r: seq<Bundle>)
    ensures r == [b] <==> ShouldReport(b.over, b.tier)
    ensures r == [] <==> !ShouldReport(b.over, b.tier)
  {
    if b.over <= 9 && b.tier >= 38 then [b]
    else if b.tier >= 40 then [b]
    else if !b.remainders.mobility.low then []
    else []
  }

  /** One combination, evaluated. */
  function Evaluate(t: Loadout, mods: int, powerful: int): Bundle
  {
    Analyze(Assemble(t), mods, powerful)
  }

  /** The threshold boundaries: overflow 9 at tier 38 is reported, overflow
      10 at tier 39 is not, tier 37 never is, tier 40 always is. */
  lemma ReportBoundaries()
    ensures ShouldReport(9, 38)
    ensures !ShouldReport(10, 39)
    ensures forall over :: !ShouldReport(over, 37)
    ensures forall over :: ShouldReport(over, 40)
  {
  }

  /** Lowering the overflow or raising the tier never withdraws a report. */
  lemma ReportMonotone(over: int, tier: int, over': int, tier': int)
    requires ShouldReport(over, tier)
    requires over' <= over && tier' >= tier
    ensures ShouldReport(over', tier')
  {
  }

  /** For non-negative pieces the report decision is pinned down by the
      raw stat total of the combination and the bonus: a total of at least
      454 less ten per bonus point is always reported (the tier reaches 40
      whatever the overflow), and a total below 380 less ten per bonus
      point never is (the tier stays below 38). */
  lemma ReportByStatTotal(t: Loadout, mods: int, powerful: int)
    requires NonNegative(t.helm) && NonNegative(t.gauntlets) && NonNegative(t.chest) && NonNegative(t.legs)
    ensures var total := StatTotal(Aggregate(t));
      var b := Evaluate(t, mods, powerful);
      && (total >= 454 - 10 * (mods + powerful) ==> ShouldReport(b.over, b.tier))
      && (total < 380 - 10 * (mods + powerful) ==> !ShouldReport(b.over, b.tier))
  {
    var b := Evaluate(t, mods, powerful);
    assert NonNegative(b.totals);
  }

  /** Example: pieces whose totals are 100/100/80/50/30/29 give base tier
      10+10+8+5+3+2 = 38 with overflow 9, and are reported with no bonus. */
  lemma ReportedExample()
    ensures var t := Loadout(
        Armor("H", "Helmet", "Legendary", "Titan", 25, 25, 20, 20, 10, 9),
        Armor("G", "Gauntlets", "Legendary", "Titan", 25, 25, 20, 10, 10, 10),
        Armor("C", "Chest Armor", "Legendary", "Titan", 25, 25, 20, 10, 5, 5),
        Armor("L", "Leg Armor", "Legendary", "Titan", 25, 25, 20, 10, 5, 5));
      var b := Evaluate(t, 0, 0);
      b.tier == 38 && b.over == 9 && Emit(b) == [b]
  {
    var totals := Armor("", "", "", "", 100, 100, 80, 50, 30, 29);
    assert GoQuo(100, 10) == 10 && GoQuo(80, 10) == 8 && GoQuo(50, 10) == 5;
    assert GoQuo(30, 10) == 3 && GoQuo(29, 10) == 2;
    assert Sum(totals) == 38;
    assert Overflow(RemaindersOf(totals)) == 9;
  }

  /** Example: one recovery point less on the chest gives totals
      100/100/79/50/30/29, base tier 37 and overflow 18: not reported. */
  lemma DiscardedExample()
    ensures var t := Loadout(
        Armor("H", "Helmet", "Legendary", "Titan", 25, 25, 20, 20, 10, 9),
        Armor("G", "Gauntlets", "Legendary", "Titan", 25, 25, 20, 10, 10, 10),
        Armor("C", "Chest Armor", "Legendary", "Titan", 25, 25, 19, 10, 5, 5),
        Armor("L", "Leg Armor", "Legendary", "Titan", 25, 25, 20, 10, 5, 5));
      var b := Evaluate(t, 0, 0);
      b.tier == 37 && b.over == 18 && Emit(b) == []
  {
    var totals := Armor("", "", "", "", 100, 100, 79, 50, 30, 29);
    assert GoQuo(100, 10) == 10 && GoQuo(79, 10) == 7 && GoQuo(50, 10) == 5;
    assert GoQuo(30, 10) == 3 && GoQuo(29, 10) == 2;
    assert Sum(totals) == 37;
    assert Overflow(RemaindersOf(totals)) == 18;
  }
}
