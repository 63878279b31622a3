/** The search driver (`process`, main.go:212-242): every helmet, gauntlets,
    chest and legs combination of the classified inventory is evaluated, in
    nested-loop order with the helmet outermost and the legs innermost, and
    the reported bundles are emitted in that order. Emission is modelled as
    appending to an output sequence. */
module Search {
  import opened Gear
  import opened Classify
  import opened Analysis

  /** Concatenation is associative. */
  lemma ConcatAssoc<T>(x: seq<T>, y: seq<T>, z: seq<T>)
    ensures (x + y) + z == x + (y + z)
  {
  }

  /** Concatenates a sequence of blocks, first block first. */
  function Flatten<T>(bs: seq<seq<T>>): seq<T>
  {
    if |bs| == 0 then [] else Flatten(bs[..|bs| - 1]) + bs[|bs| - 1]
  }

  /** Euclidean division pins down quotient and remainder. */
  lemma DivUnique(i: int, q: int, b: int)
    requires b > 0
    requires q * b <= i < q * b + b
    ensures i / b == q && i % b == i - q * b
  {
    var d := i / b - q;
    assert d * b == (i / b) * b - q * b;
    assert d * b < 1 * b;
    assert d * b > (-1) * b;
  }

  /** A non-negative number below `n * b` has a quotient by `b` below `n`. */
  lemma DivBelow(j: int, b: int, n: int)
    requires b > 0 && 0 <= j < n * b
    ensures j / b < n
  {
    assert (j / b) * b <= j;
  }

  /** A positive product of naturals has positive factors. */
  lemma ProductPositive(a: int, b: int)
    requires a >= 0 && b >= 0 && a * b > 0
    ensures a > 0 && b > 0
  {
  }

  /** Taking a remainder modulo a multiple of `b` first does not change the
      remainder modulo `b`. */
  lemma ModOfMod(i: int, a: int, b: int)
    requires i >= 0 && a > 0 && b > 0
    ensures i % (a * b) % b == i % b
  {
    var ab := a * b;
    assert ab > 0;
    var q, r := i / ab, i % ab;
    assert i == q * ab + r && 0 <= r < ab;
    var q2, r2 := r / b, r % b;
    assert r == q2 * b + r2 && 0 <= r2 < b;
    assert q * ab == (q * a) * b;
    assert i == (q * a + q2) * b + r2;
    assert (q * a + q2) * b <= i < (q * a + q2) * b + b;
    DivUnique(i, q * a + q2, b);
  }

  /** `k * b + r` with `k < n` and `r < b` lies below `n * b`. */
  lemma MixedBound(k: int, r: int, n: int, b: int)
    requires 0 <= k < n && 0 <= r < b
    ensures 0 <= k * b + r < n * b
  {
    assert k * b >= 0;
    assert k * b + r < (k + 1) * b;
    assert (k + 1) * b <= n * b;
  }

  /** Flattening blocks of one common length `b` gives `|bs| * b` elements. */
  lemma {:induction false} FlattenLength<T>(bs: seq<seq<T>>, b: nat)
    requires forall k :: 0 <= k < |bs| ==> |bs[k]| == b
    ensures |Flatten(bs)| == |bs| * b
  {
    if |bs| > 0 {
      FlattenLength(bs[..|bs| - 1], b);
      assert (|bs| - 1) * b + b == |bs| * b;
    }
  }

  /** In a flattening of blocks of common length `b`, element `r` of block
      `k` sits at position `k * b + r`. */
  lemma {:induction false} FlattenAt<T>(bs: seq<seq<T>>, b: nat, k: int, r: int)
    requires forall k :: 0 <= k < |bs| ==> |bs[k]| == b
    requires 0 <= k < |bs| && 0 <= r < b
    ensures |Flatten(bs)| == |bs| * b
    ensures 0 <= k * b + r < |bs| * b
    ensures Flatten(bs)[k * b + r] == bs[k][r]
  {
    var n := |bs|;
    var init := bs[..n - 1];
    FlattenLength(bs, b);
    FlattenLength(init, b);
    MixedBound(k, r, n, b);
    if k < n - 1 {
      FlattenAt(init, b, k, r);
      assert init[k] == bs[k];
    } else {
      assert k * b == |Flatten(init)|;
    }
  }

  /** An element is in a flattening exactly when it is in one of the blocks. */
  lemma {:induction false} FlattenMembers<T>(bs: seq<seq<T>>, x: T)
    ensures x in Flatten(bs) <==> exists k :: 0 <= k < |bs| && x in bs[k]
  {
    if |bs| > 0 {
      var init := bs[..|bs| - 1];
      FlattenMembers(init, x);
      if x in Flatten(bs) && x !in bs[|bs| - 1] {
        var k :| 0 <= k < |init| && x in init[k];
        assert x in bs[k];
      }
      if exists k :: 0 <= k < |bs| && x in bs[k] {
        var k :| 0 <= k < |bs| && x in bs[k];
        if k < |bs| - 1 {
          assert x in init[k];
        }
      }
    }
  }

  /** The innermost loop: one combination per legs piece. */
  function LegRow(h: Armor, g: Armor, c: Armor, ls: seq<Armor>): seq<Loadout>
  {
    seq(|ls|, m requires 0 <= m < |ls| => Loadout(h, g, c, ls[m]))
  }

  /** The chest loop: one legs row per chest piece. */
  function ChestBlocks(h: Armor, g: Armor, cs: seq<Armor>, ls: seq<Armor>): seq<seq<Loadout>>
  {
    seq(|cs|, k requires 0 <= k < |cs| => LegRow(h, g, cs[k], ls))
  }

  /** The gauntlets loop: one chest block per gauntlets piece. */
  function GauntletBlocks(h: Armor, gs: seq<Armor>, cs: seq<Armor>, ls: seq<Armor>): seq<seq<Loadout>>
  {
    seq(|gs|, k requires 0 <= k < |gs| => Flatten(ChestBlocks(h, gs[k], cs, ls)))
  }

  /** The helmet loop: one gauntlets block per helmet. */
  function HelmetBlocks(gear: Organized): seq<seq<Loadout>>
  {
    var hs, gs, cs, ls := gear.helmets, gear.gauntlets, gear.chests, gear.legs;
    seq(|hs|, k requires 0 <= k < |hs| => Flatten(GauntletBlocks(hs[k], gs, cs, ls)))
  }

  /** All combinations in the order the four nested loops visit them. */
  function Tuples(gear: Organized): seq<Loadout>
  {
    Flatten(HelmetBlocks(gear))
  }

  /** The number of combinations the search evaluates. */
  function Count(gear: Organized): nat
  {
    |gear.helmets| * (|gear.gauntlets| * (|gear.chests| * |gear.legs|))
  }

  /** The position of the combination (helmet `a`, gauntlets `b`, chest
      `c`, legs `d`) when the buckets are enumerated as a mixed-radix
      number, helmet digit most significant and legs digit least. */
  function Position(gear: Organized, a: int, b: int, c: int, d: int): int
  {
    var gn, cn, ln := |gear.gauntlets|, |gear.chests|, |gear.legs|;
    a * (gn * (cn * ln)) + (b * (cn * ln) + (c * ln + d))
  }

  /** The digits `a, b, c, d` are each below their bucket's size. */
  predicate InRange(gear: Organized, a: int, b: int, c: int, d: int)
  {
    && 0 <= a < |gear.helmets| && 0 <= b < |gear.gauntlets|
    && 0 <= c < |gear.chests| && 0 <= d < |gear.legs|
  }

  /** Digit tuples in range map into [0, Count). */
  lemma PositionBound(gear: Organized, a: int, b: int, c: int, d: int)
    requires InRange(gear, a, b, c, d)
    ensures 0 <= c * |gear.legs| + d < |gear.chests| * |gear.legs|
    ensures 0 <= b * (|gear.chests| * |gear.legs|) + (c * |gear.legs| + d)
              < |gear.gauntlets| * (|gear.chests| * |gear.legs|)
    ensures 0 <= Position(gear, a, b, c, d) < Count(gear)
  {
    var gn, cn, ln := |gear.gauntlets|, |gear.chests|, |gear.legs|;
    MixedBound(c, d, cn, ln);
    MixedBound(b, c * ln + d, gn, cn * ln);
    MixedBound(a, b * (cn * ln) + (c * ln + d), |gear.helmets|, gn * (cn * ln));
  }

  /** Lexicographic order on digit tuples, helmet digit first. */
  predicate LexLess(a: int, b: int, c: int, d: int, a': int, b': int, c': int, d': int)
  {
    || a < a'
    || (a == a' && b < b')
    || (a == a' && b == b' && c < c')
    || (a == a' && b == b' && c == c' && d < d')
  }

  /** Within blocks of length `b`, a smaller block index means a smaller
      position, whatever the offsets. */
  lemma BlockOrder(k: int, r: int, k': int, r': int, b: int)
    requires k < k' && 0 <= r < b && 0 <= r' < b
    ensures k * b + r < k' * b + r'
  {
    MulMono(k + 1, k', b);
    assert (k + 1) * b == k * b + b;
  }

  /** `(k + 1) * b` is one more `b` than `k * b`. */
  lemma MulStep(k: int, b: int)
    ensures (k + 1) * b == k * b + b
  {
  }

  /** Multiplying by a non-negative number keeps the order. */
  lemma MulMono(x: int, y: int, b: int)
    requires x <= y && b >= 0
    ensures x * b <= y * b
  {
    assert y * b - x * b == (y - x) * b;
  }

  /** A lexicographically smaller digit tuple has a smaller position. */
  lemma PositionLess(gear: Organized, a: int, b: int, c: int, d: int, a': int, b': int, c': int, d': int)
    requires InRange(gear, a, b, c, d) && InRange(gear, a', b', c', d')
    requires LexLess(a, b, c, d, a', b', c', d')
    ensures Position(gear, a, b, c, d) < Position(gear, a', b', c', d')
  {
    var gn, cn, ln := |gear.gauntlets|, |gear.chests|, |gear.legs|;
    var b2 := cn * ln;
    var b3 := gn * b2;
    PositionBound(gear, a, b, c, d);
    PositionBound(gear, a', b', c', d');
    var mid, mid' := b * b2 + (c * ln + d), b' * b2 + (c' * ln + d');
    if a < a' {
      BlockOrder(a, mid, a', mid', b3);
    } else if b < b' {
      BlockOrder(b, c * ln + d, b', c' * ln + d', b2);
    } else if c < c' {
      BlockOrder(c, d, c', d', ln);
    }
  }

  /** Positions follow the lexicographic order of the digits: the helmet
      loop is outermost and the legs loop innermost. */
  lemma PositionOrder(gear: Organized, a: int, b: int, c: int, d: int, a': int, b': int, c': int, d': int)
    requires InRange(gear, a, b, c, d) && InRange(gear, a', b', c', d')
    ensures LexLess(a, b, c, d, a', b', c', d') <==> Position(gear, a, b, c, d) < Position(gear, a', b', c', d')
  {
    if LexLess(a, b, c, d, a', b', c', d') {
      PositionLess(gear, a, b, c, d, a', b', c', d');
    } else if LexLess(a', b', c', d', a, b, c, d) {
      PositionLess(gear, a', b', c', d', a, b, c, d);
    }
  }

  /** The chest loop: the combination with chest `c` and legs `d` sits at
      position `c * |L| + d`. */
  lemma ChestAt(h: Armor, g: Armor, cs: seq<Armor>, ls: seq<Armor>, c: int, d: int)
    requires 0 <= c < |cs| && 0 <= d < |ls|
    ensures |Flatten(ChestBlocks(h, g, cs, ls))| == |cs| * |ls|
    ensures 0 <= c * |ls| + d < |cs| * |ls|
    ensures Flatten(ChestBlocks(h, g, cs, ls))[c * |ls| + d] == Loadout(h, g, cs[c], ls[d])
  {
    FlattenAt(ChestBlocks(h, g, cs, ls), |ls|, c, d);
  }

  /** Every chest loop has `|C| * |L|` combinations. */
  lemma ChestLength(h: Armor, g: Armor, cs: seq<Armor>, ls: seq<Armor>)
    ensures |Flatten(ChestBlocks(h, g, cs, ls))| == |cs| * |ls|
  {
    FlattenLength(ChestBlocks(h, g, cs, ls), |ls|);
  }

  /** Every gauntlets block has `|C| * |L|` combinations. */
  lemma GauntletBlocksUniform(h: Armor, gs: seq<Armor>, cs: seq<Armor>, ls: seq<Armor>)
    ensures forall k :: 0 <= k < |gs| ==> |GauntletBlocks(h, gs, cs, ls)[k]| == |cs| * |ls|
    ensures |Flatten(GauntletBlocks(h, gs, cs, ls))| == |gs| * (|cs| * |ls|)
  {
    forall k | 0 <= k < |gs|
      ensures |GauntletBlocks(h, gs, cs, ls)[k]| == |cs| * |ls|
    {
      ChestLength(h, gs[k], cs, ls);
    }
    FlattenLength(GauntletBlocks(h, gs, cs, ls), |cs| * |ls|);
  }

  /** The gauntlets loop: the combination with gauntlets `b`, chest `c` and
      legs `d` sits at position `b * |C| * |L| + c * |L| + d`. */
  lemma GauntletAt(h: Armor, gs: seq<Armor>, cs: seq<Armor>, ls: seq<Armor>, b: int, c: int, d: int)
    requires 0 <= b < |gs| && 0 <= c < |cs| && 0 <= d < |ls|
    ensures |Flatten(GauntletBlocks(h, gs, cs, ls))| == |gs| * (|cs| * |ls|)
    ensures 0 <= b * (|cs| * |ls|) + (c * |ls| + d) < |gs| * (|cs| * |ls|)
    ensures Flatten(GauntletBlocks(h, gs, cs, ls))[b * (|cs| * |ls|) + (c * |ls| + d)] == Loadout(h, gs[b], cs[c], ls[d])
  {
    var bs := GauntletBlocks(h, gs, cs, ls);
    GauntletBlocksUniform(h, gs, cs, ls);
    ChestAt(h, gs[b], cs, ls, c, d);
    FlattenAt(bs, |cs| * |ls|, b, c * |ls| + d);
  }

  /** Every helmet block has `|G| * |C| * |L|` combinations, and the nested
      loops visit `|H| * |G| * |C| * |L|` combinations in all. */
  lemma TuplesCount(gear: Organized)
    ensures forall k :: 0 <= k < |gear.helmets| ==>
      |HelmetBlocks(gear)[k]| == |gear.gauntlets| * (|gear.chests| * |gear.legs|)
    ensures |Tuples(gear)| == Count(gear)
  {
    var hs, gs, cs, ls := gear.helmets, gear.gauntlets, gear.chests, gear.legs;
    forall k | 0 <= k < |hs|
      ensures |HelmetBlocks(gear)[k]| == |gs| * (|cs| * |ls|)
    {
      GauntletBlocksUniform(hs[k], gs, cs, ls);
    }
    FlattenLength(HelmetBlocks(gear), |gs| * (|cs| * |ls|));
  }

  /** The nested loops put the combination of helmet `a`, gauntlets `b`,
      chest `c` and legs `d` at its mixed-radix position. */
  lemma TupleAt(gear: Organized, a: int, b: int, c: int, d: int)
    requires InRange(gear, a, b, c, d)
    ensures |Tuples(gear)| == Count(gear)
    ensures 0 <= Position(gear, a, b, c, d) < Count(gear)
    ensures Tuples(gear)[Position(gear, a, b, c, d)]
      == Loadout(gear.helmets[a], gear.gauntlets[b], gear.chests[c], gear.legs[d])
  {
    var hs, gs, cs, ls := gear.helmets, gear.gauntlets, gear.chests, gear.legs;
    TuplesCount(gear);
    GauntletAt(hs[a], gs, cs, ls, b, c, d);
    FlattenAt(HelmetBlocks(gear), |gs| * (|cs| * |ls|), a, b * (|cs| * |ls|) + (c * |ls| + d));
  }

  /** Splitting `i < n * b` into a quotient below `n` and a remainder
      below `b`. */
  lemma Split(i: int, n: int, b: int)
    requires 0 <= i < n * b && n >= 0 && b >= 0
    ensures b > 0 && 0 <= i / b < n && 0 <= i % b < b && i == (i / b) * b + i % b
  {
    ProductPositive(n, b);
    DivBelow(i, b, n);
  }

  /** Index arithmetic of the explicit cross product: the four digits of a
      position below the number of combinations are in range, and they
      recompose to the position. */
  lemma Digits(gear: Organized, i: int)
    requires 0 <= i < Count(gear)
    ensures var gn, cn, ln := |gear.gauntlets|, |gear.chests|, |gear.legs|;
      && ln > 0 && cn * ln > 0 && gn * (cn * ln) > 0
      && var a, b, c, d := i / (gn * (cn * ln)), i % (gn * (cn * ln)) / (cn * ln), i % (cn * ln) / ln, i % ln;
      && InRange(gear, a, b, c, d)
      && Position(gear, a, b, c, d) == i
  {
    var hn, gn, cn, ln := |gear.helmets|, |gear.gauntlets|, |gear.chests|, |gear.legs|;
    var b2 := cn * ln;
    var b3 := gn * b2;
    Split(i, hn, b3);
    var a, j := i / b3, i % b3;
    Split(j, gn, b2);
    var b, m := j / b2, j % b2;
    ModOfMod(i, gn, b2);
    Split(m, cn, ln);
    var c, d := m / ln, m % ln;
    ModOfMod(i, cn, ln);
    assert InRange(gear, a, b, c, d);
    assert Position(gear, a, b, c, d) == a * b3 + (b * b2 + (c * ln + d));
  }

  /** Reference definition: the combination at position `i` of the
      explicit cross product, read off as a mixed-radix number whose most
      significant digit picks the helmet and least significant the legs. */
  function CrossAt(gear: Organized, i: nat): Loadout
    requires i < Count(gear)
  {
    Digits(gear, i);
    var hs, gs, cs, ls := gear.helmets, gear.gauntlets, gear.chests, gear.legs;
    var gn, cn, ln := |gs|, |cs|, |ls|;
    Loadout(
      hs[i / (gn * (cn * ln))],
      gs[i % (gn * (cn * ln)) / (cn * ln)],
      cs[i % (cn * ln) / ln],
      ls[i % ln])
  }

  /** The explicit cross product, position by position. */
  function CrossProduct(gear: Organized): seq<Loadout>
  {
    seq(Count(gear), i requires 0 <= i < Count(gear) => CrossAt(gear, i))
  }

  /** The nested loops visit exactly `|H|*|G|*|C|*|L|` combinations, in
      lexicographic order: the loop structure and the explicit cross
      product are the same sequence. */
  lemma TuplesAreCrossProduct(gear: Organized)
    ensures |Tuples(gear)| == Count(gear)
    ensures Tuples(gear) == CrossProduct(gear)
  {
    TuplesCount(gear);
    forall i | 0 <= i < Count(gear)
      ensures Tuples(gear)[i] == CrossProduct(gear)[i]
    {
      Digits(gear, i);
      var gn, cn, ln := |gear.gauntlets|, |gear.chests|, |gear.legs|;
      TupleAt(gear, i / (gn * (cn * ln)), i % (gn * (cn * ln)) / (cn * ln), i % (cn * ln) / ln, i % ln);
    }
  }

  /** A combination is in the chest loop's output exactly when its chest
      and legs come from their buckets. */
  lemma ChestLevelMembers(h: Armor, g: Armor, cs: seq<Armor>, ls: seq<Armor>, t: Loadout)
    ensures t in Flatten(ChestBlocks(h, g, cs, ls)) <==>
      t.helm == h && t.gauntlets == g && t.chest in cs && t.legs in ls
  {
    FlattenMembers(ChestBlocks(h, g, cs, ls), t);
    if t.helm == h && t.gauntlets == g && t.chest in cs && t.legs in ls {
      var k :| 0 <= k < |cs| && cs[k] == t.chest;
      var m :| 0 <= m < |ls| && ls[m] == t.legs;
      assert ChestBlocks(h, g, cs, ls)[k][m] == t;
    }
  }

  /** A combination is in the gauntlets loop's output exactly when its
      gauntlets, chest and legs come from their buckets. */
  lemma GauntletLevelMembers(h: Armor, gs: seq<Armor>, cs: seq<Armor>, ls: seq<Armor>, t: Loadout)
    ensures t in Flatten(GauntletBlocks(h, gs, cs, ls)) <==>
      t.helm == h && t.gauntlets in gs && t.chest in cs && t.legs in ls
  {
    var bs := GauntletBlocks(h, gs, cs, ls);
    FlattenMembers(bs, t);
    forall k | 0 <= k < |gs|
      ensures t in bs[k] <==> t.helm == h && t.gauntlets == gs[k] && t.chest in cs && t.legs in ls
    {
      ChestLevelMembers(h, gs[k], cs, ls, t);
    }
  }

  /** Every combination is drawn from the four buckets, and every choice of
      one piece per bucket appears. */
  lemma TuplesMembers(gear: Organized, t: Loadout)
    ensures t in Tuples(gear) <==>
      t.helm in gear.helmets && t.gauntlets in gear.gauntlets && t.chest in gear.chests && t.legs in gear.legs
  {
    var hs, gs, cs, ls := gear.helmets, gear.gauntlets, gear.chests, gear.legs;
    var bs := HelmetBlocks(gear);
    FlattenMembers(bs, t);
    forall k | 0 <= k < |hs|
      ensures t in bs[k] <==> t.helm == hs[k] && t.gauntlets in gs && t.chest in cs && t.legs in ls
    {
      GauntletLevelMembers(hs[k], gs, cs, ls, t);
    }
  }

  /** The bundles emitted for a sequence of combinations, in order. */
  function Reports(ts: seq<Loadout>, mods: int, powerful: int): seq<Bundle>
  {
    if |ts| == 0 then []
    else Reports(ts[..|ts| - 1], mods, powerful) + EmitFor(ts[|ts| - 1], mods, powerful)
  }

  /** What `analyze` emits for one combination. */
  function EmitFor(t: Loadout, mods: int, powerful: int): seq<Bundle>
  {
    Emit(Evaluate(t, mods, powerful))
  }

  /** The output of `process`: every combination in nested-loop order,
      filtered by the report predicate. */
  function Search(gear: Organized, mods: int, powerful: int): seq<Bundle>
  {
    Reports(Tuples(gear), mods, powerful)
  }

  /** Appending one combination appends what it emits. */
  lemma ReportsSnoc(ts: seq<Loadout>, x: Loadout, mods: int, powerful: int)
    ensures Reports(ts + [x], mods, powerful) == Reports(ts, mods, powerful) + EmitFor(x, mods, powerful)
  {
    assert (ts + [x])[..|ts|] == ts;
  }

  /** Emission distributes over concatenation of the combinations. */
  lemma {:induction false} ReportsAppend(a: seq<Loadout>, b: seq<Loadout>, mods: int, powerful: int)
    ensures Reports(a + b, mods, powerful) == Reports(a, mods, powerful) + Reports(b, mods, powerful)
    decreases |b|
  {
    if |b| == 0 {
      assert a + b == a;
    } else {
      var b', x := b[..|b| - 1], b[|b| - 1];
      assert b == b' + [x];
      assert a + b == (a + b') + [x];
      ReportsSnoc(a + b', x, mods, powerful);
      ReportsSnoc(b', x, mods, powerful);
      ReportsAppend(a, b', mods, powerful);
      ConcatAssoc(Reports(a, mods, powerful), Reports(b', mods, powerful), EmitFor(x, mods, powerful));
    }
  }

  /** A bundle is what `analyze` emits for a combination. */
  predicate Accepted(t: Loadout, b: Bundle, mods: int, powerful: int)
  {
    b == Evaluate(t, mods, powerful) && ShouldReport(b.over, b.tier)
  }

  /** One combination emits at most one bundle: the accepted one. */
  lemma EmitForMembers(t: Loadout, b: Bundle, mods: int, powerful: int)
    ensures |EmitFor(t, mods, powerful)| <= 1
    ensures b in EmitFor(t, mods, powerful) <==> Accepted(t, b, mods, powerful)
  {
  }

  /** Emission never produces more bundles than combinations, and produces
      one per combination when every combination is reported (no
      de-duplication, no early exit). */
  lemma {:induction false} ReportsLength(ts: seq<Loadout>, mods: int, powerful: int)
    ensures |Reports(ts, mods, powerful)| <= |ts|
    ensures (forall t :: t in ts ==> var b := Evaluate(t, mods, powerful); ShouldReport(b.over, b.tier))
      ==> |Reports(ts, mods, powerful)| == |ts|
  {
    if |ts| > 0 {
      var init, x := ts[..|ts| - 1], ts[|ts| - 1];
      assert ts == init + [x];
      ReportsLength(init, mods, powerful);
      var b := Evaluate(x, mods, powerful);
      EmitForMembers(x, b, mods, powerful);
    }
  }

  /** A bundle is emitted exactly when some combination of the input is
      evaluated to it and passes the report predicate. */
  lemma {:induction false} ReportsMembers(ts: seq<Loadout>, b: Bundle, mods: int, powerful: int)
    ensures b in Reports(ts, mods, powerful) <==> exists t :: t in ts && Accepted(t, b, mods, powerful)
  {
    if |ts| > 0 {
      var init, x := ts[..|ts| - 1], ts[|ts| - 1];
      assert ts == init + [x];
      ReportsMembers(init, b, mods, powerful);
      EmitForMembers(x, b, mods, powerful);
      assert Reports(ts, mods, powerful) == Reports(init, mods, powerful) + EmitFor(x, mods, powerful);
      if exists t :: t in ts && Accepted(t, b, mods, powerful) {
        var t :| t in ts && Accepted(t, b, mods, powerful);
        assert t in init || t == x;
      }
    }
  }

  /** The search output is the explicit cross product, filtered by the
      report predicate, in lexicographic order. It holds at most one bundle
      per combination, and exactly one per combination when every
      combination is reported. */
  lemma SearchIsFilteredCrossProduct(gear: Organized, mods: int, powerful: int)
    ensures Search(gear, mods, powerful) == Reports(CrossProduct(gear), mods, powerful)
    ensures |Search(gear, mods, powerful)| <= Count(gear)
    ensures (forall t :: t in Tuples(gear) ==> var b := Evaluate(t, mods, powerful); ShouldReport(b.over, b.tier))
      ==> |Search(gear, mods, powerful)| == Count(gear)
  {
    TuplesAreCrossProduct(gear);
    ReportsLength(Tuples(gear), mods, powerful);
  }

  /** A bundle is emitted exactly when it is the evaluation of one piece
      from each bucket and passes the report predicate. */
  lemma SearchMembers(gear: Organized, mods: int, powerful: int, b: Bundle)
    ensures b in Search(gear, mods, powerful) <==>
      && b.helm in gear.helmets && b.gauntlets in gear.gauntlets && b.chest in gear.chests && b.legs in gear.legs
      && Accepted(Loadout(b.helm, b.gauntlets, b.chest, b.legs), b, mods, powerful)
  {
    var ts := Tuples(gear);
    var t := Loadout(b.helm, b.gauntlets, b.chest, b.legs);
    ReportsMembers(ts, b, mods, powerful);
    TuplesMembers(gear, t);
    if b in Search(gear, mods, powerful) {
      var t' :| t' in ts && Accepted(t', b, mods, powerful);
      assert t' == t;
    }
  }

  /** Every emitted bundle carries the four pieces it was built from,
      unchanged, and totals that are the plain per-stat sums over them. */
  lemma SearchTotals(gear: Organized, mods: int, powerful: int, b: Bundle)
    requires b in Search(gear, mods, powerful)
    ensures b.helm in gear.helmets && b.gauntlets in gear.gauntlets && b.chest in gear.chests && b.legs in gear.legs
    ensures forall s: Stat :: Get(b.totals, s) == Get(b.helm, s) + Get(b.gauntlets, s) + Get(b.chest, s) + Get(b.legs, s)
    ensures ShouldReport(b.over, b.tier)
  {
    SearchMembers(gear, mods, powerful, b);
  }

  /** One more combination adds its emission to the reports of a prefix. */
  lemma ReportsStep(ts: seq<Loadout>, m: int, mods: int, powerful: int)
    requires 0 <= m < |ts|
    ensures Reports(ts[..m + 1], mods, powerful) == Reports(ts[..m], mods, powerful) + EmitFor(ts[m], mods, powerful)
  {
    assert ts[..m + 1][..m] == ts[..m];
  }

  /** One more block adds its reports to the reports of a prefix of blocks. */
  lemma ReportsBlockStep(bs: seq<seq<Loadout>>, k: int, mods: int, powerful: int)
    requires 0 <= k < |bs|
    ensures Reports(Flatten(bs[..k + 1]), mods, powerful)
      == Reports(Flatten(bs[..k]), mods, powerful) + Reports(bs[k], mods, powerful)
  {
    assert bs[..k + 1][..k] == bs[..k];
    ReportsAppend(Flatten(bs[..k]), bs[k], mods, powerful);
  }

  /** The legs row holds legs piece `m` at position `m`. */
  lemma LegRowAt(h: Armor, g: Armor, c: Armor, ls: seq<Armor>, m: int)
    requires 0 <= m < |ls|
    ensures |LegRow(h, g, c, ls)| == |ls|
    ensures LegRow(h, g, c, ls)[m] == Loadout(h, g, c, ls[m])
  {
  }

  /** The legs loop of `process` (main.go:221-238) for one helmet,
      gauntlets and chest piece: a fresh totals record per legs piece
      (built as `Aggregate` states), `analyze`, and an append whenever it
      would print. It emits the reports of that row and evaluates each
      legs piece once. */
  method ProcessLegs(h: Armor, g: Armor, c: Armor, ls: seq<Armor>, mods: int, powerful: int)
    returns (out: seq<Bundle>, evaluated: nat)
    ensures out == Reports(LegRow(h, g, c, ls), mods, powerful)
    ensures evaluated == |ls|
  {
    var row := LegRow(h, g, c, ls);
    out, evaluated := [], 0;
    for m := 0 to |ls|
      invariant out == Reports(row[..m], mods, powerful)
      invariant evaluated == m
    {
      var bundle := Assemble(Loadout(h, g, c, ls[m]));
      LegRowAt(h, g, c, ls, m);
      ReportsStep(row, m, mods, powerful);
      out := out + Emit(Analyze(bundle, mods, powerful));
      evaluated := evaluated + 1;
    }
    assert row[..|ls|] == row;
  }

  /** The chest loop of `process` for one helmet and gauntlets piece: it
      emits the reports of the chest block and evaluates `|C| * |L|`
      combinations. */
  method ProcessChests(h: Armor, g: Armor, cs: seq<Armor>, ls: seq<Armor>, mods: int, powerful: int)
    returns (out: seq<Bundle>, evaluated: nat)
    ensures out == Reports(Flatten(ChestBlocks(h, g, cs, ls)), mods, powerful)
    ensures evaluated == |cs| * |ls|
  {
    var cb := ChestBlocks(h, g, cs, ls);
    out, evaluated := [], 0;
    for k := 0 to |cs|
      invariant out == Reports(Flatten(cb[..k]), mods, powerful)
      invariant evaluated == k * |ls|
    {
      var o, e := ProcessLegs(h, g, cs[k], ls, mods, powerful);
      ReportsBlockStep(cb, k, mods, powerful);
      out, evaluated := out + o, evaluated + e;
      MulStep(k, |ls|);
    }
    assert cb[..|cs|] == cb;
  }

  /** The gauntlets loop of `process` for one helmet: it emits the reports
      of the gauntlets block and evaluates `|G| * |C| * |L|` combinations. */
  method ProcessGauntlets(h: Armor, gs: seq<Armor>, cs: seq<Armor>, ls: seq<Armor>, mods: int, powerful: int)
    returns (out: seq<Bundle>, evaluated: nat)
    ensures out == Reports(Flatten(GauntletBlocks(h, gs, cs, ls)), mods, powerful)
    ensures evaluated == |gs| * (|cs| * |ls|)
  {
    var gb := GauntletBlocks(h, gs, cs, ls);
    out, evaluated := [], 0;
    for j := 0 to |gs|
      invariant out == Reports(Flatten(gb[..j]), mods, powerful)
      invariant evaluated == j * (|cs| * |ls|)
    {
      var o, e := ProcessChests(h, gs[j], cs, ls, mods, powerful);
      ReportsBlockStep(gb, j, mods, powerful);
      out, evaluated := out + o, evaluated + e;
      MulStep(j, |cs| * |ls|);
    }
    assert gb[..|gs|] == gb;
  }

  /** `process` (main.go:212-242): four nested loops over the buckets,
      helmet outermost and legs innermost. It emits exactly the search
      output and evaluates every combination once. */
  method Process(gear: Organized, mods: int, powerful: int) returns (out: seq<Bundle>, evaluated: nat)
    ensures out == Search(gear, mods, powerful)
    ensures evaluated == Count(gear)
  {
    var hs, gs, cs, ls := gear.helmets, gear.gauntlets, gear.chests, gear.legs;
    var hb := HelmetBlocks(gear);
    out, evaluated := [], 0;
    for i := 0 to |hs|
      invariant out == Reports(Flatten(hb[..i]), mods, powerful)
      invariant evaluated == i * (|gs| * (|cs| * |ls|))
    {
      var o, e := ProcessGauntlets(hs[i], gs, cs, ls, mods, powerful);
      ReportsBlockStep(hb, i, mods, powerful);
      out, evaluated := out + o, evaluated + e;
      MulStep(i, |gs| * (|cs| * |ls|));
    }
    assert hb[..|hs|] == hb;
  }
}
