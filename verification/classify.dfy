/** The inventory classifier (`organize`, main.go:73-96): keeps the pieces of
    the selected class and routes each into one of four slot buckets by its
    type string, in input order; cosmetic class items are dropped and any
    other type aborts the run. */
module Classify {
  import opened Gear

  /** The four wearable slots the search combines. */
  datatype Slot = HelmetSlot | GauntletsSlot | ChestSlot | LegsSlot

  /** What the classifier does with a piece of the selected class. */
  datatype Route = Keep(slot: Slot) | Drop | Corrupt

  /** The four buckets, each in input order (main.go:51-56). */
  datatype Organized = Organized(
    helmets: seq<Armor>,
    gauntlets: seq<Armor>,
    chests: seq<Armor>,
    legs: seq<Armor>
  ) {
    /** The bucket that holds one slot. */
    function Bucket(slot: Slot): seq<Armor>
    {
      match slot
      case HelmetSlot => helmets
      case GauntletsSlot => gauntlets
      case ChestSlot => chests
      case LegsSlot => legs
    }

    /** Appends a piece to the bucket of one slot, leaving the others alone. */
    function Add(slot: Slot, piece: Armor): (r: Organized)
      ensures r.Bucket(slot) == Bucket(slot) + [piece]
      ensures forall other: Slot :: other != slot ==> r.Bucket(other) == Bucket(other)
    {
      match slot
      case HelmetSlot => this.(helmets := helmets + [piece])
      case GauntletsSlot => this.(gauntlets := gauntlets + [piece])
      case ChestSlot => this.(chests := chests + [piece])
      case LegsSlot => this.(legs := legs + [piece])
    }
  }

  /** The classifier either sorts the whole inventory or stops on a piece of
      the selected class whose type it does not know (main.go:88-90, where
      the program prints an error and exits with status 1). */
  datatype Outcome = Sorted(gear: Organized) | Corrupted

  const Empty := Organized([], [], [], [])

  /** Two organised inventories are equal when all four buckets are. */
  lemma BucketsDetermine(a: Organized, b: Organized)
    requires forall slot: Slot :: a.Bucket(slot) == b.Bucket(slot)
    ensures a == b
  {
    assert a.Bucket(HelmetSlot) == b.Bucket(HelmetSlot);
    assert a.Bucket(GauntletsSlot) == b.Bucket(GauntletsSlot);
    assert a.Bucket(ChestSlot) == b.Bucket(ChestSlot);
    assert a.Bucket(LegsSlot) == b.Bucket(LegsSlot);
  }

  /** The type strings of the source's switch (main.go:77-90). */
  function RouteOf(kind: string): Route
  {
    if kind == "Helmet" then Keep(HelmetSlot)
    else if kind == "Gauntlets" then Keep(GauntletsSlot)
    else if kind == "Chest Armor" then Keep(ChestSlot)
    else if kind == "Leg Armor" then Keep(LegsSlot)
    else if kind == "Titan Mark" || kind == "Hunter Cloak" || kind == "Warlock Bond" then Drop
    else Corrupt
  }

  /** A piece belongs to the selected class when its lower-cased class
      equals the selector; the selector itself is not lower-cased here
      (the program lower-cases it once, at main.go:253). */
  predicate Matches(piece: Armor, selector: string)
  {
    ToLower(piece.guardian) == selector
  }

  /** Every piece of the selected class has a known type. Pieces of other
      classes are never looked at, whatever their type. */
  predicate Clean(xs: seq<Armor>, selector: string)
  {
    forall p :: p in xs && Matches(p, selector) ==> RouteOf(p.kind) != Corrupt
  }

  /** Reference definition of a bucket: the pieces of the selected class
      whose type routes to `slot`, in input order. */
  function Pick(xs: seq<Armor>, selector: string, slot: Slot): seq<Armor>
  {
    if |xs| == 0 then []
    else
      var p := xs[|xs| - 1];
      Pick(xs[..|xs| - 1], selector, slot)
      + (if Matches(p, selector) && RouteOf(p.kind) == Keep(slot) then [p] else [])
  }

  /** The pieces the classifier discards without error: other classes and
      the three cosmetic class items. */
  function Dropped(xs: seq<Armor>, selector: string): seq<Armor>
  {
    if |xs| == 0 then []
    else
      var p := xs[|xs| - 1];
      Dropped(xs[..|xs| - 1], selector)
      + (if !Matches(p, selector) || RouteOf(p.kind) == Drop then [p] else [])
  }

  /** One iteration of the classifier's loop (main.go:76-91). */
  function Place(gear: Organized, piece: Armor, selector: string): Outcome
  {
    if !Matches(piece, selector) then Sorted(gear)
    else match RouteOf(piece.kind)
      case Keep(slot) => Sorted(gear.Add(slot, piece))
      case Drop => Sorted(gear)
      case Corrupt => Corrupted
  }

  /** The classifier, as a fold over the input from first to last piece.
      It succeeds exactly when every piece of the selected class has a
      known type, and then each bucket holds exactly the pieces of the
      selected class of that slot, in input order. */
  function Organize(xs: seq<Armor>, selector: string): (r: Outcome)
    ensures r.Sorted? <==> Clean(xs, selector)
    ensures r.Sorted? ==> forall slot: Slot :: r.gear.Bucket(slot) == Pick(xs, selector, slot)
  {
    if |xs| == 0 then Sorted(Empty)
    else
      var init := xs[..|xs| - 1];
      assert xs == init + [xs[|xs| - 1]];
      match Organize(init, selector)
      case Corrupted => Corrupted
      case Sorted(gear) => Place(gear, xs[|xs| - 1], selector)
  }

  /** The classifier's loop as the source writes it: a single pass that
      appends to the buckets and stops at the first corrupt piece. */
  method OrganizeLoop(xs: seq<Armor>, selector: string) returns (r: Outcome)
    ensures r == Organize(xs, selector)
  {
    var gear := Empty;
    var i := 0;
    while i < |xs|
      invariant 0 <= i <= |xs|
      invariant Organize(xs[..i], selector) == Sorted(gear)
    {
      var piece := xs[i];
      assert xs[..i + 1][..i] == xs[..i];
      if ToLower(piece.guardian) == selector {
        match RouteOf(piece.kind)
        case Keep(slot) =>
          gear := gear.Add(slot, piece);
        case Drop =>
        case Corrupt =>
          assert piece in xs[..i + 1];
          assert xs[..i + 1] <= xs;
          return Corrupted;
      }
      i := i + 1;
    }
    assert xs[..i] == xs;
    r := Sorted(gear);
  }

  /** Pick and Dropped distribute over concatenation. */
  lemma {:induction false} PickAppend(a: seq<Armor>, b: seq<Armor>, selector: string)
    ensures forall slot: Slot :: Pick(a + b, selector, slot) == Pick(a, selector, slot) + Pick(b, selector, slot)
    ensures Dropped(a + b, selector) == Dropped(a, selector) + Dropped(b, selector)
    decreases |b|
  {
    if |b| == 0 {
      assert a + b == a;
    } else {
      var b' := b[..|b| - 1];
      assert (a + b)[..|a + b| - 1] == a + b';
      assert (a + b)[|a + b| - 1] == b[|b| - 1];
      PickAppend(a, b', selector);
    }
  }

  /** A successful classification partitions the input: the four buckets
      and the dropped pieces together are the input, as a multiset. */
  lemma {:induction false} Partition(xs: seq<Armor>, selector: string)
    requires Organize(xs, selector).Sorted?
    ensures var g := Organize(xs, selector).gear;
      multiset(g.helmets) + multiset(g.gauntlets) + multiset(g.chests) + multiset(g.legs)
      + multiset(Dropped(xs, selector)) == multiset(xs)
  {
    PartitionPick(xs, selector);
    var g := Organize(xs, selector).gear;
    assert g.helmets == Pick(xs, selector, HelmetSlot) == g.Bucket(HelmetSlot);
    assert g.gauntlets == Pick(xs, selector, GauntletsSlot) == g.Bucket(GauntletsSlot);
    assert g.chests == Pick(xs, selector, ChestSlot) == g.Bucket(ChestSlot);
    assert g.legs == Pick(xs, selector, LegsSlot) == g.Bucket(LegsSlot);
  }

  /** The partition, stated on the reference buckets. */
  lemma {:induction false} PartitionPick(xs: seq<Armor>, selector: string)
    requires Clean(xs, selector)
    ensures multiset(Pick(xs, selector, HelmetSlot)) + multiset(Pick(xs, selector, GauntletsSlot))
      + multiset(Pick(xs, selector, ChestSlot)) + multiset(Pick(xs, selector, LegsSlot))
      + multiset(Dropped(xs, selector)) == multiset(xs)
  {
    if |xs| > 0 {
      var init := xs[..|xs| - 1];
      var p := xs[|xs| - 1];
      assert xs == init + [p];
      assert Clean(init, selector);
      PartitionPick(init, selector);
      assert p in xs;
    }
  }

  /** A piece of another class, or a cosmetic class item, makes no
      difference to the classification, wherever it stands in the input:
      in particular a corrupt type on another class's piece causes no error. */
  lemma IgnoredPiece(a: seq<Armor>, x: Armor, b: seq<Armor>, selector: string)
    requires !Matches(x, selector) || RouteOf(x.kind) == Drop
    ensures Organize(a + [x] + b, selector) == Organize(a + b, selector)
  {
    IgnoredPieceClean(a, x, b, selector);
    var r, s := Organize(a + [x] + b, selector), Organize(a + b, selector);
    if r.Sorted? {
      IgnoredPiecePick(a, x, b, selector);
      BucketsDetermine(r.gear, s.gear);
    }
  }

  /** An ignored piece does not change whether the input is clean. */
  lemma IgnoredPieceClean(a: seq<Armor>, x: Armor, b: seq<Armor>, selector: string)
    requires !Matches(x, selector) || RouteOf(x.kind) == Drop
    ensures Clean(a + [x] + b, selector) <==> Clean(a + b, selector)
  {
    var with, without := a + [x] + b, a + b;
    assert forall p :: p in with <==> p in without || p == x;
  }

  /** An ignored piece does not change any reference bucket. */
  lemma IgnoredPiecePick(a: seq<Armor>, x: Armor, b: seq<Armor>, selector: string)
    requires !Matches(x, selector) || RouteOf(x.kind) == Drop
    ensures forall slot: Slot :: Pick(a + [x] + b, selector, slot) == Pick(a + b, selector, slot)
  {
    PickAppend(a + [x], b, selector);
    PickAppend(a, [x], selector);
    PickAppend(a, b, selector);
    assert [x][..0] == [];
  }

  /** No piece can match a selector that is not lower-case, so such a
      selector yields four empty buckets and never an error. */
  lemma UnloweredSelector(xs: seq<Armor>, selector: string)
    requires !IsLower(selector)
    ensures Organize(xs, selector) == Sorted(Empty)
  {
    forall p | p in xs
      ensures !Matches(p, selector)
    {
      ToLowerIsLower(p.guardian);
    }
    NothingMatches(xs, selector);
    var r := Organize(xs, selector);
    BucketsDetermine(r.gear, Empty);
  }

  /** When no piece matches, every bucket is empty. */
  lemma {:induction false} NothingMatches(xs: seq<Armor>, selector: string)
    requires forall p :: p in xs ==> !Matches(p, selector)
    ensures forall slot: Slot :: Pick(xs, selector, slot) == []
  {
    if |xs| > 0 {
      var init := xs[..|xs| - 1];
      assert xs == init + [xs[|xs| - 1]];
      NothingMatches(init, selector);
    }
  }
}
