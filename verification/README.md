# d2blacksmith armour search, modelled in Dafny

d2blacksmith reads a player's armour inventory and searches every combination
of one helmet, one pair of gauntlets, one chest piece and one pair of leg
armour. For each combination it adds up the six stats (mobility, resilience,
recovery, discipline, intellect, strength). It then computes:

- the **tier**: the sum of each stat divided by ten, plus the flat bonuses
  from stat mods and powerful-friends mods;
- the **overflow**: the sum of the six remainders modulo ten.

It prints a combination when its overflow is at most 9 and its tier is at
least 38, or when its tier is at least 40.

The model covers the engine in `main.go`:

- `gear.dfy` (module `Gear`): the armour record, stat access, and ASCII
  lower-casing.
- `classify.dfy` (module `Classify`): `organize`. It keeps the pieces of the
  selected class and sorts them into the four slot buckets. Class items are
  dropped. An unknown type aborts the run; the model returns the outcome
  `Corrupted` for this.
- `statmath.dfy` (module `StatMath`): `modulus`, `sum` and `overflow`. Go's
  truncating `/` and `%` are written out as `GoQuo` and `GoRem`, so these
  functions are defined on every integer, as in Go.
- `analysis.dfy` (module `Analysis`): the totals record `process` builds,
  the fields `analyze` fills in, and its report decision, which includes the
  empty traction branch.
- `search.dfy` (module `Search`): `process`.
  - Its four nested loops are four methods, one per loop level.
  - The search is specified as the reports over `Tuples`, the combinations in
    loop order.
  - `Tuples` is proved equal to `CrossProduct`, an independent mixed-radix
    definition of the cross product.
  - "Printing" a bundle is modelled as appending it to the output sequence.

The program's globals `guardianFlag`, `modsFlag` and `powerfulFlag` are
explicit parameters (`selector`, `mods`, `powerful`). `main` rejects only
`mods > 5` and `powerful > 2`; it sets no lower bound. So the model places no
precondition on them.

The model follows the code on the bonuses and thresholds:

- `masterworkFlag` is parsed (main.go:16, 29), but `analyze` never reads it;
- `analyze` adds `powerfulFlag` to the tier once, like `modsFlag` (main.go:198);
- the report thresholds 9, 38 and 40 are hard-coded (main.go:201-203).

## Model

| member | source | states |
|---|---|---|
| Gear.ToLowerIsLower | main.go:76 | lower-casing a class name gives a lower-case string and is idempotent; a string is lower-case exactly when lower-casing leaves it unchanged |
| Classify.Organize | main.go:73-96 | the classifier succeeds exactly when every piece of the selected class has a known type; then each bucket is exactly the selected-class pieces of that slot, in input order |
| Classify.OrganizeLoop | main.go:73-96 | the single-pass loop that appends to buckets and stops at the first corrupt piece returns the same outcome as the fold `Organize` |
| Classify.Partition | main.go:75-91 | a successful classification partitions the input: the four buckets plus the discarded pieces equal the input as a multiset |
| Classify.IgnoredPiece | main.go:76-87 | inserting a piece of another class, or a class item, anywhere in the input leaves the outcome unchanged, even when its type is unknown |
| Classify.UnloweredSelector | main.go:76 | a selector that is not lower-case matches no piece, so every bucket is empty and no error is raised |
| StatMath.TruncatedDivision | main.go:124 | Go's truncated quotient and remainder recombine to the dividend; the remainder is smaller than the divisor in magnitude and has the dividend's sign; on non-negative dividends they agree with Euclidean division |
| StatMath.Modulus | main.go:123-126 | the remainder lies in [-9, 9], and in [0, 9] with `stat == 10*(stat/10) + val` for non-negative stats; it is flagged low exactly when it is below 5 |
| StatMath.RemaindersOf | main.go:190-197 | each of the six remainders is `modulus` of the matching stat |
| StatMath.Sum | main.go:128-136 | on non-negative stats the base tier is non-negative and equals the sum of each stat divided by ten |
| StatMath.Overflow | main.go:138-146 | with all six remainders in [0, 9] the overflow is in [0, 54] |
| StatMath.TiersAndOverflow | main.go:123-146 | ten times the base tier plus the overflow equals the stat total, for every totals record including negative stats |
| StatMath.OverflowBounds | main.go:138-146 | on non-negative totals every remainder is in [0, 9] and the overflow is in [0, 54] |
| StatMath.NegativeStatRemainder | main.go:124 | on a negative stat Go's remainder differs from the mathematical one: -1 gives -1, flagged low, where Euclidean modulo gives 9 |
| Analysis.Aggregate | main.go:222-230 | each totals stat is the sum of that stat over the four pieces; text fields are empty; the stat total is additive; non-negative pieces give non-negative totals |
| Analysis.Analyze | main.go:189-199 | totals and pieces are unchanged; each remainder belongs to its stat; `10*(tier - mods - powerful) + over` equals the stat total; on non-negative totals the overflow is in [0, 54] and the unadjusted tier is the sum of stat/10 |
| Analysis.Emit | main.go:201-209 | the bundle is emitted exactly when overflow <= 9 and tier >= 38, or tier >= 40; otherwise nothing is emitted, including through the traction branch |
| Analysis.ReportBoundaries | main.go:201-204 | (9, 38) is reported and (10, 39) is not; tier 37 is never reported and tier 40 always is |
| Analysis.ReportMonotone | main.go:201-204 | lowering the overflow or raising the tier never withdraws a report |
| Analysis.ReportByStatTotal | main.go:189-204 | for non-negative pieces, a stat total of at least 454 - 10*(mods+powerful) is always reported, and one below 380 - 10*(mods+powerful) never is |
| Analysis.ReportedExample | main.go:189-204 | totals 100/100/80/50/30/29 give tier 38 and overflow 9, and are reported |
| Analysis.DiscardedExample | main.go:189-204 | totals 100/100/79/50/30/29 give tier 37 and overflow 18, and are not reported |
| Search.TuplesCount | main.go:218-221 | the nested loops visit exactly as many combinations as the product of the four bucket sizes |
| Search.TupleAt | main.go:218-221 | the combination (helmet a, gauntlets b, chest c, legs d) is visited at mixed-radix position `((a*nG + b)*nC + c)*nL + d`, where nG, nC and nL are the gauntlets, chest and legs bucket sizes |
| Search.PositionOrder | main.go:218-221 | visiting order is lexicographic in (helmet, gauntlets, chest, legs), in both directions |
| Search.TuplesAreCrossProduct | main.go:218-241 | the loop order equals the explicit cross product defined by div/mod digits |
| Search.TuplesMembers | main.go:218-221 | a combination is visited exactly when each of its pieces is in its bucket |
| Search.ReportsMembers | main.go:237 | a bundle is emitted from a list of combinations exactly when it is the evaluation of one of them and passes the report predicate |
| Search.ReportsLength | main.go:237 | at most one bundle per combination is emitted, and exactly one each when every combination is reported |
| Search.SearchIsFilteredCrossProduct | main.go:212-242 | the search output is the filtered explicit cross product; it has at most `Count` bundles, and exactly `Count` when all are reported |
| Search.SearchMembers | main.go:212-242 | a bundle is in the output exactly when its four pieces come from the four buckets and it is their evaluation and passes the report predicate |
| Search.SearchTotals | main.go:222-237 | every emitted bundle's pieces come from the buckets, its totals are the per-stat sums of its pieces, and it passes the report predicate |
| Search.ProcessLegs | main.go:221-238 | the legs loop emits the reports of its row in order and evaluates each legs piece once |
| Search.ProcessChests | main.go:220-239 | the chest loop emits the reports of its block and evaluates nC*nL combinations (chest bucket size times legs bucket size) |
| Search.ProcessGauntlets | main.go:219-240 | the gauntlets loop emits the reports of its block and evaluates nG*nC*nL combinations |
| Search.Process | main.go:212-242 | `process` emits exactly the search output, in loop order, and evaluates every combination once |

## Left out

- Flag parsing and validation (main.go:13-36, 244-287) are not modelled. The selector, `mods` and `powerful` are parameters. `main` lower-cases the selector; `Classify.UnloweredSelector` covers a selector that is not lower-case.
- CSV reading (`reader`, main.go:58-71) is I/O. The model starts from a sequence of armour records.
- Output formatting is not modelled: `parse`, `printStats`, `printStatsFull`, JSON output, the greeting line, and the error message before `os.Exit(1)`. Emitting a bundle is modelled as appending it to the output; exiting is modelled as the outcome `Corrupted`.
- `traction` (main.go:183-187) is never called, because its call in `analyze` is commented out. Its branch in `Emit` emits nothing.
- Shared references are not modelled: Go's slices of `*armor`, and bundles that refer to the same pieces, are plain values here. Nothing in the core mutates a piece, so the sharing makes no difference.
- Go's fixed-width `int` wrap-around is not modelled; stats are unbounded integers.
- Gear.ToLowerIsLower: `strings.ToLower` is modelled for ASCII letters only. Unicode case mapping is not modelled.
- StatMath.Sum: its closed form (each stat divided by ten) is stated for non-negative stats only. For negative stats, `StatMath.TiersAndOverflow` relates it to the stat total.
- Search.ProcessLegs builds the totals record through `Analysis.Aggregate`, whose contract gives the per-stat sums that main.go:222-230 writes inline. It does not repeat the six field additions itself.
