/** The armour record read from the inventory table (main.go:38-49) and the
    six stat dimensions it carries, plus the ASCII lower-casing used to
    compare an item's class with the selected class. */
module Gear {

  /** One piece of armour. `kind` is the table's "Type" column, `guardian`
      its "Equippable" column (the class that can wear it). */
  datatype Armor = Armor(
    name: string,
    kind: string,
    rarity: string,
    guardian: string,
    mobility: int,
    resilience: int,
    recovery: int,
    discipline: int,
    intellect: int,
    strength: int
  )

  /** The six stat dimensions, in the order the source lists them. */
  datatype Stat = Mobility | Resilience | Recovery | Discipline | Intellect | Strength

  /** Reads one stat dimension of an armour record. */
  function Get(a: Armor, s: Stat): int
  {
    match s
    case Mobility => a.mobility
    case Resilience => a.resilience
    case Recovery => a.recovery
    case Discipline => a.discipline
    case Intellect => a.intellect
    case Strength => a.strength
  }

  /** The sum of all six stats of a record. */
  function StatTotal(a: Armor): int
  {
    a.mobility + a.resilience + a.recovery + a.discipline + a.intellect + a.strength
  }

  /** Stats read from the inventory table are never negative. */
  predicate NonNegative(a: Armor)
  {
    forall s: Stat :: Get(a, s) >= 0
  }

  /** Lower-cases one character; only the ASCII letters A-Z change. */
  function LowerChar(c: char): (r: char)
    ensures 'A' <= c <= 'Z' ==> 'a' <= r <= 'z' && r as int - c as int == 'a' as int - 'A' as int
    ensures !('A' <= c <= 'Z') ==> r == c
  {
    if 'A' <= c <= 'Z' then (c as int - 'A' as int + 'a' as int) as char else c
  }

  /** Lower-cases a string character by character (ASCII only). */
  function ToLower(s: string): (r: string)
    ensures |r| == |s|
    ensures forall i :: 0 <= i < |s| ==> r[i] == LowerChar(s[i])
  {
    if |s| == 0 then [] else ToLower(s[..|s| - 1]) + [LowerChar(s[|s| - 1])]
  }

  /** A string is lower-case when lower-casing leaves it alone. */
  predicate IsLower(s: string)
  {
    forall i :: 0 <= i < |s| ==> !('A' <= s[i] <= 'Z')
  }

  /** Lower-casing produces a lower-case string and is idempotent; a
      lower-case string is its own lower-casing. */
  lemma ToLowerIsLower(s: string)
    ensures IsLower(ToLower(s))
    ensures ToLower(ToLower(s)) == ToLower(s)
    ensures IsLower(s) <==> ToLower(s) == s
  {
    var t := ToLower(s);
    assert forall i :: 0 <= i < |s| ==> ToLower(t)[i] == t[i];
    if ToLower(s) == s {
      assert forall i :: 0 <= i < |s| ==> s[i] == LowerChar(s[i]);
    }
  }
}
