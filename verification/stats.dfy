/** The base-stats panel of `components/PokemonStats.tsx`: the six displayed
    stats with the primary/alternate fallback for the two special stats, and
    the total shown beneath them. */
module PokemonStats {
  import opened Options
  import opened PokemonTypes

  datatype DisplayedStat = DisplayedStat(name: string, value: int, color: string)

  const StatNames: seq<string> := ["HP", "Attack", "Defense", "Special Attack", "Special Defense", "Speed"]

  /** `primary || alternate || 0`: the first field that is present and non-zero. */
  function Fallback(primary: Option<int>, alternate: Option<int>): (v: int)
    ensures primary.Some? && primary.value != 0 ==> v == primary.value
    ensures v != 0 ==> primary == Some(v) || alternate == Some(v)
    ensures v == 0 <==> (primary.None? || primary.value == 0) && (alternate.None? || alternate.value == 0)
  {
    if primary.Some? && primary.value != 0 then primary.value
    else if alternate.Some? && alternate.value != 0 then alternate.value
    else 0
  }

  /** The six rows of the panel, in display order. */
  function DisplayedStats(s: StatBlock): (r: seq<DisplayedStat>)
    ensures |r| == 6
    ensures forall i :: 0 <= i < 6 ==> r[i].name == StatNames[i]
    ensures r[0].value == s.hp && r[1].value == s.attack && r[2].value == s.defense && r[5].value == s.speed
    ensures r[3].value == Fallback(s.specialAttack, s.specialAttackAlt)
    ensures r[4].value == Fallback(s.specialDefense, s.specialDefenseAlt)
  {
    [ DisplayedStat("HP", s.hp, "bg-green-500"),
      DisplayedStat("Attack", s.attack, "bg-red-500"),
      DisplayedStat("Defense", s.defense, "bg-blue-500"),
      DisplayedStat("Special Attack", Fallback(s.specialAttack, s.specialAttackAlt), "bg-purple-500"),
      DisplayedStat("Special Defense", Fallback(s.specialDefense, s.specialDefenseAlt), "bg-indigo-500"),
      DisplayedStat("Speed", s.speed, "bg-yellow-500") ]
  }

  function Present(o: Option<int>): seq<int> {
    match o
    case Some(v) => [v]
    case None => []
  }

  function OrZero(o: Option<int>): int {
    match o
    case Some(v) => v
    case None => 0
  }

  /** `Object.values(stats)`: every field that is present, in declaration order. */
  function StatValues(s: StatBlock): seq<int> {
    [s.hp, s.attack, s.defense] + Present(s.specialAttack) + Present(s.specialDefense)
      + Present(s.specialAttackAlt) + Present(s.specialDefenseAlt) + [s.speed]
  }

  /** `reduce((a, b) => a + b, 0)`. */
  function Sum(xs: seq<int>): int {
    if xs == [] then 0 else xs[0] + Sum(xs[1..])
  }

  /** The total shown under the panel. */
  function Total(s: StatBlock): int {
    Sum(StatValues(s))
  }

  /** The sum of the six displayed values. */
  function DisplayedSum(s: StatBlock): int {
    var r := DisplayedStats(s);
    r[0].value + r[1].value + r[2].value + r[3].value + r[4].value + r[5].value
  }

  lemma {:induction false} SumConcat(a: seq<int>, b: seq<int>)
    ensures Sum(a + b) == Sum(a) + Sum(b)
  {
    if a == [] {
      assert a + b == b;
    } else {
      assert (a + b)[1..] == a[1..] + b;
      SumConcat(a[1..], b);
    }
  }

  /** The total adds up every field present in the record, whichever schema it came from. */
  lemma TotalOfFields(s: StatBlock)
    ensures Total(s) == s.hp + s.attack + s.defense + s.speed
      + OrZero(s.specialAttack) + OrZero(s.specialDefense)
      + OrZero(s.specialAttackAlt) + OrZero(s.specialDefenseAlt)
  {
    var a := [s.hp, s.attack, s.defense];
    var b := Present(s.specialAttack);
    var c := Present(s.specialDefense);
    var d := Present(s.specialAttackAlt);
    var e := Present(s.specialDefenseAlt);
    SumConcat(a, b);
    SumConcat(a + b, c);
    SumConcat(a + b + c, d);
    SumConcat(a + b + c + d, e);
    SumConcat(a + b + c + d + e, [s.speed]);
    assert Sum(a) == s.hp + s.attack + s.defense by {
      assert a[1..] == [s.attack, s.defense] && a[1..][1..] == [s.defense];
      assert a[1..][1..][1..] == [];
      assert Sum([s.defense]) == s.defense;
      assert Sum([s.attack, s.defense]) == s.attack + s.defense;
    }
    PresentSum(s.specialAttack);
    PresentSum(s.specialDefense);
    PresentSum(s.specialAttackAlt);
    PresentSum(s.specialDefenseAlt);
  }

  lemma PresentSum(o: Option<int>)
    ensures Sum(Present(o)) == OrZero(o)
  {
    if o.Some? {
      assert Present(o)[1..] == [];
    }
  }

  /** When each special stat arrives under exactly one of its two names, the
      total is the sum of the six displayed values. */
  lemma TotalMatchesDisplayed(s: StatBlock)
    requires s.specialAttack.Some? != s.specialAttackAlt.Some?
    requires s.specialDefense.Some? != s.specialDefenseAlt.Some?
    ensures Total(s) == DisplayedSum(s)
  {
    TotalOfFields(s);
  }

  /** When a special stat arrives under both names, the total counts both while
      the panel shows one: the total exceeds the displayed sum by the hidden field. */
  lemma TotalCountsBothNames(s: StatBlock)
    requires s.specialAttack.Some? && s.specialAttackAlt.Some?
    requires s.specialDefense.Some? != s.specialDefenseAlt.Some?
    ensures s.specialAttack.value != 0 ==> Total(s) == DisplayedSum(s) + s.specialAttackAlt.value
    ensures s.specialAttack.value == 0 ==> Total(s) == DisplayedSum(s)
  {
    TotalOfFields(s);
  }
}
