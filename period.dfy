/** The year-to-colour classification `color(y)`: a step function over integer
    years whose thresholds are tested from the most recent down, each lower bound
    inclusive, the first match winning. */
module Period {

  const Crimson := "#e63946"
  const SteelBlue := "#457b9d"
  const Teal := "#2a9d8f"
  const Saffron := "#e9c46a"
  const Slate := "#8d99ae"

  /** The five fill colours in the order the if-chain returns them, most recent first. */
  const Palette: seq<string> := [Crimson, SteelBlue, Teal, Saffron, Slate]

  /** The lower bounds tested by the if-chain, in the order it tests them; a year
      below all of them falls to the last colour. */
  const Thresholds: seq<int> := [2025, 2022, 2018, 2014]

  function Color(y: int): (c: string)
    ensures c in Palette
  {
    if y >= 2025 then Crimson
    else if y >= 2022 then SteelBlue
    else if y >= 2018 then Teal
    else if y >= 2014 then Saffron
    else Slate
  }

  /** The position of a palette colour in the if-chain: 0 for the most recent
      period, 4 for the oldest. */
  function Rank(c: string): (i: nat)
    requires c in Palette
    ensures i < |Palette| && Palette[i] == c
    ensures forall j :: 0 <= j < |Palette| && Palette[j] == c ==> j == i
  {
    if c == Crimson then 0
    else if c == SteelBlue then 1
    else if c == Teal then 2
    else if c == Saffron then 3
    else 4
  }

  /** How many thresholds lie strictly above `y`: the number of tests of a
      descending chain that `y` fails before the first one it passes. */
  function CountAbove(ts: seq<int>, y: int): (k: nat)
    ensures k <= |ts|
  {
    if ts == [] then 0
    else (if y < ts[0] then 1 else 0) + CountAbove(ts[1..], y)
  }

  /** The classification read off the table rather than the if-chain: the colour
      of the band whose lower bound is the first threshold `y` reaches. */
  function TableColor(y: int): (c: string)
    ensures c in Palette
  {
    Palette[CountAbove(Thresholds, y)]
  }

  /** The if-chain and the threshold table classify every year alike. */
  lemma ColorMatchesTable(y: int)
    ensures Color(y) == TableColor(y)
  {
    var t := Thresholds;
    var t1, t2, t3 := t[1..], t[1..][1..], t[1..][1..][1..];
    assert t1 == [2022, 2018, 2014] && t2 == [2018, 2014] && t3 == [2014] && t3[1..] == [];
    assert CountAbove(t3, y) == if y < 2014 then 1 else 0;
    assert CountAbove(t2, y) == (if y < 2018 then 1 else 0) + CountAbove(t3, y);
    assert CountAbove(t1, y) == (if y < 2022 then 1 else 0) + CountAbove(t2, y);
    assert CountAbove(t, y) == (if y < 2025 then 1 else 0) + CountAbove(t1, y);
  }

  /** The five bands, with each lower bound inclusive. */
  lemma ColorBands(y: int)
    ensures y >= 2025 ==> Color(y) == "#e63946"
    ensures 2022 <= y < 2025 ==> Color(y) == "#457b9d"
    ensures 2018 <= y < 2022 ==> Color(y) == "#2a9d8f"
    ensures 2014 <= y < 2018 ==> Color(y) == "#e9c46a"
    ensures y < 2014 ==> Color(y) == "#8d99ae"
  {
  }

  /** A later year never gets a colour of an older period. */
  lemma ColorMonotone(y1: int, y2: int)
    requires y1 <= y2
    ensures Rank(Color(y2)) <= Rank(Color(y1))
  {
  }

  /** The palette holds five distinct colours, so Rank is well defined. */
  lemma PaletteDistinct()
    ensures |Palette| == 5
    ensures forall i, j :: 0 <= i < j < |Palette| ==> Palette[i] != Palette[j]
  {
  }
}
