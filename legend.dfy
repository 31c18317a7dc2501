/** The legend control: a hand-written table of (colour, "lo–hi") rows that
    mirrors the thresholds of `color(y)`, and the HTML that `legend.onAdd` builds
    from it by appending one swatch per row to a heading. */
module Legend {
  import opened Text
  import opened Decimal
  import opened Period

  datatype LegendRow = LegendRow(colour: string, caption: string)

  /** The en dash between the two years of a caption. */
  const EnDash: char := '\U{2013}'

  /** The `rows` table, most recent period first. */
  const Rows: seq<LegendRow> := [
    LegendRow("#e63946", "2025\U{2013}2026"),
    LegendRow("#457b9d", "2022\U{2013}2024"),
    LegendRow("#2a9d8f", "2018\U{2013}2021"),
    LegendRow("#e9c46a", "2014\U{2013}2017"),
    LegendRow("#8d99ae", "2011\U{2013}2013")
  ]

  const Heading := "<strong>Period</strong><br>"
  const SwatchOpen := "<i style=\"background:"
  /** What follows the colour and its ';' in a swatch, up to the caption. */
  const SwatchStyle := "width:12px;height:12px;display:inline-block;border-radius:50%;margin-right:6px\"></i> "

  /** One legend entry: a round swatch of the row's colour, then its caption, then a line break. */
  function Swatch(r: LegendRow): string {
    SwatchOpen + r.colour + ";" + SwatchStyle + r.caption + "<br>"
  }

  /** The swatches of `rows`, in row order. */
  function Entries(rows: seq<LegendRow>): string {
    if rows == [] then [] else Swatch(rows[0]) + Entries(rows[1..])
  }

  /** The `innerHTML` of the legend. */
  function LegendHtml(rows: seq<LegendRow>): string {
    Heading + Entries(rows)
  }

  lemma {:induction false} EntriesSnoc(rows: seq<LegendRow>, r: LegendRow)
    ensures Entries(rows + [r]) == Entries(rows) + Swatch(r)
  {
    if rows == [] {
      AppendEmpty(rows + [r]);
      AppendEmpty([r]);
      AppendEmpty(Swatch(r));
    } else {
      TailOfAppend(rows, [r]);
      EntriesSnoc(rows[1..], r);
      AppendAssoc(Swatch(rows[0]), Entries(rows[1..]), Swatch(r));
    }
  }

  lemma EntriesPrefixStep(rows: seq<LegendRow>, i: nat)
    requires i < |rows|
    ensures Heading + Entries(rows[..i + 1]) == Heading + Entries(rows[..i]) + Swatch(rows[i])
  {
    PrefixSnoc(rows, i);
    EntriesSnoc(rows[..i], rows[i]);
  }

  /** The `rows.forEach` loop that appends each row's swatch to `html`. */
  method BuildLegend(rows: seq<LegendRow>) returns (html: string)
    ensures html == LegendHtml(rows)
  {
    html := Heading;
    for i := 0 to |rows|
      invariant html == Heading + Entries(rows[..i])
    {
      EntriesPrefixStep(rows, i);
      html := html + Swatch(rows[i]);
    }
    assert rows[..|rows|] == rows;
  }

  /** Rows that the legend HTML can be read back into: a colour without ';'
      and a caption without '<'. */
  predicate Readable(r: LegendRow) {
    ';' !in r.colour && '<' !in r.caption
  }

  /** Reads what follows a swatch's colour: the fixed style, then the caption,
      which ends at the next '<', then the line break. */
  function ParseSwatchTail(s: string): (r: Option<(string, string)>)
    ensures r.Some? ==> |r.value.1| < |s|
  {
    match StripPrefix(s, SwatchStyle)
    case None => None
    case Some(s1) =>
      match SplitAtFirst(s1, '<')
      case None => None
      case Some((caption, s2)) =>
        match StripPrefix(s2, "br>")
        case None => None
        case Some(rest) => Some((caption, rest))
  }

  /** Reads one swatch off the front of `s`: the colour ends at the first ';',
      then comes the rest of the swatch. */
  function ParseSwatch(s: string): (r: Option<(LegendRow, string)>)
    ensures r.Some? ==> |r.value.1| < |s|
  {
    match StripPrefix(s, SwatchOpen)
    case None => None
    case Some(s1) =>
      match SplitAtFirst(s1, ';')
      case None => None
      case Some((colour, s2)) =>
        match ParseSwatchTail(s2)
        case None => None
        case Some((caption, rest)) => Some((LegendRow(colour, caption), rest))
  }

  function ParseEntries(s: string): Option<seq<LegendRow>>
    decreases |s|
  {
    if s == [] then Some([])
    else match ParseSwatch(s)
      case None => None
      case Some((r, rest)) =>
        match ParseEntries(rest)
        case None => None
        case Some(rows) => Some([r] + rows)
  }

  /** Reads legend HTML back into the rows it shows. */
  function ParseLegend(html: string): Option<seq<LegendRow>> {
    match StripPrefix(html, Heading)
    case None => None
    case Some(rest) => ParseEntries(rest)
  }

  lemma SwatchTailRoundTrip(caption: string, rest: string)
    requires '<' !in caption
    ensures ParseSwatchTail(SwatchStyle + caption + "<br>" + rest) == Some((caption, rest))
  {
    var tail := "br>" + rest;
    assert "<br>" == ['<'] + "br>";
    assert SwatchStyle + caption + "<br>" + rest == SwatchStyle + (caption + ['<'] + tail);
    StripPrefixOf(SwatchStyle, caption + ['<'] + tail);
    SplitAtFirstOf(caption, '<', tail);
    StripPrefixOf("br>", rest);
  }

  lemma SwatchRoundTrip(r: LegendRow, rest: string)
    requires Readable(r)
    ensures ParseSwatch(Swatch(r) + rest) == Some((r, rest))
  {
    var afterColour := SwatchStyle + r.caption + "<br>" + rest;
    assert Swatch(r) + rest == SwatchOpen + r.colour + ";" + afterColour;
    assert Swatch(r) + rest == SwatchOpen + (r.colour + [';'] + afterColour);
    StripPrefixOf(SwatchOpen, r.colour + [';'] + afterColour);
    SplitAtFirstOf(r.colour, ';', afterColour);
    SwatchTailRoundTrip(r.caption, rest);
  }

  lemma EntriesStep(rows: seq<LegendRow>)
    requires rows != [] && Readable(rows[0])
    ensures ParseEntries(Entries(rows)) ==
      match ParseEntries(Entries(rows[1..]))
      case None => None
      case Some(rs) => Some([rows[0]] + rs)
  {
    SwatchRoundTrip(rows[0], Entries(rows[1..]));
  }

  /** Every row is Readable, stated row by row from the front. */
  predicate AllReadable(rows: seq<LegendRow>) {
    rows == [] || (Readable(rows[0]) && AllReadable(rows[1..]))
  }

  lemma {:induction false} AllReadableOf(rows: seq<LegendRow>)
    requires forall i :: 0 <= i < |rows| ==> Readable(rows[i])
    ensures AllReadable(rows)
  {
    if rows != [] {
      assert forall i :: 0 <= i < |rows[1..]| ==> rows[1..][i] == rows[i + 1];
      AllReadableOf(rows[1..]);
    }
  }

  lemma {:induction false} EntriesRoundTrip(rows: seq<LegendRow>)
    requires AllReadable(rows)
    ensures ParseEntries(Entries(rows)) == Some(rows)
  {
    if rows != [] {
      EntriesStep(rows);
      EntriesRoundTrip(rows[1..]);
      HeadTail(rows);
    }
  }

  /** When no colour holds ';' and no caption holds '<', the legend shows
      exactly the rows it was built from, once each, in order. */
  lemma LegendRoundTrip(rows: seq<LegendRow>)
    requires forall i :: 0 <= i < |rows| ==> Readable(rows[i])
    ensures ParseLegend(LegendHtml(rows)) == Some(rows)
  {
    StripPrefixOf(Heading, Entries(rows));
    AllReadableOf(rows);
    EntriesRoundTrip(rows);
  }

  /** No colour of the table holds ';' and no caption holds '<'. */
  lemma RowsReadable()
    ensures forall i :: 0 <= i < |Rows| ==> Readable(Rows[i])
  {
  }

  /** The legend the page builds reads back into exactly its five rows. */
  lemma RowsRoundTrip()
    ensures ParseLegend(LegendHtml(Rows)) == Some(Rows)
  {
    RowsReadable();
    LegendRoundTrip(Rows);
  }

  /** The years a caption "lo–hi" names, if it has that form. */
  function CaptionRange(caption: string): Option<(int, int)> {
    match SplitAtFirst(caption, EnDash)
    case None => None
    case Some((a, b)) =>
      match (DigitsValue(a), DigitsValue(b))
      case (Some(lo), Some(hi)) => Some((lo, hi))
      case _ => None
  }

  /** `y` lies in the period a row's caption names. */
  predicate InRow(r: LegendRow, y: int) {
    match CaptionRange(r.caption)
    case None => false
    case Some((lo, hi)) => lo <= y <= hi
  }

  lemma CaptionOf(lo: nat, hi: nat, caption: string)
    requires caption == Digits(lo) + [EnDash] + Digits(hi)
    ensures CaptionRange(caption) == Some((lo, hi))
  {
    SplitAtFirstOf(Digits(lo), EnDash, Digits(hi));
    DigitsRoundTrip(lo);
    DigitsRoundTrip(hi);
  }

  lemma Row0Range()
    ensures CaptionRange(Rows[0].caption) == Some((2025, 2026))
  {
    assert Digits(20) == "20" && Digits(202) == "202";
    assert Digits(2025) == "2025" && Digits(2026) == "2026";
    CaptionOf(2025, 2026, Rows[0].caption);
  }

  lemma Row1Range()
    ensures CaptionRange(Rows[1].caption) == Some((2022, 2024))
  {
    assert Digits(20) == "20" && Digits(202) == "202";
    assert Digits(2022) == "2022" && Digits(2024) == "2024";
    CaptionOf(2022, 2024, Rows[1].caption);
  }

  lemma Row2Range()
    ensures CaptionRange(Rows[2].caption) == Some((2018, 2021))
  {
    assert Digits(20) == "20" && Digits(201) == "201";
    assert Digits(2018) == "2018" && Digits(2021) == "2021";
    CaptionOf(2018, 2021, Rows[2].caption);
  }

  lemma Row3Range()
    ensures CaptionRange(Rows[3].caption) == Some((2014, 2017))
  {
    assert Digits(20) == "20" && Digits(201) == "201";
    assert Digits(2014) == "2014" && Digits(2017) == "2017";
    CaptionOf(2014, 2017, Rows[3].caption);
  }

  lemma Row4Range()
    ensures CaptionRange(Rows[4].caption) == Some((2011, 2013))
  {
    assert Digits(20) == "20" && Digits(201) == "201";
    assert Digits(2011) == "2011" && Digits(2013) == "2013";
    CaptionOf(2011, 2013, Rows[4].caption);
  }

  /** The years branch `i` of the if-chain in `color` covers, bounded below by
      2011 and above by 2026: from its own threshold up to the year before the
      threshold of the branch above it. */
  function BranchPeriod(i: nat): (int, int)
    requires i < |Palette|
  {
    (if i < |Thresholds| then Thresholds[i] else 2011,
     if i == 0 then 2026 else Thresholds[i - 1] - 1)
  }

  /** Each hand-written caption names exactly the years of the branch at the
      same position. */
  lemma CaptionNamesBranch(i: nat)
    requires i < |Rows|
    ensures CaptionRange(Rows[i].caption) == Some(BranchPeriod(i))
  {
    if i == 0 {
      Row0Range();
    } else if i == 1 {
      Row1Range();
    } else if i == 2 {
      Row2Range();
    } else if i == 3 {
      Row3Range();
    } else {
      Row4Range();
    }
  }

  lemma InRowIff(i: nat, y: int)
    requires i < |Rows|
    ensures InRow(Rows[i], y) <==> InBranch(i, y)
  {
    CaptionNamesBranch(i);
  }

  predicate InBranch(i: nat, y: int)
    requires i < |Palette|
  {
    BranchPeriod(i).0 <= y <= BranchPeriod(i).1
  }

  /** The if-chain sends every year of branch `i`'s period to palette entry `i`. */
  lemma BranchColour(i: nat, y: int)
    requires i < |Palette| && InBranch(i, y)
    ensures Color(y) == Palette[i]
  {
  }

  lemma RowsListPalette()
    ensures |Rows| == |Palette|
    ensures forall i :: 0 <= i < |Rows| ==> Rows[i].colour == Palette[i]
  {
  }

  /** The legend agrees with `color`: its rows list the palette in the order of
      the if-chain, each row's period starts at that branch's threshold, and
      every year inside a row's period is classified to that row's colour. */
  lemma LegendAgreesWithColor()
    ensures |Rows| == |Palette|
    ensures forall i :: 0 <= i < |Rows| ==> Rows[i].colour == Palette[i]
    ensures forall i :: 0 <= i < |Thresholds| ==>
      CaptionRange(Rows[i].caption).Some? && CaptionRange(Rows[i].caption).value.0 == Thresholds[i]
    ensures forall i, y :: 0 <= i < |Rows| && InRow(Rows[i], y) ==> Color(y) == Rows[i].colour
  {
    RowsListPalette();
    forall i | 0 <= i < |Rows|
      ensures i < |Thresholds| ==>
        CaptionRange(Rows[i].caption).Some? && CaptionRange(Rows[i].caption).value.0 == Thresholds[i]
      ensures forall y :: InRow(Rows[i], y) ==> Color(y) == Rows[i].colour
    {
      CaptionNamesBranch(i);
      forall y | InRow(Rows[i], y) ensures Color(y) == Rows[i].colour {
        InRowIff(i, y);
        BranchColour(i, y);
      }
    }
  }

  /** The periods are consecutive and most recent first: each row's period ends
      the year before the previous row's begins. */
  lemma RowsDescend(i: nat)
    requires 0 < i < |Rows|
    ensures CaptionRange(Rows[i].caption).Some? && CaptionRange(Rows[i - 1].caption).Some?
    ensures CaptionRange(Rows[i].caption).value.1 + 1 == CaptionRange(Rows[i - 1].caption).value.0
  {
    CaptionNamesBranch(i);
    CaptionNamesBranch(i - 1);
  }

  /** The branch periods split 2011..2026 without gaps or overlaps. */
  lemma BranchesPartitionYears(y: int)
    ensures (exists i :: 0 <= i < |Palette| && InBranch(i, y)) <==> 2011 <= y <= 2026
    ensures forall i, j :: 0 <= i < |Palette| && 0 <= j < |Palette| && InBranch(i, y) && InBranch(j, y) ==> i == j
  {
    if 2011 <= y <= 2026 {
      var i := if y >= 2025 then 0 else if y >= 2022 then 1 else if y >= 2018 then 2 else if y >= 2014 then 3 else 4;
      assert InBranch(i, y);
    }
  }

  /** Each year from 2011 to 2026 lies in exactly one row's period, and no other
      year lies in any. */
  lemma RowsPartitionYears(y: int)
    ensures (exists i :: 0 <= i < |Rows| && InRow(Rows[i], y)) <==> 2011 <= y <= 2026
    ensures forall i, j :: 0 <= i < |Rows| && 0 <= j < |Rows| && InRow(Rows[i], y) && InRow(Rows[j], y) ==> i == j
  {
    RowsListPalette();
    forall i | 0 <= i < |Rows|
      ensures InRow(Rows[i], y) <==> InBranch(i, y)
    {
      InRowIff(i, y);
    }
    BranchesPartitionYears(y);
  }
}
