/** The `DOMContentLoaded` handler: unless the container or Leaflet is missing,
    it injects a style element, creates the map, adds one marker per record and
    adds the legend. Leaflet and the DOM are not modelled; the page records, in
    order, what the handler hands to them. */
module ConferenceMap {
  import opened Text
  import opened Period
  import opened Conferences
  import opened Markers
  import opened Legend

  /** One thing the handler leaves in the page. */
  datatype Effect =
    | StyleInjected
    | MapCreated
    | MarkerAdded(marker: Marker)
    | LegendAdded(html: string)

  function Added(ms: seq<Marker>): seq<Effect> {
    seq(|ms|, i requires 0 <= i < |ms| => MarkerAdded(ms[i]))
  }

  /** Everything a run of the handler does once its guard has passed, for a
      given record list and legend table. */
  function RenderingOf(records: seq<Conference>, rows: seq<LegendRow>): seq<Effect> {
    [StyleInjected, MapCreated] + Added(MarkersFor(records)) + [LegendAdded(LegendHtml(rows))]
  }

  /** The same, for the page's own records and legend. */
  function Rendering(): seq<Effect> {
    RenderingOf(Records, Rows)
  }

  /** What one run of the handler does, given whether the container element
      exists and whether `L` is defined. */
  function Run(hasContainer: bool, leafletDefined: bool): seq<Effect> {
    if hasContainer && leafletDefined then Rendering() else []
  }

  function MarkerCount(es: seq<Effect>): nat {
    if es == [] then 0 else (if es[0].MarkerAdded? then 1 else 0) + MarkerCount(es[1..])
  }

  function LegendCount(es: seq<Effect>): nat {
    if es == [] then 0 else (if es[0].LegendAdded? then 1 else 0) + LegendCount(es[1..])
  }

  lemma {:induction false} CountsAppend(a: seq<Effect>, b: seq<Effect>)
    ensures MarkerCount(a + b) == MarkerCount(a) + MarkerCount(b)
    ensures LegendCount(a + b) == LegendCount(a) + LegendCount(b)
  {
    if a == [] {
      assert a + b == b;
    } else {
      TailOfAppend(a, b);
      CountsAppend(a[1..], b);
    }
  }

  lemma {:induction false} CountsAdded(ms: seq<Marker>)
    ensures MarkerCount(Added(ms)) == |ms|
    ensures LegendCount(Added(ms)) == 0
  {
    if ms != [] {
      assert Added(ms)[1..] == Added(ms[1..]);
      CountsAdded(ms[1..]);
    }
  }

  /** A run that passes the guard injects one style element, creates one map,
      then adds one marker per record, in list order, and finally one legend. */
  lemma RenderingShape(records: seq<Conference>, rows: seq<LegendRow>)
    ensures |RenderingOf(records, rows)| == |records| + 3
    ensures RenderingOf(records, rows)[0] == StyleInjected && RenderingOf(records, rows)[1] == MapCreated
    ensures forall k :: 0 <= k < |records| ==> RenderingOf(records, rows)[k + 2] == MarkerAdded(MarkerFor(records[k]))
    ensures RenderingOf(records, rows)[|records| + 2] == LegendAdded(LegendHtml(rows))
    ensures MarkerCount(RenderingOf(records, rows)) == |records|
    ensures LegendCount(RenderingOf(records, rows)) == 1
  {
    var ms := Added(MarkersFor(records));
    CountsAppend([StyleInjected, MapCreated], ms);
    CountsAppend([StyleInjected, MapCreated] + ms, [LegendAdded(LegendHtml(rows))]);
    CountsAdded(MarkersFor(records));
    assert MarkerCount([StyleInjected, MapCreated]) == 0;
    assert LegendCount([StyleInjected, MapCreated]) == 0;
  }

  /** The guard: a missing container or a missing Leaflet makes the handler do
      nothing at all; with both present it does something. */
  lemma GuardIsNoOp(hasContainer: bool, leafletDefined: bool)
    ensures Run(hasContainer, leafletDefined) == [] <==> !hasContainer || !leafletDefined
  {
    RenderingShape(Records, Rows);
  }

  /** Every plotted record gets the colour of exactly one legend row: the row
      whose period contains the record's year. */
  lemma MarkersMatchLegend(k: nat)
    requires k < |Records|
    ensures exists i ::
      (0 <= i < |Rows| && InRow(Rows[i], Records[k].year) && MarkerFor(Records[k]).fill == Rows[i].colour)
    ensures forall i, j ::
      0 <= i < |Rows| && 0 <= j < |Rows| && InRow(Rows[i], Records[k].year) && InRow(Rows[j], Records[k].year)
      ==> i == j
  {
    var y := Records[k].year;
    RecordYears();
    RowsPartitionYears(y);
    LegendAgreesWithColor();
  }

  lemma AddedStep(records: seq<Conference>, i: nat)
    requires i < |records|
    ensures Added(MarkersFor(records[..i + 1])) == Added(MarkersFor(records[..i])) + [MarkerAdded(MarkerFor(records[i]))]
  {
    PrefixSnoc(records, i);
    MarkersForAppend(records[..i], [records[i]]);
  }

  lemma RenderingSteps(before: seq<Effect>, records: seq<Conference>, rows: seq<LegendRow>)
    ensures before + [StyleInjected] + [MapCreated] + Added(MarkersFor(records)) + [LegendAdded(LegendHtml(rows))]
         == before + RenderingOf(records, rows)
  {
  }

  /** The page the handler runs in, seen through what it has been handed. */
  class Page {
    var effects: seq<Effect>

    constructor ()
      ensures effects == []
    {
      effects := [];
    }

    /** The `C.forEach` loop: each record's marker is added to the map. */
    method PlotMarkers(records: seq<Conference>)
      modifies this
      ensures effects == old(effects) + Added(MarkersFor(records))
    {
      for i := 0 to |records|
        invariant effects == old(effects) + Added(MarkersFor(records[..i]))
      {
        AddedStep(records, i);
        effects := effects + [MarkerAdded(MarkerFor(records[i]))];
      }
      assert records[..|records|] == records;
    }

    /** The steps after the guard, over the given data. */
    method Render(records: seq<Conference>, rows: seq<LegendRow>)
      modifies this
      ensures effects == old(effects) + RenderingOf(records, rows)
    {
      ghost var before := effects;
      effects := effects + [StyleInjected];
      effects := effects + [MapCreated];
      PlotMarkers(records);
      var html := BuildLegend(rows);
      effects := effects + [LegendAdded(html)];
      RenderingSteps(before, records, rows);
    }

    /** The `DOMContentLoaded` handler. Its own code has no guard against a
        second run; with Leaflet calls that never fail, as here, a second run
        repeats everything. */
    method OnReady(hasContainer: bool, leafletDefined: bool)
      modifies this
      ensures effects == old(effects) + Run(hasContainer, leafletDefined)
    {
      if !hasContainer || !leafletDefined {
        return;
      }
      Render(Records, Rows);
    }
  }

  /** The handler's own code does not stop a second run: with Leaflet calls that
      never fail, two runs on one page record every marker and the legend twice.
      Real Leaflet refuses a second map on the same container, which this model
      does not capture. */
  lemma SecondRunDuplicates()
    ensures MarkerCount(Run(true, true) + Run(true, true)) == 2 * |Records|
    ensures LegendCount(Run(true, true) + Run(true, true)) == 2
  {
    RenderingShape(Records, Rows);
    CountsAppend(Rendering(), Rendering());
  }
}
