/** What `C.forEach` hands to the map for each record: a circle marker at the
    record's coordinates, filled with `color(d.y)`, with a fixed outline, and the
    popup text bound to it. The popup is plain concatenation with no escaping. */
module Markers {
  import opened Text
  import opened Decimal
  import opened Period
  import opened Conferences

  /** The options object passed to `L.circleMarker`, with the popup bound to it. */
  datatype Marker = Marker(
    lat: real,
    lon: real,
    radius: int,
    fill: string,
    stroke: string,
    weight: int,
    opacity: real,
    fillOpacity: real,
    popup: string)

  /** The popup text: name in bold, then place and year in italics, then the title. */
  function Popup(d: Conference): string {
    "<strong>" + d.name + "</strong><br>" +
    "<em>" + d.place + " (" + NumberString(d.year) + ")</em><br><br>" + d.title
  }

  function MarkerFor(d: Conference): Marker {
    Marker(d.lat, d.lon, 8, Color(d.year), "#fff", 2, 1.0, 0.85, Popup(d))
  }

  /** The markers for a list of records: one per record, in list order, none
      merged or dropped. */
  function MarkersFor(rs: seq<Conference>): (ms: seq<Marker>)
    ensures |ms| == |rs|
    ensures forall i :: 0 <= i < |rs| ==> ms[i] == MarkerFor(rs[i])
  {
    seq(|rs|, i requires 0 <= i < |rs| => MarkerFor(rs[i]))
  }

  lemma {:induction false} MarkersForAppend(a: seq<Conference>, b: seq<Conference>)
    ensures MarkersFor(a + b) == MarkersFor(a) + MarkersFor(b)
  {
    if a != [] {
      TailOfAppend(a, b);
      MarkersForAppend(a[1..], b);
    }
  }

  /** The fields a popup shows, as read back from its text. */
  datatype PopupFields = PopupFields(name: string, place: string, year: int, title: string)

  /** Reads "place (year)" back: the year sits in the last parenthesis. */
  function ParsePlaceYear(em: string): Option<(string, int)> {
    match SplitAtLast(em, '(')
    case None => None
    case Some((placeSpace, yearParen)) =>
      if |placeSpace| == 0 || placeSpace[|placeSpace| - 1] != ' ' then None
      else if |yearParen| == 0 || yearParen[|yearParen| - 1] != ')' then None
      else match NumberValue(yearParen[..|yearParen| - 1])
        case None => None
        case Some(y) => Some((placeSpace[..|placeSpace| - 1], y))
  }

  /** Reads the part of a popup after the name: the italic "place (year)", which
      ends at the first '<', and the title after the two line breaks. */
  function ParseDetails(p: string): Option<(string, int, string)> {
    match SplitAtFirst(p, '<')
    case None => None
    case Some((em, rest)) =>
      match StripPrefix(rest, "/em><br><br>")
      case None => None
      case Some(title) =>
        match ParsePlaceYear(em)
        case None => None
        case Some((place, y)) => Some((place, y, title))
  }

  /** Reads a popup back: the name ends at the first '<', then come the details. */
  function ParsePopup(p: string): Option<PopupFields> {
    match StripPrefix(p, "<strong>")
    case None => None
    case Some(p1) =>
      match SplitAtFirst(p1, '<')
      case None => None
      case Some((name, p2)) =>
        match StripPrefix(p2, "/strong><br><em>")
        case None => None
        case Some(p3) =>
          match ParseDetails(p3)
          case None => None
          case Some((place, y, title)) => Some(PopupFields(name, place, y, title))
  }

  /** Records whose name and place hold no '<' are what ParsePopup can read back. */
  predicate MarkupFree(d: Conference) {
    '<' !in d.name && '<' !in d.place
  }

  lemma PlaceYearRoundTrip(place: string, y: int)
    ensures ParsePlaceYear(place + " (" + NumberString(y) + ")") == Some((place, y))
  {
    var ys := NumberString(y);
    var left, right := place + " ", ys + ")";
    assert place + " (" + ys + ")" == left + ['('] + right;
    assert '(' !in right;
    SplitAtLastOf(left, '(', right);
    assert left[..|place|] == place;
    assert right[..|ys|] == ys;
    NumberRoundTrip(y);
  }

  lemma DetailsRoundTrip(place: string, y: int, title: string)
    requires '<' !in place
    ensures ParseDetails(place + " (" + NumberString(y) + ")</em><br><br>" + title)
         == Some((place, y, title))
  {
    var ys := NumberString(y);
    var em := place + " (" + ys + ")";
    var tail := "/em><br><br>" + title;
    assert ")</em><br><br>" == ")" + ['<'] + "/em><br><br>";
    assert place + " (" + ys + ")</em><br><br>" + title == em + ['<'] + tail;
    assert '<' !in ys;
    assert '<' !in em;
    SplitAtFirstOf(em, '<', tail);
    StripPrefixOf("/em><br><br>", title);
    PlaceYearRoundTrip(place, y);
  }

  /** A popup loses nothing: name, place, year and title all come back from it. */
  lemma PopupRoundTrip(d: Conference)
    requires MarkupFree(d)
    ensures ParsePopup(Popup(d)) == Some(PopupFields(d.name, d.place, d.year, d.title))
  {
    var details := d.place + " (" + NumberString(d.year) + ")</em><br><br>" + d.title;
    var mid := "/strong><br><em>" + details;
    assert "</strong><br>" + "<em>" == ['<'] + "/strong><br><em>";
    assert Popup(d) == "<strong>" + (d.name + ['<'] + mid);
    StripPrefixOf("<strong>", d.name + ['<'] + mid);
    SplitAtFirstOf(d.name, '<', mid);
    StripPrefixOf("/strong><br><em>", details);
    DetailsRoundTrip(d.place, d.year, d.title);
  }

  /** Without that condition the popup is ambiguous: since nothing is escaped, a
      place that contains markup can swallow part of the title. */
  lemma PopupAmbiguousWithoutEscaping()
    ensures exists d1, d2 :: d1 != d2 && Popup(d1) == Popup(d2)
  {
    var close := ")</em><br><br>";
    var d1 := Conference("A", "B", 0.0, 0.0, 1, "C" + " (" + NumberString(2) + close + "D");
    var d2 := Conference("A", "B" + " (" + NumberString(1) + close + "C", 0.0, 0.0, 2, "D");
    assert Popup(d1) == Popup(d2);
  }

  /** The record a marker was drawn for, read back from the marker alone. */
  function DecodeMarker(m: Marker): Option<Conference> {
    match ParsePopup(m.popup)
    case None => None
    case Some(f) => Some(Conference(f.name, f.place, m.lat, m.lon, f.year, f.title))
  }

  /** When the name and place hold no '<', the marker of a record determines the
      record, so no other such record shares it; and its fill is the record's
      period colour. */
  lemma MarkerRoundTrip(d: Conference)
    requires MarkupFree(d)
    ensures DecodeMarker(MarkerFor(d)) == Some(d)
    ensures MarkerFor(d).fill == Color(d.year) && MarkerFor(d).fill in Palette
  {
    PopupRoundTrip(d);
  }

  /** The markers of a list lose no record and reorder none: the i-th marker
      decodes to the i-th record and is filled with that record's period colour. */
  lemma MarkersKeepRecords(rs: seq<Conference>)
    requires forall k :: 0 <= k < |rs| ==> MarkupFree(rs[k])
    ensures |MarkersFor(rs)| == |rs|
    ensures forall k :: 0 <= k < |rs| ==>
      DecodeMarker(MarkersFor(rs)[k]) == Some(rs[k]) && MarkersFor(rs)[k].fill == Color(rs[k].year)
  {
    forall k | 0 <= k < |rs|
      ensures DecodeMarker(MarkersFor(rs)[k]) == Some(rs[k])
    {
      MarkerRoundTrip(rs[k]);
    }
  }
}
