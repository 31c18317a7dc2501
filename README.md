# Conference map

A model of the script behind the conference map on an academic website
(`assets/js/conference-map.js`). When the page is ready, the script does the following:

- It checks that the map container and the Leaflet library are both present. If either is missing, it stops.
- It injects a style element and creates the map.
- For each record in its hard-coded conference list, it adds a circle marker. The marker is coloured by the conference year and carries an HTML popup.
- It adds a legend. The legend's HTML is built from a five-row table of
  (colour, year range) pairs.

The project has seven modules:

- `Text` holds string helpers. `StripPrefix`, `SplitAtFirst` and `SplitAtLast` each come with the lemma that they undo a concatenation.
- `Decimal` models how JavaScript turns an integral year into text inside `" (" + d.y + ")"`, together with the parser that reads it back.
- `Period` holds `color(y)`. `Period.Color` is the if-chain as written. `Period.TableColor` is an independent definition: the palette read off the descending threshold table. A lemma proves that the two agree. Monotonicity and the five bands are proved about the if-chain.
- `Conferences` holds the record list `C`, with its twenty records in source order.
- `Markers` models the options object for `L.circleMarker` and the popup string. `ParsePopup` is a decoder for the popup string, and a round-trip lemma shows the popup loses nothing when the name and place contain no `<`. A second lemma shows that, because nothing is escaped, two different records can produce the same popup.
- `Legend` holds the `rows` table and the swatch HTML. `BuildLegend` is the `rows.forEach` loop written as a method, proved to build `Heading + Entries(rows)`. `ParseLegend` is a decoder with a round-trip lemma for rows whose colour holds no `;` and whose caption holds no `<`. The page's own five rows meet that condition, so its legend reads back into exactly them. Each row's caption is parsed back into a year range, and lemmas show that the table agrees with `color(y)`. Those lemmas show that each row's colour is the colour of every year in its range, and that the rows partition exactly 2011..2026 with no gaps or overlaps.
- `ConferenceMap` models the `DOMContentLoaded` handler as a `Page` class. The class records, in order, the effects the handler produces: style injected, map created, one marker per record, legend added. `Page.OnReady` is proved to produce exactly the specification function `Run`. The lemmas about `Run` give the following:
  - the guard makes the handler a no-op;
  - the markers appear in record order;
  - every marker's colour matches exactly one legend row;
  - the handler's own code has no guard against running twice, so with Leaflet calls that never fail a second run would repeat everything.

## Model

| member | source | states |
|---|---|---|
| `Period.Color` | assets/js/conference-map.js:90-96 | every year, however large or small, gets one of the five palette colours |
| `Period.Rank` | assets/js/conference-map.js:90-96 | each palette colour has exactly one position in the if-chain |
| `Period.ColorMatchesTable` | assets/js/conference-map.js:90-96 | the if-chain tested from the most recent threshold down agrees, for every year, with the colour of the band counted off the threshold table 2025, 2022, 2018, 2014 (first match wins) |
| `Period.ColorBands` | assets/js/conference-map.js:90-96 | the five bands with inclusive lower bounds: y ≥ 2025, 2022..2024, 2018..2021, 2014..2017, below 2014 |
| `Period.ColorMonotone` | assets/js/conference-map.js:90-96 | a later year never gets the colour of an older period |
| `Period.PaletteDistinct` | assets/js/conference-map.js:91-95 | the five returned colours are pairwise different |
| `Conferences.RecordYears` | assets/js/conference-map.js:47-88 | the list holds twenty records and every year lies in 2011..2026 |
| `Decimal.Digits` | assets/js/conference-map.js:110 | a natural's decimal text is non-empty, all digits, no leading zero |
| `Decimal.DigitsValue` | assets/js/conference-map.js:110 | a string has a decimal value exactly when it is a non-empty run of digits |
| `Decimal.NumberString` | assets/js/conference-map.js:110 | an integer's text is non-empty and is digits with at most a leading minus |
| `Decimal.DigitsRoundTrip` | assets/js/conference-map.js:110 | reading back a natural's decimal text gives the natural |
| `Decimal.NumberRoundTrip` | assets/js/conference-map.js:110 | reading back the year as written into the popup gives the year, negative or not |
| `Markers.MarkersFor` | assets/js/conference-map.js:98-112 | one marker per record, same length, the i-th marker built from the i-th record |
| `Markers.MarkersForAppend` | assets/js/conference-map.js:98 | the markers of two lists joined are the two marker lists joined |
| `Markers.PlaceYearRoundTrip` | assets/js/conference-map.js:110 | "place (year)" is read back into that place and year, the year being in the last parenthesis |
| `Markers.DetailsRoundTrip` | assets/js/conference-map.js:110 | the italic place and year and the title after the two breaks are read back when the place has no '<' |
| `Markers.PopupRoundTrip` | assets/js/conference-map.js:108-111 | a popup gives back name, place, year and title when name and place hold no '<' |
| `Markers.PopupAmbiguousWithoutEscaping` | assets/js/conference-map.js:108-111 | since nothing is escaped, two different records can produce the same popup text |
| `Markers.MarkerRoundTrip` | assets/js/conference-map.js:99-111 | when the name and place hold no '<', a marker determines its record (position and popup); its fill is `color` of the record's year |
| `Markers.MarkersKeepRecords` | assets/js/conference-map.js:98-112 | when no record's name or place holds '<', the i-th marker decodes to the i-th record and is filled with its period colour: nothing lost, merged or reordered |
| `Legend.EntriesSnoc` | assets/js/conference-map.js:129-134 | appending a row appends exactly its swatch to the entries |
| `Legend.EntriesPrefixStep` | assets/js/conference-map.js:130-133 | one pass of the loop body extends the HTML of the first i rows to the HTML of the first i+1 |
| `Legend.BuildLegend` | assets/js/conference-map.js:128-134 | the loop leaves the heading followed by one swatch per row, in row order |
| `Legend.SwatchTailRoundTrip` | assets/js/conference-map.js:132-133 | the style, caption and break after a colour are read back into the caption when it has no '<' |
| `Legend.SwatchRoundTrip` | assets/js/conference-map.js:131-133 | a swatch is read back into its row when the colour has no ';' and the caption no '<' |
| `Legend.EntriesStep` | assets/js/conference-map.js:129-134 | when the first row's colour holds no ';' and its caption no '<', reading the entries of a non-empty list reads that row and then the rest |
| `Legend.EntriesRoundTrip` | assets/js/conference-map.js:129-134 | when no colour holds ';' and no caption holds '<', the swatches are read back into exactly the rows, in order |
| `Legend.LegendRoundTrip` | assets/js/conference-map.js:128-135 | when no colour holds ';' and no caption holds '<', the legend HTML after its heading reads back into exactly the given rows, once each, in order |
| `Legend.RowsReadable` | assets/js/conference-map.js:121-127 | no colour of the five-row table holds ';' and no caption holds '<' |
| `Legend.RowsRoundTrip` | assets/js/conference-map.js:121-135 | the legend the page builds from its table reads back into exactly those five rows, in order |
| `Legend.CaptionNamesBranch` | assets/js/conference-map.js:121-127 | the i-th caption names exactly the years of the i-th branch of `color` (the top one capped at 2026, the bottom one starting at 2011) |
| `Legend.InRowIff` | assets/js/conference-map.js:121-127 | a year is in a row's caption range exactly when it is in that row's branch |
| `Legend.BranchColour` | assets/js/conference-map.js:90-96 | every year of the i-th branch gets the i-th palette colour |
| `Legend.RowsListPalette` | assets/js/conference-map.js:121-127 | the table lists the five palette colours in if-chain order |
| `Legend.LegendAgreesWithColor` | assets/js/conference-map.js:90-127 | one row per colour in if-chain order, each row starting at that branch's threshold, and every year a row names gets that row's colour from `color` |
| `Legend.RowsDescend` | assets/js/conference-map.js:121-127 | each row's period ends the year before the previous row's begins |
| `Legend.BranchesPartitionYears` | assets/js/conference-map.js:90-96 | the capped branches cover exactly 2011..2026, without overlap |
| `Legend.RowsPartitionYears` | assets/js/conference-map.js:121-127 | a year is named by some row exactly when it lies in 2011..2026, and then by one row only |
| `ConferenceMap.RenderingShape` | assets/js/conference-map.js:5-138 | a run past the guard injects the style, creates the map, then adds one marker per record in order, then one legend: length, positions and counts |
| `ConferenceMap.GuardIsNoOp` | assets/js/conference-map.js:3 | the handler does nothing exactly when the container or Leaflet is missing |
| `ConferenceMap.MarkersMatchLegend` | assets/js/conference-map.js:47-127 | every record's marker colour is the colour of a legend row naming its year, and only one row names it |
| `ConferenceMap.SecondRunDuplicates` | assets/js/conference-map.js:1 | the handler's own code has no guard against a second run: with Leaflet calls that never fail, two runs record every marker and the legend twice |
| `ConferenceMap.Page.PlotMarkers` | assets/js/conference-map.js:98-112 | the loop adds each record's marker, in record order, after what was already there |
| `ConferenceMap.Page.Render` | assets/js/conference-map.js:5-138 | after the guard the page gains exactly the rendering of the given records and rows |
| `ConferenceMap.Page.OnReady` | assets/js/conference-map.js:1-3 | the handler adds exactly `Run(hasContainer, leafletDefined)` to the page: nothing when the guard fails, the whole rendering otherwise |

## Left out

- The style element's CSS text (lines 5-31) and the legend's `cssText` (lines 118-120) are not modelled. The injection is recorded only as the effect `StyleInjected`. The `data-no-zoom` attribute is not modelled either.
- The tile layer, `setView`, zoom options and attribution (lines 33-40) are not modelled. Map creation is recorded only as `MapCreated`.
- The delayed `invalidateSize` call (lines 42-44) depends on a timer and is not modelled.
- Leaflet itself is not modelled. Markers and the legend are recorded as the values handed to it, with no drawing, layering or popup behaviour. The recorded calls never fail.
- `ConferenceMap.SecondRunDuplicates` shows only that the handler's own code has no guard against running twice, not what happens with real Leaflet. Leaflet's failure paths are not modelled. Real Leaflet's `L.map` (line 34) throws when its container already holds a map, so a real second run injects the style element again and then stops, adding no map, markers or legend.
- The legend control's position (`"bottomright"`, line 115) is not modelled.
- Latitudes and longitudes are exact `real` values copied through unchanged. Floating-point representation is not modelled.
- The marker's `opacity` and `fillOpacity` are carried as the constants 1 and 0.85, with no meaning attached.
- `Markers.PopupRoundTrip`, `Markers.MarkerRoundTrip` and `Markers.MarkersKeepRecords` only cover records whose name and place contain no `<`. Without that condition two different records can share a popup, and so a marker (`Markers.PopupAmbiguousWithoutEscaping`). Whether the twenty concrete records meet the condition is not stated as a lemma.
- `Legend.LegendRoundTrip`, `Legend.EntriesRoundTrip` and `Legend.EntriesStep` only cover rows whose colour holds no `;` and whose caption holds no `<`. Nothing in the swatch HTML is escaped, so a caption such as `a<b` does not read back. The page's own rows meet the condition (`Legend.RowsReadable`).
- `Decimal.NumberString` models JavaScript's conversion of an integral number only. The years in the source are all integers, so non-integral numbers, exponent notation and numbers beyond 2^53 are not modelled.
- Years outside 2011..2026 still get a colour from `color` (crimson above, slate below), but no legend row names them. The model states this through `Legend.RowsPartitionYears` and does not treat it as an error.
- `Legend.BuildLegend` models `html +=` as appending to an immutable string. The DOM element `div` and its `innerHTML` are not modelled.
