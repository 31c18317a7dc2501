/** The fixed, ordered list `C` of conference appearances the page plots: one
    record per talk or panel, never created, changed or removed after load. */
module Conferences {

  /** One record of `C`: name `n`, place `c`, coordinates `la`/`ln`, year `y`,
      talk title `t`. The coordinates are only copied into markers, so they are
      kept as exact reals with no arithmetic on them. */
  datatype Conference = Conference(
    name: string,
    place: string,
    lat: real,
    lon: real,
    year: int,
    title: string)

  const Records: seq<Conference> := [
    Conference("GeoInno 2026", "Budapest, Hungary", 47.4979, 19.0402, 2026,
      "Unveiling the network core and periphery structures of technological development in salmon aquaculture"),
    Conference("Global Conference on Economic Geography 2025", "Worcester, USA", 42.2626, -71.8023, 2025,
      "Does the periphery matter across technological trajectories?"),
    Conference("GCEG 2025 \U{2014} Panel", "Worcester, USA", 42.27, -71.795, 2025,
      "Engaged pluralism with diversity for the future of economic geography (Panel: EG at 100)"),
    Conference("Japan Assoc. of Economic Geographers 2025", "Tokyo, Japan", 35.6762, 139.6503, 2025,
      "Technological trajectories in core and periphery settings: comparing knowledge bases"),
    Conference("AAG Annual Meeting 2024", "Honolulu, USA", 21.3069, -157.8583, 2024,
      "Unequal geographies of technological change in Chilean salmon farming"),
    Conference("SOCHER 2022", "Antofagasta, Chile", -23.6509, -70.3975, 2022,
      "Putting the State back in: Neostructural innovation in the Chilean salmon industry"),
    Conference("DiGRA 2019", "Kyoto, Japan", 35.0116, 135.7681, 2019,
      "Video Games Production in the periphery: the Chilean case"),
    Conference("AAG Annual Meeting 2019", "Washington DC, USA", 38.9072, -77.0369, 2019,
      "Affective Labour and the business of making games"),
    Conference("Global Conference on Economic Geography 2018", "Cologne, Germany", 50.9375, 6.9603, 2018,
      "Playing with the south: dependency in video games development in Chile"),
    Conference("RGS-IBG Annual Conference 2017", "London, UK", 51.5074, -0.1278, 2017,
      "Gaming with the south? Cultural economy and GPNs of videogames in Chile"),
    Conference("XXXVI National Congress of Geography 2015", "Santiago, Chile", -33.4489, -70.6693, 2015,
      "The forestry complex in Araucania region and the urban economy"),
    Conference("Chile-Japan Academic Forum 2014", "Tokyo, Japan", 35.7128, 139.762, 2014,
      "The impact of woodchips: corporate territories in Chile-Japan forestry trade"),
    Conference("Chile-Japan Academic Forum 2014 (2nd)", "Tokyo, Japan", 35.72, 139.755, 2014,
      "Urban and regional challenges of mining in the Atacama Desert"),
    Conference("Japanese Society of Latin America 2013", "Tokyo, Japan", 35.6895, 139.6917, 2013,
      "The Chilean wood, paper, and pulp industry \U{2014} linkages to Japan"),
    Conference("XXXIV National Congress of Geography 2013", "Chill\U{e1}n, Chile", -36.6066, -72.1034, 2013,
      "Foreign trade with China and domestic employment in Chilean regions"),
    Conference("Colloquium Governance of Risks 2013", "Santiago, Chile", -33.44, -70.64, 2013,
      "The impact of woodchips: unequal trade with Japan in Southern Chile"),
    Conference("AAG Annual Meeting 2013", "Los Angeles, USA", 34.0522, -118.2437, 2013,
      "Resource-based economies and booming Asia: regional impacts in Chile"),
    Conference("XXXIII National Congress of Geography 2012", "Arica, Chile", -18.4783, -70.3126, 2012,
      "The two sides of the copper coin"),
    Conference("XI Geography Students Meeting 2011", "Santiago, Chile", -33.4372, -70.6506, 2011,
      "Health vulnerability in Manila and pollution in the Pasig river"),
    Conference("II Asian and African Studies Meeting 2011", "Santiago, Chile", -33.445, -70.66, 2011,
      "Water pollution and health vulnerability in Manila, Philippines")
  ]

  /** Every record is dated between 2011 and 2026, the span the legend covers. */
  lemma RecordYears()
    ensures |Records| == 20
    ensures forall k :: 0 <= k < |Records| ==> 2011 <= Records[k].year <= 2026
  {
  }
}
