/** The fixed directory `LINE_ROUTES` from line name to a description of where
    the line runs: eight suburban and five intercity lines. */
module Routes {
  import opened Wrappers

  const LineRoutes: map<string, string> := map[
    // Suburban
    "T1" := "Berowra/Hornsby to Richmond",
    "T2" := "Parramatta to City",
    "T3" := "Liverpool/City to Lidcombe",
    "T4" := "Cronulla to Bondi Junction",
    "T5" := "Richmond to City",
    "T7" := "Olympic Park to City",
    "T8" := "Macarthur to City",
    "T9" := "Hornsby/Northern Line to North Shore",
    // Intercity
    "Blue Mountains" := "Central to Lithgow/Katoomba",
    "Central Coast & Newcastle" := "Central to Newcastle",
    "South Coast" := "Central to Kiama",
    "Southern Highlands" := "Central to Goulburn/Moss Vale",
    "Hunter" := "Newcastle to Dungog"
  ]

  /** The route shown for a selected line: a description exactly for the
      lines T1 to T5, T7 to T9 and the five intercity lines, the directory's
      own entry for that line, and nothing (not an error) for any other line. */
  function Route(line: string): (r: Option<string>)
    ensures r.Some? <==> line in {"T1", "T2", "T3", "T4", "T5", "T7", "T8", "T9",
                                  "Blue Mountains", "Central Coast & Newcastle", "South Coast",
                                  "Southern Highlands", "Hunter"}
    ensures r.Some? ==> r.value == LineRoutes[line]
  {
    RouteDirectoryKeys();
    if line in LineRoutes then Some(LineRoutes[line]) else None
  }

  /** The directory lists exactly thirteen lines: T1 to T5, T7 to T9 and the
      five intercity lines. */
  lemma RouteDirectoryKeys()
    ensures LineRoutes.Keys == {"T1", "T2", "T3", "T4", "T5", "T7", "T8", "T9",
                                "Blue Mountains", "Central Coast & Newcastle", "South Coast",
                                "Southern Highlands", "Hunter"}
  {
  }

  /** T6 is not in the directory, so selecting it shows no route. */
  lemma NoRouteForT6()
    ensures Route("T6") == None
  {
    RouteDirectoryKeys();
    assert "T6"[1] == '6';
  }
}
