/** get_query_results: read the whitelist, build and run the query, and
    split the returned rows into the three-list dictionary. */
module Results {
  import opened Types
  import opened Whitelist
  import opened QueryPlanner
  import opened Discrepancy

  /** The dictionary of the rows: field k of every row goes to the k-th
      list, rows kept in order. */
  function Unpacked(rows: seq<Row>): Table
  {
    Table(seq(|rows|, k requires 0 <= k < |rows| => rows[k].name),
          seq(|rows|, k requires 0 <= k < |rows| => rows[k].platform),
          seq(|rows|, k requires 0 <= k < |rows| => rows[k].count))
  }

  /** The three lists have the same length. */
  predicate Parallel(t: Table)
  {
    |t.events| == |t.count| && |t.platform| == |t.count|
  }

  /** The rows that a table of parallel lists holds. */
  function Zipped(t: Table): seq<Row>
    requires Parallel(t)
  {
    seq(|t.count|, k requires 0 <= k < |t.count| => Row(t.events[k], t.platform[k], t.count[k]))
  }

  /** Splitting the rows and zipping the lists back gives the rows again,
      and the other way round: the dictionary loses nothing. */
  lemma UnpackRoundTrip(rows: seq<Row>, t: Table)
    requires Parallel(t)
    ensures Parallel(Unpacked(rows)) && Zipped(Unpacked(rows)) == rows
    ensures Unpacked(Zipped(t)) == t
  {
    var u := Unpacked(rows);
    assert forall k :: 0 <= k < |rows| ==> Zipped(u)[k] == rows[k];
    var z := Unpacked(Zipped(t));
    assert z.events == t.events && z.platform == t.platform && z.count == t.count;
  }

  /** The loop that appends row[0], row[1] and row[2] of every row to the
      'events', 'platform' and 'count' lists. */
  method UnpackRows(rows: seq<Row>) returns (t: Table)
    ensures t == Unpacked(rows)
    ensures |t.events| == |rows| && |t.platform| == |rows| && |t.count| == |rows|
    ensures forall k :: 0 <= k < |rows| ==>
              t.events[k] == rows[k].name && t.platform[k] == rows[k].platform && t.count[k] == rows[k].count
  {
    var events, platform, count := [], [], [];
    for k := 0 to |rows|
      invariant |events| == k && |platform| == k && |count| == k
      invariant forall i :: 0 <= i < k ==>
                  events[i] == rows[i].name && platform[i] == rows[i].platform && count[i] == rows[i].count
    {
      events := events + [rows[k].name];
      platform := platform + [rows[k].platform];
      count := count + [rows[k].count];
    }
    t := Table(events, platform, count);
  }

  /** What get_query_results returns for a category in an environment. */
  function QueryResults(sheetElement: string, element: string, env: Env): (r: QueryResult)
    ensures r.NoData? <==> GetWhitelist(sheetElement, env.sheet) == []
    ensures r.Data? ==> Parallel(r.table) && Scannable(r.table)
  {
    var whitelist := GetWhitelist(sheetElement, env.sheet);
    if whitelist == [] then NoData
    else match PlannedQuery(element, env.source, whitelist)
      case None => Raised
      case Some(query) =>
        match env.backend(query)
        case Raises => Raised
        case Rows(rows) => Data(Unpacked(rows))
  }

  /** An empty whitelist yields the empty dictionary whatever the warehouse
      would answer: no query is run. */
  lemma EmptyWhitelistRunsNoQuery(sheetElement: string, element: string, env: Env, backend': string -> Execution)
    requires GetWhitelist(sheetElement, env.sheet) == []
    ensures QueryResults(sheetElement, element, env) == NoData
    ensures QueryResults(sheetElement, element, env.(backend := backend')) == NoData
  {
  }

  /** A dictionary, when there is one, holds exactly the rows that the
      warehouse returned for the planned query. */
  lemma DataIsBackendRows(sheetElement: string, element: string, env: Env)
    requires QueryResults(sheetElement, element, env).Data?
    ensures GetWhitelist(sheetElement, env.sheet) != []
    ensures PlannedQuery(element, env.source, GetWhitelist(sheetElement, env.sheet)).Some?
    ensures var t := QueryResults(sheetElement, element, env).table;
            env.backend(PlannedQuery(element, env.source, GetWhitelist(sheetElement, env.sheet)).value)
              == Rows(Zipped(t))
  {
    var whitelist := GetWhitelist(sheetElement, env.sheet);
    var query := PlannedQuery(element, env.source, whitelist).value;
    var rows := env.backend(query).rows;
    UnpackRoundTrip(rows, Unpacked(rows));
  }

  /** get_query_results: the empty dictionary for an empty whitelist;
      otherwise the fragments are built, the three parts of the query are
      concatenated and run, and the rows are unpacked. Raises when the
      element selects no base extraction or the warehouse raises. */
  method GetQueryResults(sheetElement: string, element: string, env: Env) returns (r: QueryResult)
    ensures r == QueryResults(sheetElement, element, env)
    ensures r.NoData? <==> GetWhitelist(sheetElement, env.sheet) == []
    ensures r.Raised? ==> (element != "event_name" && element != "screen_name") ||
                          env.backend(PlannedQuery(element, env.source, GetWhitelist(sheetElement, env.sheet)).value).Raises?
    ensures r.Data? ==> Parallel(r.table) && Scannable(r.table)
  {
    var whitelist := GetWhitelist(sheetElement, env.sheet);
    if whitelist == [] {
      return NoData;
    }
    var base := BaseQuery(element, env.source);
    var parts := BuildQueryParts(whitelist, element);
    var queryB := WhitelistQuery(parts);
    var queryC := JoinQuery(element);
    if base.None? {
      return Raised;
    }
    var query := base.value + queryB + queryC;
    assert PlannedQuery(element, env.source, whitelist) == Some(query);
    match env.backend(query)
    case Raises =>
      return Raised;
    case Rows(rows) =>
      var t := UnpackRows(rows);
      return Data(t);
  }
}
