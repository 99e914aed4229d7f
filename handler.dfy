/** The HTTP handler: Events then Screens, each through get_query_results
    and the zero-count scan, with an early 404 for a category without
    data, a 500 for any exception, and otherwise a 200 carrying the
    response built on the last pass. */
module Handler {
  import opened Types
  import opened Whitelist
  import opened QueryPlanner
  import opened Discrepancy
  import opened Results

  /** The category names, read by get_whitelist, in processing order. */
  const SheetList: seq<string> := ["Events", "Screens"]

  /** The element names paired index by index with SheetList. */
  const ElementList: seq<string> := ["event_name", "screen_name"]

  /** The body of a response, kept to what decides the status and the
      lists it reports. */
  datatype Body =
    | NoItems(element: string)
    | MissingFound(element: string, missingEvents: seq<Pair>, missingScreens: seq<Pair>)
    | NoneMissing(element: string)
    | Unexpected

  /** The 'status' entry of a body. */
  function Status(b: Body): string
  {
    match b
    case NoItems(_) => "warning"
    case MissingFound(_, _, _) => "success"
    case NoneMissing(_) => "success"
    case Unexpected => "error"
  }

  /** A body with its HTTP status code. */
  datatype Response = Response(body: Body, code: int)

  /** The handler's local state between passes: missing_events,
      missing_screens and the last response built, if any. */
  datatype Progress = Progress(missingEvents: seq<Pair>, missingScreens: seq<Pair>, response: Option<Body>)

  /** A state the handler can be in: no response yet, or a success built
      at the end of a pass. */
  predicate Settled(p: Progress)
  {
    p.response.None? || p.response.value.MissingFound? || p.response.value.NoneMissing?
  }

  /** The end of one pass for a category with data: the scan result is
      stored under its category only when it is not empty, the other
      category's list is kept, and the response is rebuilt for this
      element, reporting both stored lists when something is missing. */
  function Record(p: Progress, element: string, missingNames: seq<Pair>): (r: Progress)
    ensures r.response == Some(MissingFound(element, r.missingEvents, r.missingScreens)) ||
            r.response == Some(NoneMissing(element))
    ensures r.response.value.MissingFound? <==> missingNames != []
    ensures r.missingEvents == if element == "event_name" && missingNames != [] then missingNames else p.missingEvents
    ensures r.missingScreens == if element == "screen_name" && missingNames != [] then missingNames else p.missingScreens
  {
    if missingNames != [] then
      var missingEvents := if element == "event_name" then missingNames else p.missingEvents;
      var missingScreens := if element == "screen_name" then missingNames else p.missingScreens;
      Progress(missingEvents, missingScreens, Some(MissingFound(element, missingEvents, missingScreens)))
    else
      Progress(p.missingEvents, p.missingScreens, Some(NoneMissing(element)))
  }

  /** The passes from category i on, starting from state p. After the last
      pass the last response is returned with 200; had no pass run, reading
      the unassigned response would raise and end in 500. The code is one
      of 200, 404 and 500, and it agrees with the status entry. */
  function RunFrom(env: Env, i: nat, p: Progress): (r: Response)
    requires i <= |SheetList|
    requires Settled(p)
    ensures r.code == 200 || r.code == 404 || r.code == 500
    ensures Status(r.body) == "success" <==> r.code == 200
    ensures Status(r.body) == "warning" <==> r.code == 404
    ensures Status(r.body) == "error" <==> r.code == 500
    decreases |SheetList| - i
  {
    if i == |SheetList| then
      match p.response
      case None => Response(Unexpected, 500)
      case Some(b) => Response(b, 200)
    else
      match QueryResults(SheetList[i], ElementList[i], env)
      case Raised => Response(Unexpected, 500)
      case NoData => Response(NoItems(ElementList[i]), 404)
      case Data(t) => RunFrom(env, i + 1, Record(p, ElementList[i], Missing(t)))
  }

  /** The response of one invocation. */
  function Run(env: Env): Response
  {
    RunFrom(env, 0, Progress([], [], None))
  }

  /** The handler's loop over the two categories. */
  method HandleRequest(env: Env) returns (resp: Response)
    ensures resp == Run(env)
  {
    var missingEvents: seq<Pair> := [];
    var missingScreens: seq<Pair> := [];
    var response: Option<Body> := None;
    for i := 0 to |SheetList|
      invariant Settled(Progress(missingEvents, missingScreens, response))
      invariant RunFrom(env, i, Progress(missingEvents, missingScreens, response)) == Run(env)
    {
      var sheetElement, element := SheetList[i], ElementList[i];
      var dictToCheck := GetQueryResults(sheetElement, element, env);
      if dictToCheck.Raised? {
        return Response(Unexpected, 500);
      }
      if dictToCheck.NoData? {
        return Response(NoItems(element), 404);
      }
      var missingNames := FindMissing(dictToCheck.table);
      if missingNames != [] {
        if element == "event_name" {
          missingEvents := missingNames;
        }
        if element == "screen_name" {
          missingScreens := missingNames;
        }
        response := Some(MissingFound(element, missingEvents, missingScreens));
      } else {
        response := Some(NoneMissing(element));
      }
    }
    match response
    case None =>
      return Response(Unexpected, 500);
    case Some(b) =>
      return Response(b, 200);
  }

  /** Category i reads column i + 1 of the sheet and has a base extraction. */
  lemma CategoryPairing(i: nat, source: string)
    requires i < |SheetList|
    ensures |ElementList| == |SheetList|
    ensures SheetColumn(SheetList[i]) == Some(i + 1)
    ensures BaseQuery(ElementList[i], source).Some?
  {
  }

  /** The handler's response, case by case: Events first, then Screens; a
      category without data stops with 404, an exception with 500; on 200
      the response is the one built for Screens. It reports both scans when
      the Screens scan is not empty, and otherwise only that nothing is
      missing for screen_name, whatever the Events scan found. */
  lemma {:induction false} HandlerOutcome(env: Env)
    ensures var e := QueryResults("Events", "event_name", env);
            var s := QueryResults("Screens", "screen_name", env);
            Run(env) ==
              if e.Raised? then Response(Unexpected, 500)
              else if e.NoData? then Response(NoItems("event_name"), 404)
              else if s.Raised? then Response(Unexpected, 500)
              else if s.NoData? then Response(NoItems("screen_name"), 404)
              else if Missing(s.table) != [] then
                Response(MissingFound("screen_name", Missing(e.table), Missing(s.table)), 200)
              else Response(NoneMissing("screen_name"), 200)
  {
    var e := QueryResults(SheetList[0], ElementList[0], env);
    var p0 := Progress([], [], None);
    if e.Data? {
      var p1 := Record(p0, "event_name", Missing(e.table));
      assert p1.missingEvents == Missing(e.table) && p1.missingScreens == [];
      assert Run(env) == RunFrom(env, 1, p1);
      var s := QueryResults(SheetList[1], ElementList[1], env);
      if s.Data? {
        assert RunFrom(env, 1, p1) == RunFrom(env, 2, Record(p1, "screen_name", Missing(s.table)));
      }
    }
  }

  /** The status entry and the code always agree: success with 200,
      warning with 404, error with 500. */
  lemma StatusMatchesCode(env: Env)
    ensures Run(env).code == 200 || Run(env).code == 404 || Run(env).code == 500
    ensures Status(Run(env).body) == "success" <==> Run(env).code == 200
    ensures Status(Run(env).body) == "warning" <==> Run(env).code == 404
    ensures Status(Run(env).body) == "error" <==> Run(env).code == 500
  {
  }

  /** An empty Events whitelist ends the invocation with the warning for
      event_name, whatever the warehouse would have answered. */
  lemma EmptyEventsWhitelist(env: Env, backend': string -> Execution)
    requires GetWhitelist("Events", env.sheet) == []
    ensures Run(env) == Response(NoItems("event_name"), 404)
    ensures Run(env.(backend := backend')) == Run(env)
  {
    HandlerOutcome(env);
    HandlerOutcome(env.(backend := backend'));
  }

  /** An empty Screens whitelist ends with 404 even after the Events pass
      found data, and the Events result is dropped from the response. */
  lemma EmptyScreensWhitelist(env: Env)
    requires QueryResults("Events", "event_name", env).Data?
    requires GetWhitelist("Screens", env.sheet) == []
    ensures Run(env) == Response(NoItems("screen_name"), 404)
  {
    HandlerOutcome(env);
  }

  /** A 500 comes exactly from the warehouse raising, or the element
      selecting no base extraction, in a pass that was reached. */
  lemma ErrorExactlyWhenAQueryRaises(env: Env)
    ensures Run(env).code == 500 <==>
              QueryResults("Events", "event_name", env).Raised? ||
              (QueryResults("Events", "event_name", env).Data? &&
               QueryResults("Screens", "screen_name", env).Raised?)
  {
    HandlerOutcome(env);
  }

  /** A 200 reports the last category, screen_name; if anything is missing
      it carries both scans in full, and if it reports nothing missing then
      the Screens scan is empty (the Events scan may not be). */
  lemma SuccessReportsLastPass(env: Env)
    requires Run(env).code == 200
    ensures QueryResults("Events", "event_name", env).Data?
    ensures QueryResults("Screens", "screen_name", env).Data?
    ensures Run(env).body.element == "screen_name"
    ensures Run(env).body.MissingFound? <==> Missing(QueryResults("Screens", "screen_name", env).table) != []
    ensures Run(env).body.MissingFound? ==>
              Run(env).body.missingEvents == Missing(QueryResults("Events", "event_name", env).table) &&
              Run(env).body.missingScreens == Missing(QueryResults("Screens", "screen_name", env).table)
  {
    HandlerOutcome(env);
  }

  /** A clean Screens scan hides the Events scan: the 200 response says
      that nothing is missing for screen_name even when the Events pass
      found missing event names, which the response then does not carry. */
  lemma EventsDroppedWhenScreensClean(env: Env)
    requires QueryResults("Events", "event_name", env).Data?
    requires QueryResults("Screens", "screen_name", env).Data?
    requires Missing(QueryResults("Screens", "screen_name", env).table) == []
    ensures Run(env) == Response(NoneMissing("screen_name"), 200)
  {
    HandlerOutcome(env);
  }
}
