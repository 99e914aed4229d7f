/** What the planned query asks the warehouse to compute, stated as an
    abstract specification over the rows of the base extraction: the
    whitelist rows drive a left join on (element, platform), and the
    matched session ids are counted per group of identical whitelist
    rows. This is what the query text requests, not a claim about how the
    warehouse evaluates it. */
module JoinSemantics {
  import opened Types
  import opened QueryPlanner
  import opened Discrepancy
  import opened Results
  import opened Whitelist
  import opened Handler

  /** A row of the base extraction: the extracted name (possibly NULL),
      the platform and the session id (possibly NULL). */
  datatype BaseRow = BaseRow(value: Option<string>, platform: string, sessionId: Option<int>)

  /** The expected cells in the order of the whitelist rows: every name,
      IOS first, then ANDROID. */
  function ExpectedCells(whitelist: seq<string>): seq<Pair>
    decreases |whitelist|
  {
    if whitelist == [] then []
    else var n := |whitelist| - 1;
         ExpectedCells(whitelist[..n]) + [(whitelist[n], "IOS"), (whitelist[n], "ANDROID")]
  }

  /** Cell 2i is name i on IOS, cell 2i + 1 name i on ANDROID, and
      fragment k of the query is the fragment text built for cell k. */
  lemma ExpectedCellsAt(whitelist: seq<string>, element: string)
    ensures |ExpectedCells(whitelist)| == 2 * |whitelist|
    ensures forall i :: 0 <= i < |whitelist| ==>
              ExpectedCells(whitelist)[2 * i] == (whitelist[i], "IOS") &&
              ExpectedCells(whitelist)[2 * i + 1] == (whitelist[i], "ANDROID")
    ensures |CrossFragments(whitelist, element)| == 2 * |whitelist|
    ensures forall k :: 0 <= k < 2 * |whitelist| ==>
              CrossFragments(whitelist, element)[k] ==
                Fragment(ExpectedCells(whitelist)[k].0, element, ExpectedCells(whitelist)[k].1)
  {
    var cells := ExpectedCells(whitelist);
    ExpectedCellsPositions(whitelist);
    CrossFragmentsAt(whitelist, element);
    forall k | 0 <= k < 2 * |whitelist|
      ensures CrossFragments(whitelist, element)[k] == Fragment(cells[k].0, element, cells[k].1)
    {
      var i := k / 2;
      if k % 2 == 0 {
        assert k == 2 * i;
      } else {
        assert k == 2 * i + 1;
      }
    }
  }

  /** Cell 2i is name i on IOS and cell 2i + 1 name i on ANDROID. */
  lemma {:induction false} ExpectedCellsPositions(whitelist: seq<string>)
    ensures |ExpectedCells(whitelist)| == 2 * |whitelist|
    ensures forall i :: 0 <= i < |whitelist| ==>
              ExpectedCells(whitelist)[2 * i] == (whitelist[i], "IOS") &&
              ExpectedCells(whitelist)[2 * i + 1] == (whitelist[i], "ANDROID")
    decreases |whitelist|
  {
    var cells := ExpectedCells(whitelist);
    if whitelist != [] {
      var n := |whitelist| - 1;
      ExpectedCellsPositions(whitelist[..n]);
      forall i | 0 <= i < |whitelist|
        ensures cells[2 * i] == (whitelist[i], "IOS") && cells[2 * i + 1] == (whitelist[i], "ANDROID")
      {
        if i < n {
          assert whitelist[..n][i] == whitelist[i];
        }
      }
    }
  }

  /** The base rows joined to a cell and counted: the extracted name and
      the platform match, and the session id is not NULL. */
  function Matches(base: seq<BaseRow>, cell: Pair): nat
    decreases |base|
  {
    if base == [] then 0
    else var b := base[|base| - 1];
         Matches(base[..|base| - 1], cell)
         + (if b.value == Some(cell.0) && b.platform == cell.1 && b.sessionId.Some? then 1 else 0)
  }

  /** How many times a cell occurs in a sequence of cells. */
  function Occurrences(cells: seq<Pair>, cell: Pair): (n: nat)
    ensures n > 0 <==> cell in cells
    decreases |cells|
  {
    if cells == [] then 0
    else (if cells[0] == cell then 1 else 0) + Occurrences(cells[1..], cell)
  }

  /** The grouped count of a cell: every whitelist row of the cell joins
      with the same base rows, and the group sums them. */
  function GroupedCount(whitelist: seq<string>, base: seq<BaseRow>, cell: Pair): nat
  {
    Occurrences(ExpectedCells(whitelist), cell) * Matches(base, cell)
  }

  /** The cell of a result row. */
  function CellOf(r: Row): Pair
  {
    (r.name, r.platform)
  }

  /** The rows are what the query requests over the base rows, in some
      order: one row per distinct expected cell, with its grouped count.
      This reading takes every fragment as the literal row of its cell, so
      it is stated only for whitelists whose names the fragments carry
      verbatim (see LiteralNameIsQuoted and QuoteClosesLiteralEarly). */
  predicate JoinResult(rows: seq<Row>, whitelist: seq<string>, base: seq<BaseRow>)
  {
    && LiteralNames(whitelist)
    && (forall k :: 0 <= k < |rows| ==>
          CellOf(rows[k]) in ExpectedCells(whitelist) &&
          rows[k].count == GroupedCount(whitelist, base, CellOf(rows[k])))
    && (forall c :: c in ExpectedCells(whitelist) ==> exists k :: 0 <= k < |rows| && CellOf(rows[k]) == c)
    && (forall j, k :: 0 <= j < k < |rows| ==> CellOf(rows[j]) != CellOf(rows[k]))
  }

  /** A product of naturals with a positive left factor is zero exactly
      when its right factor is. */
  lemma ProductZero(a: nat, b: nat)
    requires a > 0
    ensures a * b == 0 <==> b == 0
  {
    if b > 0 {
      assert a * b == b + (a - 1) * b;
    }
  }

  /** On a join result the count of row k is zero exactly when no counted
      base row matches its cell. */
  lemma ZeroCountIsUnmatched(rows: seq<Row>, whitelist: seq<string>, base: seq<BaseRow>, k: nat)
    requires JoinResult(rows, whitelist, base)
    requires k < |rows|
    ensures rows[k].count == 0 <==> Matches(base, CellOf(rows[k])) == 0
  {
    var c := CellOf(rows[k]);
    assert c in ExpectedCells(whitelist) && rows[k].count == GroupedCount(whitelist, base, c);
    ProductZero(Occurrences(ExpectedCells(whitelist), c), Matches(base, c));
  }

  /** On a join result the scan reports exactly the expected cells that no
      counted base row matches. */
  lemma DetectsUnmatchedCells(rows: seq<Row>, whitelist: seq<string>, base: seq<BaseRow>, p: Pair)
    requires JoinResult(rows, whitelist, base)
    ensures p in Missing(Unpacked(rows)) <==> p in ExpectedCells(whitelist) && Matches(base, p) == 0
  {
    var t := Unpacked(rows);
    MissingMembership(t, p);
    if p in Missing(t) {
      var i :| 0 <= i < |t.count| && t.count[i] == 0 && p == (t.events[i], t.platform[i]);
      assert CellOf(rows[i]) == p && rows[i].count == 0;
      ZeroCountIsUnmatched(rows, whitelist, base, i);
    }
    if p in ExpectedCells(whitelist) && Matches(base, p) == 0 {
      var k :| 0 <= k < |rows| && CellOf(rows[k]) == p;
      ZeroCountIsUnmatched(rows, whitelist, base, k);
      assert t.count[k] == 0 && p == (t.events[k], t.platform[k]);
    }
  }

  /** On a join result no pair is reported twice. */
  lemma MissingIsDistinct(rows: seq<Row>, whitelist: seq<string>, base: seq<BaseRow>)
    requires JoinResult(rows, whitelist, base)
    ensures forall j, k :: 0 <= j < k < |Missing(Unpacked(rows))| ==> Missing(Unpacked(rows))[j] != Missing(Unpacked(rows))[k]
  {
    var t := Unpacked(rows);
    var m, z := Missing(t), ZeroIndices(t.count, |t.count|);
    MissingSelectsZeros(t, |t.count|);
    forall j, k | 0 <= j < k < |m| ensures m[j] != m[k] {
      assert z[j] < z[k];
      assert m[j] == CellOf(rows[z[j]]) && m[k] == CellOf(rows[z[k]]);
    }
  }

  /** The distinct members of a sequence of cells. */
  function CellSet(cells: seq<Pair>): set<Pair>
  {
    set c | c in cells
  }

  /** A sequence without repeats has as many distinct members as elements. */
  lemma {:induction false} DistinctCardinality(cells: seq<Pair>)
    requires forall j, k :: 0 <= j < k < |cells| ==> cells[j] != cells[k]
    ensures |CellSet(cells)| == |cells|
    decreases |cells|
  {
    if cells != [] {
      var n := |cells| - 1;
      var init := cells[..n];
      DistinctCardinality(init);
      assert CellSet(cells) == CellSet(init) + {cells[n]};
      assert cells[n] !in CellSet(init);
    }
  }

  /** With distinct names, the expected cells are distinct too. */
  lemma DistinctNamesDistinctCells(whitelist: seq<string>)
    requires forall i, j :: 0 <= i < j < |whitelist| ==> whitelist[i] != whitelist[j]
    ensures forall j, k :: 0 <= j < k < |ExpectedCells(whitelist)| ==> ExpectedCells(whitelist)[j] != ExpectedCells(whitelist)[k]
  {
    var cells := ExpectedCells(whitelist);
    ExpectedCellsAt(whitelist, "");
    forall j, k | 0 <= j < k < |cells| ensures cells[j] != cells[k] {
      var a, b := j / 2, k / 2;
      assert cells[j] == (whitelist[a], if j % 2 == 0 then "IOS" else "ANDROID") by {
        if j % 2 == 0 { assert j == 2 * a; } else { assert j == 2 * a + 1; }
      }
      assert cells[k] == (whitelist[b], if k % 2 == 0 then "IOS" else "ANDROID") by {
        if k % 2 == 0 { assert k == 2 * b; } else { assert k == 2 * b + 1; }
      }
    }
  }

  /** A join result has one row per distinct expected cell. */
  lemma JoinResultCardinality(rows: seq<Row>, whitelist: seq<string>, base: seq<BaseRow>)
    requires JoinResult(rows, whitelist, base)
    ensures |rows| == |CellSet(ExpectedCells(whitelist))|
  {
    var cells := ExpectedCells(whitelist);
    var rowCells := seq(|rows|, k requires 0 <= k < |rows| => CellOf(rows[k]));
    forall j, k | 0 <= j < k < |rowCells| ensures rowCells[j] != rowCells[k] {
      assert CellOf(rows[j]) != CellOf(rows[k]);
    }
    DistinctCardinality(rowCells);
    forall c | c in CellSet(cells) ensures c in CellSet(rowCells) {
      var k :| 0 <= k < |rows| && CellOf(rows[k]) == c;
      assert rowCells[k] == c;
    }
    forall c | c in CellSet(rowCells) ensures c in CellSet(cells) {
      var k :| 0 <= k < |rowCells| && rowCells[k] == c;
      assert CellOf(rows[k]) in cells;
    }
    assert CellSet(rowCells) == CellSet(cells);
  }

  /** With distinct whitelist names a join result has 2 * |whitelist| rows. */
  lemma JoinResultSize(rows: seq<Row>, whitelist: seq<string>, base: seq<BaseRow>)
    requires JoinResult(rows, whitelist, base)
    requires forall i, j :: 0 <= i < j < |whitelist| ==> whitelist[i] != whitelist[j]
    ensures |rows| == 2 * |whitelist|
  {
    JoinResultCardinality(rows, whitelist, base);
    DistinctNamesDistinctCells(whitelist);
    DistinctCardinality(ExpectedCells(whitelist));
    ExpectedCellsAt(whitelist, "");
  }

  /** One IOS app_open and no ANDROID one: the report holds exactly
      (app_open, ANDROID), whatever order the rows come in. */
  lemma AppOpenMissingOnAndroid(rows: seq<Row>)
    requires JoinResult(rows, ["app_open"], [BaseRow(Some("app_open"), "IOS", Some(1))])
    ensures Missing(Unpacked(rows)) == [("app_open", "ANDROID")]
  {
    var w, base := ["app_open"], [BaseRow(Some("app_open"), "IOS", Some(1))];
    var seen: Pair := ("app_open", "IOS");
    var gone: Pair := ("app_open", "ANDROID");
    assert ExpectedCells(w) == [seen, gone];
    assert Matches(base, gone) == 0;
    assert Matches(base, seen) == 1;
    JoinResultSize(rows, w, base);
    ZeroCountIsUnmatched(rows, w, base, 0);
    ZeroCountIsUnmatched(rows, w, base, 1);
    var t := Unpacked(rows);
    assert CellOf(rows[0]) != CellOf(rows[1]);
    assert CellOf(rows[0]) in [seen, gone] && CellOf(rows[1]) in [seen, gone];
    if CellOf(rows[0]) == seen {
      assert t.count[0] != 0 && t.count[1] == 0 && (t.events[1], t.platform[1]) == gone;
      assert MissingUpTo(t, 1) == [];
    } else {
      assert t.count[0] == 0 && t.count[1] != 0 && (t.events[0], t.platform[0]) == gone;
      assert MissingUpTo(t, 1) == [gone];
    }
  }

  /** home_screen seen on both platforms: a Screens pass over such rows,
      after an Events pass with data, ends in success with nothing missing. */
  lemma HomeScreenSeenOnBothPlatforms(env: Env, events: seq<string>, base: seq<BaseRow>, rows: seq<Row>)
    requires env.sheet == Opened(events, ["home_screen"])
    requires QueryResults("Events", "event_name", env).Data?
    requires BaseRow(Some("home_screen"), "IOS", Some(1)) in base
    requires BaseRow(Some("home_screen"), "ANDROID", Some(2)) in base
    requires env.backend(PlannedQuery("screen_name", env.source, ["home_screen"]).value) == Rows(rows)
    requires JoinResult(rows, ["home_screen"], base)
    ensures Run(env) == Response(NoneMissing("screen_name"), 200)
  {
    HomeScreenRowsClean(base, rows);
    assert QueryResults("Screens", "screen_name", env) == Data(Unpacked(rows));
    HandlerOutcome(env);
  }

  /** Over a join result for ["home_screen"] whose base rows count it on
      both platforms, the scan reports nothing. */
  lemma HomeScreenRowsClean(base: seq<BaseRow>, rows: seq<Row>)
    requires BaseRow(Some("home_screen"), "IOS", Some(1)) in base
    requires BaseRow(Some("home_screen"), "ANDROID", Some(2)) in base
    requires JoinResult(rows, ["home_screen"], base)
    ensures Missing(Unpacked(rows)) == []
  {
    var w := ["home_screen"];
    assert ExpectedCells(w) == [("home_screen", "IOS"), ("home_screen", "ANDROID")];
    SeenIsMatched(base, BaseRow(Some("home_screen"), "IOS", Some(1)));
    SeenIsMatched(base, BaseRow(Some("home_screen"), "ANDROID", Some(2)));
    var m := Missing(Unpacked(rows));
    if m != [] {
      DetectsUnmatchedCells(rows, w, base, m[0]);
      assert false;
    }
  }

  /** A base row with a name and a session id is counted for its cell. */
  lemma {:induction false} SeenIsMatched(base: seq<BaseRow>, b: BaseRow)
    requires b in base && b.value.Some? && b.sessionId.Some?
    ensures Matches(base, (b.value.value, b.platform)) > 0
    decreases |base|
  {
    var n := |base| - 1;
    if base[n] != b {
      assert b in base[..n] by {
        var i :| 0 <= i < |base| && base[i] == b;
        assert i < n && base[..n][i] == b;
      }
      SeenIsMatched(base[..n], b);
    }
  }
}
