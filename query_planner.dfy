/** The query text that get_query_results sends to the warehouse: a base
    extraction chosen by the element name (query_a), the whitelist
    cross product as literal SELECTs joined by UNION ALL (query_b), and the
    left join with its count (query_c), concatenated in that order. */
module QueryPlanner {
  import opened Types

  /** The platforms of the cross product, in the order the inner loop
      visits them. */
  const Platforms: seq<string> := ["IOS", "ANDROID"]

  /** The separator between whitelist fragments. */
  const Separator: string := " UNION ALL "

  /** The opening of query_b. */
  const WhitelistOpen: string := "whitelist AS ("

  /** Whether s begins with prefix. */
  predicate StartsWith(s: string, prefix: string)
  {
    |prefix| <= |s| && s[..|prefix|] == prefix
  }

  /** Whether s ends with suffix. */
  predicate EndsWith(s: string, suffix: string)
  {
    |suffix| <= |s| && s[|s| - |suffix|..] == suffix
  }

  /** Appending keeps a prefix. */
  lemma StartsWithAppend(s: string, t: string, prefix: string)
    requires StartsWith(s, prefix)
    ensures StartsWith(s + t, prefix)
  {
    assert (s + t)[..|prefix|] == s[..|prefix|];
  }

  /** Prepending keeps a suffix. */
  lemma EndsWithPrepend(s: string, t: string, suffix: string)
    requires EndsWith(t, suffix)
    ensures EndsWith(s + t, suffix)
  {
    assert (s + t)[|s + t| - |suffix|..] == t[|t| - |suffix|..];
  }

  /** Python's str.join: the parts with one separator between each two
      neighbours, the empty string for no parts. The result starts with
      the first part, ends with the last, and is as long as the parts
      together plus n - 1 separators. */
  function Join(sep: string, parts: seq<string>): (r: string)
    ensures |parts| == 0 ==> r == ""
    ensures |parts| >= 1 ==> |r| == TotalLength(parts) + (|parts| - 1) * |sep|
    ensures |parts| >= 1 ==> StartsWith(r, parts[0]) && EndsWith(r, parts[|parts| - 1])
    decreases |parts|
  {
    if |parts| == 0 then ""
    else if |parts| == 1 then parts[0]
    else
      var rest := Join(sep, parts[1..]);
      assert (|parts| - 1) * |sep| == (|parts| - 2) * |sep| + |sep|;
      StartsWithAppend(parts[0], sep + rest, parts[0]);
      EndsWithPrepend(parts[0] + sep, rest, parts[|parts| - 1]);
      assert parts[0] + sep + rest == parts[0] + (sep + rest);
      parts[0] + sep + rest
  }

  /** Plain concatenation of a sequence of strings. */
  function Concat(pieces: seq<string>): string
    decreases |pieces|
  {
    if pieces == [] then "" else pieces[0] + Concat(pieces[1..])
  }

  /** Total length of a sequence of strings. */
  function TotalLength(parts: seq<string>): nat
    decreases |parts|
  {
    if parts == [] then 0 else |parts[0]| + TotalLength(parts[1..])
  }

  /** Joining n >= 1 parts is concatenating 2n - 1 pieces in which the
      even positions are the parts, in order, and every odd position is
      the separator: exactly n - 1 separators, none before the first part
      and none after the last. */
  lemma {:induction false} JoinIsInterleaving(sep: string, parts: seq<string>, pieces: seq<string>)
    requires |parts| >= 1
    requires |pieces| == 2 * |parts| - 1
    requires forall k :: 0 <= k < |parts| ==> pieces[2 * k] == parts[k]
    requires forall k :: 0 <= k < |parts| - 1 ==> pieces[2 * k + 1] == sep
    ensures Join(sep, parts) == Concat(pieces)
    decreases |parts|
  {
    if |parts| == 1 {
      assert pieces == [parts[0]];
      assert Concat(pieces[1..]) == "";
    } else {
      var rest, restPieces := parts[1..], pieces[2..];
      forall k | 0 <= k < |rest| ensures restPieces[2 * k] == rest[k] {
        assert restPieces[2 * k] == pieces[2 * (k + 1)];
      }
      forall k | 0 <= k < |rest| - 1 ensures restPieces[2 * k + 1] == sep {
        assert restPieces[2 * k + 1] == pieces[2 * (k + 1) + 1];
      }
      JoinIsInterleaving(sep, rest, restPieces);
      assert pieces[1] == sep;
      assert pieces[1..][1..] == restPieces;
      calc {
        Concat(pieces);
        pieces[0] + Concat(pieces[1..]);
        pieces[0] + (pieces[1] + Concat(restPieces));
        parts[0] + (sep + Join(sep, rest));
      }
    }
  }

  /** One literal row of the whitelist table. The name and the platform
      are placed between double quotes exactly as given: nothing in them
      is escaped. */
  function Fragment(name: string, element: string, platform: string): (f: string)
    ensures |f| == |name| + |element| + |platform| + 29
    ensures f[..8] == "SELECT \""
    ensures f[8..8 + |name|] == name
    ensures f[8 + |name|..] == "\" AS " + element + ", \"" + platform + "\" AS platform"
  {
    "SELECT \"" + name + "\" AS " + element + ", \"" + platform + "\" AS platform"
  }

  /** Two fragments with the same element are equal as text only when
      their names and platforms are. This is about the text alone: it holds
      for names holding quotes too, although such a fragment no longer
      reads back as that name. */
  lemma FragmentDeterminesCell(n1: string, p1: string, n2: string, p2: string, element: string)
    requires p1 in Platforms && p2 in Platforms
    requires Fragment(n1, element, p1) == Fragment(n2, element, p2)
    ensures n1 == n2 && p1 == p2
  {
    FragmentPlatformLetter(n1, element, p1);
    FragmentPlatformLetter(n2, element, p2);
    assert p1 == p2;
    var f := Fragment(n1, element, p1);
    assert f[8..8 + |n1|] == n1 && f[8..8 + |n2|] == n2;
  }

  /** The last letter of the platform stands 14 characters from the end
      of a fragment. */
  lemma FragmentPlatformLetter(name: string, element: string, platform: string)
    requires |platform| >= 1
    ensures var f := Fragment(name, element, platform); f[|f| - 14] == platform[|platform| - 1]
  {
    var f := Fragment(name, element, platform);
    var tail := f[8 + |name|..];
    assert tail == "\" AS " + element + ", \"" + platform + "\" AS platform";
    assert tail[|tail| - 14] == platform[|platform| - 1];
  }

  /** A name the fragment can carry verbatim: it holds no double quote,
      which would end the SQL string literal, no backslash, which would
      escape the character after it, and no line break, which a quoted
      SQL string cannot span. */
  predicate LiteralName(name: string)
  {
    forall i :: 0 <= i < |name| ==>
      name[i] != '"' && name[i] != '\\' && name[i] != '\n' && name[i] != '\r'
  }

  /** Every name of a whitelist can be carried verbatim. */
  predicate LiteralNames(whitelist: seq<string>)
  {
    forall i :: 0 <= i < |whitelist| ==> LiteralName(whitelist[i])
  }

  /** For a literal name, the string literal opened at index 7 of the
      fragment stays on one line, holds no escape and closes right after
      the name: its value is the name. */
  lemma LiteralNameIsQuoted(name: string, element: string, platform: string)
    requires LiteralName(name)
    ensures var f := Fragment(name, element, platform);
            f[7] == '"' && f[8 + |name|] == '"' &&
            forall k :: 8 <= k < 8 + |name| ==>
              f[k] != '"' && f[k] != '\\' && f[k] != '\n' && f[k] != '\r'
  {
    var f := Fragment(name, element, platform);
    forall k | 8 <= k < 8 + |name|
      ensures f[k] != '"' && f[k] != '\\' && f[k] != '\n' && f[k] != '\r'
    {
      assert f[k] == f[8..8 + |name|][k - 8] == name[k - 8];
    }
  }

  /** A name whose first double quote is at index j, with no backslash
      before it to escape that quote, ends the string literal after its
      first j characters: the SQL reads name[..j] as the value and the rest
      of the name as query text. */
  lemma QuoteClosesLiteralEarly(name: string, element: string, platform: string, j: nat)
    requires j < |name| && name[j] == '"'
    requires forall i :: 0 <= i < j ==> name[i] != '"' && name[i] != '\\'
    ensures var f := Fragment(name, element, platform);
            f[7] == '"' && f[8 + j] == '"' && 8 + j < 8 + |name| &&
            f[8..8 + j] == name[..j] &&
            forall k :: 8 <= k < 8 + j ==> f[k] != '"' && f[k] != '\\'
  {
    var f := Fragment(name, element, platform);
    assert f[8 + j] == f[8..8 + |name|][j];
    assert f[8..8 + j] == f[8..8 + |name|][..j];
    forall k | 8 <= k < 8 + j ensures f[k] != '"' && f[k] != '\\' {
      assert f[k] == f[8..8 + |name|][k - 8];
    }
  }

  /** The fragments of one name for the first platforms of a list, in order. */
  function NameFragments(name: string, element: string, platforms: seq<string>): (parts: seq<string>)
    ensures |parts| == |platforms|
    decreases |platforms|
  {
    if platforms == [] then []
    else NameFragments(name, element, platforms[..|platforms| - 1])
         + [Fragment(name, element, platforms[|platforms| - 1])]
  }

  /** The fragments of the whole whitelist, name by name, each name with
      every platform: the reference for the nested loop. */
  function CrossFragments(whitelist: seq<string>, element: string): (parts: seq<string>)
    decreases |whitelist|
  {
    if whitelist == [] then []
    else CrossFragments(whitelist[..|whitelist| - 1], element)
         + NameFragments(whitelist[|whitelist| - 1], element, Platforms)
  }

  /** The cross product has two fragments per name: entry 2i is name i on
      IOS and entry 2i + 1 is name i on ANDROID. */
  lemma {:induction false} CrossFragmentsAt(whitelist: seq<string>, element: string)
    ensures |CrossFragments(whitelist, element)| == 2 * |whitelist|
    ensures forall i :: 0 <= i < |whitelist| ==>
              CrossFragments(whitelist, element)[2 * i] == Fragment(whitelist[i], element, "IOS") &&
              CrossFragments(whitelist, element)[2 * i + 1] == Fragment(whitelist[i], element, "ANDROID")
    decreases |whitelist|
  {
    if whitelist != [] {
      var n := |whitelist| - 1;
      var init := whitelist[..n];
      CrossFragmentsAt(init, element);
      var last := NameFragments(whitelist[n], element, Platforms);
      assert Platforms[..1] == ["IOS"];
      assert last == [Fragment(whitelist[n], element, "IOS"), Fragment(whitelist[n], element, "ANDROID")];
      var all := CrossFragments(whitelist, element);
      assert all == CrossFragments(init, element) + last;
      forall i | 0 <= i < |whitelist|
        ensures all[2 * i] == Fragment(whitelist[i], element, "IOS")
        ensures all[2 * i + 1] == Fragment(whitelist[i], element, "ANDROID")
      {
        if i < n {
          assert whitelist[i] == init[i];
        }
      }
    }
  }

  /** The nested loop that fills query_parts: for every name in order, one
      fragment per platform, IOS first. */
  method BuildQueryParts(whitelist: seq<string>, element: string) returns (parts: seq<string>)
    ensures parts == CrossFragments(whitelist, element)
    ensures |parts| == 2 * |whitelist|
    ensures forall i :: 0 <= i < |whitelist| ==>
              parts[2 * i] == Fragment(whitelist[i], element, "IOS") &&
              parts[2 * i + 1] == Fragment(whitelist[i], element, "ANDROID")
  {
    parts := [];
    for i := 0 to |whitelist|
      invariant parts == CrossFragments(whitelist[..i], element)
    {
      var name := whitelist[i];
      ghost var before := parts;
      for j := 0 to |Platforms|
        invariant parts == before + NameFragments(name, element, Platforms[..j])
      {
        assert Platforms[..j + 1][..j] == Platforms[..j];
        parts := parts + [Fragment(name, element, Platforms[j])];
      }
      assert Platforms[..|Platforms|] == Platforms;
      assert whitelist[..i + 1][..i] == whitelist[..i];
    }
    assert whitelist[..|whitelist|] == whitelist;
    CrossFragmentsAt(whitelist, element);
  }

  /** query_b: the whitelist table as the fragments joined by UNION ALL,
      between "whitelist AS (" and ")". */
  function WhitelistQuery(parts: seq<string>): (q: string)
    ensures StartsWith(q, WhitelistOpen) && EndsWith(q, ")")
    ensures |parts| >= 1 ==> |q| == |WhitelistOpen| + TotalLength(parts) + (|parts| - 1) * |Separator| + 1
    ensures |parts| == 1 ==> q == WhitelistOpen + parts[0] + ")"
  {
    var joined := Join(Separator, parts);
    StartsWithAppend(WhitelistOpen, joined, WhitelistOpen);
    StartsWithAppend(WhitelistOpen + joined, ")", WhitelistOpen);
    EndsWithPrepend(WhitelistOpen + joined, ")", ")");
    WhitelistOpen + joined + ")"
  }

  /** The opening of both base extractions: the WITH clause and its first
      common table expression. */
  const BaseOpen: string := "\n            with base as("

  /** The end of both base extractions: the first common table expression
      is closed and a comma continues the WITH list, so that query_b's
      "whitelist AS (" is its second entry. */
  const BaseClose: string := "),\n                    "

  /** The base extraction for event names (query_a of the 'event_name'
      branch), line by line. */
  function EventsBase(element: string, source: string): (q: string)
    ensures StartsWith(q, BaseOpen) && EndsWith(q, BaseClose)
  {
    var select :=
      "\n                SELECT" +
      "\n                    session.value.int_value as session_id," +
      "\n                    " + element + "," +
      "\n                    platform" +
      "\n                FROM" +
      "\n                    " + source + "," +
      "\n                    UNNEST(user_properties) AS Session" +
      "\n                WHERE" +
      "\n                    event_name IS NOT NULL" +
      "\n                    AND platform IN ('ANDROID', 'IOS')" +
      "\n                ";
    StartsWithAppend(BaseOpen, select, BaseOpen);
    StartsWithAppend(BaseOpen + select, BaseClose, BaseOpen);
    EndsWithPrepend(BaseOpen + select, BaseClose, BaseClose);
    BaseOpen + select + BaseClose
  }

  /** The base extraction for screen names (query_a of the 'screen_name'
      branch), line by line. */
  function ScreensBase(element: string, source: string): (q: string)
    ensures StartsWith(q, BaseOpen) && EndsWith(q, BaseClose)
  {
    var select :=
      "\n                SELECT" +
      "\n                    session.value.int_value as session_id," +
      "\n                    Screen.value.string_value AS " + element + "," +
      "\n                    platform" +
      "\n                FROM" +
      "\n                    " + source + "," +
      "\n                    UNNEST(user_properties) AS Session," +
      "\n                    UNNEST(event_params) AS Screen" +
      "\n                WHERE" +
      "\n                    event_name = 'screen_view'" +
      "\n                    AND platform IN ('ANDROID', 'IOS')" +
      "\n                    AND Screen.key = \"firebase_screen\"" +
      "\n                    ";
    StartsWithAppend(BaseOpen, select, BaseOpen);
    StartsWithAppend(BaseOpen + select, BaseClose, BaseOpen);
    EndsWithPrepend(BaseOpen + select, BaseClose, BaseClose);
    BaseOpen + select + BaseClose
  }

  /** query_a, selected by the element name. For any other element the
      source leaves query_a unassigned, and reading it raises. */
  function BaseQuery(element: string, source: string): (q: Option<string>)
    ensures q.Some? <==> element == "event_name" || element == "screen_name"
    ensures element == "event_name" ==> q == Some(EventsBase(element, source))
    ensures element == "screen_name" ==> q == Some(ScreensBase(element, source))
  {
    if element == "event_name" then Some(EventsBase(element, source))
    else if element == "screen_name" then Some(ScreensBase(element, source))
    else None
  }

  /** The select list of query_c: the whitelist name, its platform and the
      count, in the order the rows are unpacked (row[0], row[1], row[2]). */
  function JoinColumns(element: string): string
  {
    "\n        SELECT" +
    "\n        whitelist." + element + "," +
    "\n        whitelist.platform," +
    "\n        COUNT(base.session_id) as count,"
  }

  /** The end of query_c: one row per group of identical whitelist rows. */
  const GroupClose: string := "\n        GROUP BY ALL\n    "

  /** query_c: the left join of the whitelist with the base rows, counting
      the matched session ids per whitelist row. It selects the name, the
      platform and the count in that order and ends by grouping. */
  function JoinQuery(element: string): (q: string)
    ensures StartsWith(q, JoinColumns(element)) && EndsWith(q, GroupClose)
  {
    var from :=
      "\n        FROM" +
      "\n        whitelist" +
      "\n        LEFT JOIN base USING(" + element + ", platform)";
    StartsWithAppend(JoinColumns(element), from, JoinColumns(element));
    StartsWithAppend(JoinColumns(element) + from, GroupClose, JoinColumns(element));
    EndsWithPrepend(JoinColumns(element) + from, GroupClose, GroupClose);
    JoinColumns(element) + from + GroupClose
  }

  /** The query for a whitelist: query_a + query_b + query_c, or nothing
      when the element selects no base extraction. A query opens with the
      WITH clause and ends with the grouping. */
  function PlannedQuery(element: string, source: string, whitelist: seq<string>): (r: Option<string>)
    ensures r.Some? <==> element == "event_name" || element == "screen_name"
    ensures r.Some? ==> StartsWith(r.value, BaseOpen) && EndsWith(r.value, GroupClose)
  {
    match BaseQuery(element, source)
    case None => None
    case Some(a) =>
      var b, c := WhitelistQuery(CrossFragments(whitelist, element)), JoinQuery(element);
      StartsWithAppend(a, b, BaseOpen);
      StartsWithAppend(a + b, c, BaseOpen);
      EndsWithPrepend(a + b, c, GroupClose);
      Some(a + b + c)
  }

  /** The whole query for a non-empty whitelist, written out: the base
      extraction, then "whitelist AS (", then 4n - 1 pieces alternating
      fragment and separator (the IOS and ANDROID fragments of name i at
      pieces 4i and 4i + 2), then ")", then the join. */
  lemma {:induction false} QueryLayout(element: string, source: string, whitelist: seq<string>, pieces: seq<string>)
    requires BaseQuery(element, source).Some?
    requires |whitelist| >= 1
    requires |pieces| == 4 * |whitelist| - 1
    requires forall i :: 0 <= i < |whitelist| ==>
               pieces[4 * i] == Fragment(whitelist[i], element, "IOS") &&
               pieces[4 * i + 2] == Fragment(whitelist[i], element, "ANDROID")
    requires forall k :: 0 <= k < 2 * |whitelist| - 1 ==> pieces[2 * k + 1] == Separator
    ensures PlannedQuery(element, source, whitelist) ==
              Some(BaseQuery(element, source).value + WhitelistOpen + Concat(pieces) + ")" + JoinQuery(element))
  {
    var parts := CrossFragments(whitelist, element);
    CrossFragmentsAt(whitelist, element);
    forall k | 0 <= k < |parts| ensures pieces[2 * k] == parts[k] {
      var i := k / 2;
      if k % 2 == 0 {
        assert k == 2 * i && 2 * k == 4 * i;
        assert parts[2 * i] == Fragment(whitelist[i], element, "IOS");
      } else {
        assert k == 2 * i + 1 && 2 * k == 4 * i + 2;
        assert parts[2 * i + 1] == Fragment(whitelist[i], element, "ANDROID");
      }
    }
    JoinIsInterleaving(Separator, parts, pieces);
    QueryAssembly(element, source, whitelist);
  }

  /** The planned query is query_a, "whitelist AS (", the joined cross
      product, ")" and query_c, in that order. */
  lemma QueryAssembly(element: string, source: string, whitelist: seq<string>)
    requires BaseQuery(element, source).Some?
    ensures PlannedQuery(element, source, whitelist) ==
              Some(BaseQuery(element, source).value + WhitelistOpen
                   + Join(Separator, CrossFragments(whitelist, element)) + ")" + JoinQuery(element))
  {
    var a, parts := BaseQuery(element, source).value, CrossFragments(whitelist, element);
    var joined := Join(Separator, parts);
    assert PlannedQuery(element, source, whitelist) == Some(a + WhitelistQuery(parts) + JoinQuery(element));
    assert WhitelistQuery(parts) == WhitelistOpen + joined + ")";
    RegroupQuery(a, WhitelistOpen, joined, ")", JoinQuery(element));
  }

  /** Regrouping the five pieces of the query. */
  lemma RegroupQuery(a: string, open: string, joined: string, close: string, c: string)
    ensures a + (open + joined + close) + c == a + open + joined + close + c
  {
  }
}
