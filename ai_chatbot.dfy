/** The chatbot's routing: `process_query` sends a question to a handler by the
    first keyword group that occurs in the lower-cased, stripped question; the
    statistics, fantasy and position handlers pick a topic the same way; the
    comparison handler splits the question into player names and compares the
    rows it finds. */
module Chatbot {
  import opened Wrappers
  import opened Strings
  import opened Seqs
  import opened DataProcessing

  // ---------------------------------------------------------------------
  // First-match keyword classification
  // ---------------------------------------------------------------------

  /** `any(word in q for word in words)`. */
  predicate AnyIn(q: string, words: seq<string>) {
    exists w | w in words :: Contains(q, w)
  }

  /** Group `k` is the first group, in the order `order`, with a keyword in `q`. */
  ghost predicate IsFirstGroup<T>(q: string, order: seq<T>, words: T -> seq<string>, k: int) {
    0 <= k < |order| && AnyIn(q, words(order[k])) &&
    forall j :: 0 <= j < k ==> !AnyIn(q, words(order[j]))
  }

  /** An `if`/`elif` chain of keyword tests over the groups `words(t)` for the
      tags `t` of `order`: the first tag whose group has a keyword in `q`, or
      `None` when the chain falls through to its `else`. */
  function FirstGroup<T>(q: string, order: seq<T>, words: T -> seq<string>): (r: Option<T>)
    ensures r.Some? ==> exists k :: IsFirstGroup(q, order, words, k) && r.value == order[k]
    ensures r.None? ==> forall k :: 0 <= k < |order| ==> !AnyIn(q, words(order[k]))
    decreases |order|
  {
    if order == [] then None
    else if AnyIn(q, words(order[0])) then
      assert IsFirstGroup(q, order, words, 0);
      Some(order[0])
    else
      var r := FirstGroup(q, order[1..], words);
      FirstGroupShift(q, order, words, r);
      r
  }

  /** A chain whose first group has no keyword answers like the chain without it. */
  lemma FirstGroupShift<T>(q: string, order: seq<T>, words: T -> seq<string>, r: Option<T>)
    requires order != [] && !AnyIn(q, words(order[0]))
    ensures r.Some? && (exists k :: IsFirstGroup(q, order[1..], words, k) && r.value == order[1..][k]) ==>
            exists k :: IsFirstGroup(q, order, words, k) && r.value == order[k]
    ensures (forall k :: 0 <= k < |order| - 1 ==> !AnyIn(q, words(order[1..][k]))) ==>
            forall k :: 0 <= k < |order| ==> !AnyIn(q, words(order[k]))
  {
    if r.Some? && exists k :: IsFirstGroup(q, order[1..], words, k) && r.value == order[1..][k] {
      var k :| IsFirstGroup(q, order[1..], words, k) && r.value == order[1..][k];
      assert IsFirstGroup(q, order, words, k + 1);
    }
    if forall k :: 0 <= k < |order| - 1 ==> !AnyIn(q, words(order[1..][k])) {
      forall k | 0 < k < |order| ensures !AnyIn(q, words(order[k])) {
        assert order[k] == order[1..][k - 1];
      }
    }
  }

  /** With distinct tags, the chain answers tag `order[k]` exactly when group
      `k` is the first with a keyword in `q`. */
  lemma FirstGroupIff<T>(q: string, order: seq<T>, words: T -> seq<string>, k: int)
    requires Distinct(order) && 0 <= k < |order|
    ensures FirstGroup(q, order, words) == Some(order[k]) <==> IsFirstGroup(q, order, words, k)
  {
    var r := FirstGroup(q, order, words);
    if r.Some? {
      var m :| IsFirstGroup(q, order, words, m) && r.value == order[m];
      if IsFirstGroup(q, order, words, k) && m != k {
        assert false;
      }
    }
  }

  // ---------------------------------------------------------------------
  // process_query
  // ---------------------------------------------------------------------

  datatype Handler =
    | PlayerHandler | StatisticalHandler | FantasyHandler | ComparisonHandler
    | TeamHandler | PositionHandler | HelpHandler | GeneralHandler

  /** The keyword group `process_query` tests for each handler. */
  function Keywords(h: Handler): seq<string> {
    match h
    case PlayerHandler => ["who is", "tell me about", "show me", "player"]
    case StatisticalHandler => ["top", "best", "highest", "most", "leader"]
    case FantasyHandler => ["pick", "recommend", "should i", "fantasy", "draft"]
    case ComparisonHandler => ["compare", "vs", "versus", "better"]
    case TeamHandler => ["team", "roster", "players on"]
    case PositionHandler => ["position", "pg", "sg", "sf", "pf", "c", "guard", "forward", "center"]
    case HelpHandler => ["help", "what can", "how to", "explain"]
    case GeneralHandler => []
  }

  /** The order in which `process_query` tries the groups. */
  const RouteOrder: seq<Handler> := [
    PlayerHandler, StatisticalHandler, FantasyHandler, ComparisonHandler,
    TeamHandler, PositionHandler, HelpHandler
  ]

  lemma RouteOrderDistinct()
    ensures Distinct(RouteOrder)
  {
  }

  /** `query.lower().strip()`. */
  function Normalize(query: string): string {
    Strip(Lower(query))
  }

  /** The handler `process_query` calls for `query`: one whose keyword occurs
      in the normalised question, unless it is the general fallback. */
  function ProcessQuery(query: string): (h: Handler)
    ensures h != GeneralHandler ==> AnyIn(Normalize(query), Keywords(h))
  {
    match FirstGroup(Normalize(query), RouteOrder, Keywords)
    case Some(h) => h
    case None => GeneralHandler
  }

  /** The handler of group `k` is chosen exactly when group `k` has a keyword
      in the normalised query and no earlier group has one. */
  lemma RoutePriority(query: string, k: int)
    requires 0 <= k < |RouteOrder|
    ensures ProcessQuery(query) == RouteOrder[k] <==> IsFirstGroup(Normalize(query), RouteOrder, Keywords, k)
  {
    RouteOrderDistinct();
    FirstGroupIff(Normalize(query), RouteOrder, Keywords, k);
  }

  /** The general handler is chosen exactly when no keyword of any group occurs. */
  lemma GeneralIffNoKeyword(query: string)
    ensures ProcessQuery(query) == GeneralHandler <==>
            forall k :: 0 <= k < |RouteOrder| ==> !AnyIn(Normalize(query), Keywords(RouteOrder[k]))
  {
    var r := FirstGroup(Normalize(query), RouteOrder, Keywords);
    if r.Some? {
      var k :| IsFirstGroup(Normalize(query), RouteOrder, Keywords, k) && r.value == RouteOrder[k];
      assert r.value != GeneralHandler;
    }
  }

  /** A player keyword wins over every other group, whatever else the query says. */
  lemma PlayerKeywordWins(query: string)
    requires AnyIn(Normalize(query), Keywords(PlayerHandler))
    ensures ProcessQuery(query) == PlayerHandler
  {
    assert IsFirstGroup(Normalize(query), RouteOrder, Keywords, 0);
    RoutePriority(query, 0);
  }

  /** A question routed to help has no position keyword. */
  lemma HelpHasNoPositionWord(query: string)
    requires ProcessQuery(query) == HelpHandler
    ensures !AnyIn(Normalize(query), Keywords(PositionHandler))
  {
    RoutePriority(query, 6);
    assert RouteOrder[5] == PositionHandler;
  }

  /** Without a position keyword there is no letter c. */
  lemma NoPositionWordNoC(q: string)
    requires !AnyIn(q, Keywords(PositionHandler))
    ensures 'c' !in q
  {
    assert Keywords(PositionHandler)[5] == "c";
    SingleChar(q, 'c');
  }

  /** The single letter "c" is a position keyword tried before the help
      keywords, so a question routed to help never contains the letter c. */
  lemma HelpExcludesLetterC(query: string)
    requires ProcessQuery(query) == HelpHandler
    ensures 'c' !in Normalize(query)
  {
    HelpHasNoPositionWord(query);
    NoPositionWordNoC(Normalize(query));
  }

  /** The help keyword "what can" contains the letter c, so a question with
      "what can" in it (such as "what can you do") never reaches help. */
  lemma WhatCanNeverReachesHelp(query: string)
    requires Contains(Normalize(query), "what can")
    ensures ProcessQuery(query) != HelpHandler
  {
    WhatCanHasC(Normalize(query));
    if ProcessQuery(query) == HelpHandler {
      HelpExcludesLetterC(query);
    }
  }

  lemma WhatCanHasC(q: string)
    requires Contains(q, "what can")
    ensures 'c' in q
  {
    ContainsIff(q, "what can");
    var i :| OccursAt(q, "what can", i);
    assert q[i..i + 8][5] == 'c';
    assert q[i + 5] in q;
  }

  // ---------------------------------------------------------------------
  // Handler topics
  // ---------------------------------------------------------------------

  datatype StatTopic = TopFantasy | TopScorers | TopRebounders | TopAssists

  /** The keywords of the branches of `_handle_statistical_query`. */
  function StatKeywords(t: StatTopic): seq<string> {
    match t
    case TopFantasy => ["fantasy"]
    case TopScorers => ["point", "score"]
    case TopRebounders => ["rebound"]
    case TopAssists => ["assist"]
  }

  const StatOrder: seq<StatTopic> := [TopFantasy, TopScorers, TopRebounders, TopAssists]

  /** The statistic asked for, or `None` for the suggestion text. */
  function StatisticalTopic(query: string): (t: Option<StatTopic>)
    ensures t.Some? ==> AnyIn(Lower(query), StatKeywords(t.value))
    ensures t.None? ==> forall k :: 0 <= k < |StatOrder| ==> !AnyIn(Lower(query), StatKeywords(StatOrder[k]))
  {
    FirstGroup(Lower(query), StatOrder, StatKeywords)
  }

  lemma StatisticalPriority(query: string, k: int)
    requires 0 <= k < |StatOrder|
    ensures StatisticalTopic(query) == Some(StatOrder[k]) <==> IsFirstGroup(Lower(query), StatOrder, StatKeywords, k)
  {
    FirstGroupIff(Lower(query), StatOrder, StatKeywords, k);
  }

  datatype FantasyTopic = DraftPicks | Sleepers | PointGuardPicks

  /** The keywords of the branches of `_handle_fantasy_query`. */
  function FantasyKeywords(t: FantasyTopic): seq<string> {
    match t
    case DraftPicks => ["draft", "pick", "first round"]
    case Sleepers => ["sleeper", "undervalued"]
    case PointGuardPicks => ["point guard", "pg", "guard"]
  }

  const FantasyOrder: seq<FantasyTopic> := [DraftPicks, Sleepers, PointGuardPicks]

  /** The recommendation asked for, or `None` for the suggestion text. */
  function FantasyTopicOf(query: string): (t: Option<FantasyTopic>)
    ensures t.Some? ==> AnyIn(Lower(query), FantasyKeywords(t.value))
    ensures t.None? ==> forall k :: 0 <= k < |FantasyOrder| ==> !AnyIn(Lower(query), FantasyKeywords(FantasyOrder[k]))
  {
    FirstGroup(Lower(query), FantasyOrder, FantasyKeywords)
  }

  lemma FantasyPriority(query: string, k: int)
    requires 0 <= k < |FantasyOrder|
    ensures FantasyTopicOf(query) == Some(FantasyOrder[k]) <==> IsFirstGroup(Lower(query), FantasyOrder, FantasyKeywords, k)
  {
    FirstGroupIff(Lower(query), FantasyOrder, FantasyKeywords, k);
  }

  /** The keywords `_handle_position_query` tests for each position code. */
  function PositionKeywords(code: string): seq<string> {
    if code == "PG" then ["point guard", "pg"]
    else if code == "SG" then ["shooting guard", "sg"]
    else if code == "SF" then ["small forward", "sf"]
    else if code == "PF" then ["power forward", "pf"]
    else if code == "C" then ["center", "c"]
    else []
  }

  /** The position code asked for, tried in the order PG, SG, SF, PF, C, or
      `None` for the suggestion text. */
  function PositionChoice(query: string): (r: Option<string>)
    ensures r.Some? ==> r.value in PositionCodes
  {
    FirstGroup(Lower(query), PositionCodes, PositionKeywords)
  }

  lemma PositionPriority(query: string, k: int)
    requires 0 <= k < |PositionCodes|
    ensures PositionChoice(query) == Some(PositionCodes[k]) <==>
            IsFirstGroup(Lower(query), PositionCodes, PositionKeywords, k)
  {
    assert Distinct(PositionCodes);
    FirstGroupIff(Lower(query), PositionCodes, PositionKeywords, k);
  }

  /** A question with a statistics keyword and no player keyword goes to the
      statistics handler, even when it names a position or asks for picks. */
  lemma StatisticsPreemptPositions(query: string)
    requires AnyIn(Normalize(query), Keywords(StatisticalHandler))
    requires !AnyIn(Normalize(query), Keywords(PlayerHandler))
    ensures ProcessQuery(query) == StatisticalHandler
  {
    StatisticalGroupFirst(Normalize(query));
    RoutePriority(query, 1);
  }

  lemma StatisticalGroupFirst(q: string)
    requires AnyIn(q, Keywords(StatisticalHandler)) && !AnyIn(q, Keywords(PlayerHandler))
    ensures IsFirstGroup(q, RouteOrder, Keywords, 1)
  {
    assert RouteOrder[0] == PlayerHandler && RouteOrder[1] == StatisticalHandler;
  }

  /** In the statistics handler "point" without "fantasy" selects the top
      scorers; with the lemma above, "best point guards" lists scorers, not
      point guards. */
  lemma PointSelectsScorers(query: string)
    requires Contains(Lower(query), "point") && !Contains(Lower(query), "fantasy")
    ensures StatisticalTopic(query) == Some(TopScorers)
  {
    var l := Lower(query);
    assert StatKeywords(TopFantasy) == ["fantasy"];
    assert !AnyIn(l, StatKeywords(TopFantasy));
    assert StatKeywords(TopScorers)[0] == "point";
    assert AnyIn(l, StatKeywords(TopScorers));
    assert IsFirstGroup(l, StatOrder, StatKeywords, 1);
    StatisticalPriority(query, 1);
  }

  // ---------------------------------------------------------------------
  // Top-N lists
  // ---------------------------------------------------------------------

  /** The column each statistics topic ranks by. */
  function StatKey(topic: StatTopic): PlayerRow -> real {
    match topic
    case TopFantasy => FantasyKey
    case TopScorers => PtsKey
    case TopRebounders => TrbKey
    case TopAssists => AstKey
  }

  predicate IsSleeper(r: PlayerRow) {
    25.0 < r.fantasyPoints < 35.0
  }

  /** Fantasy_Points strictly between 25 and 35, the five highest. */
  function SleeperList(df: seq<PlayerRow>): (r: seq<PlayerRow>)
    ensures |r| <= 5 && SortedDesc(r, FantasyKey)
  {
    NLargest(Filter(df, IsSleeper), 5, FantasyKey)
  }

  /** The five highest Fantasy_Points among rows whose Pos is `position`. */
  function PositionList(df: seq<PlayerRow>, position: string): (r: seq<PlayerRow>)
    ensures |r| <= 5 && SortedDesc(r, FantasyKey)
  {
    NLargest(Filter(df, PositionIs(position)), 5, FantasyKey)
  }

  /** Every listed sleeper is a row of the table in the sleeper band, and no
      unlisted sleeper has more fantasy points than a listed one. */
  lemma SleepersQualify(df: seq<PlayerRow>)
    ensures forall x :: x in SleeperList(df) ==> x in df && 25.0 < x.fantasyPoints < 35.0
    ensures |SleeperList(df)| == if 5 < |Filter(df, IsSleeper)| then 5 else |Filter(df, IsSleeper)|
    ensures forall x, y :: x in Filter(df, IsSleeper) && x !in SleeperList(df) && y in SleeperList(df) ==>
      x.fantasyPoints <= y.fantasyPoints
  {
    var s := Filter(df, IsSleeper);
    var r := SleeperList(df);
    FilterMembers(df, IsSleeper);
    forall x | x in r ensures x in s {
      assert x in multiset(r);
    }
    forall x, y | x in s && x !in r && y in r ensures x.fantasyPoints <= y.fantasyPoints {
      assert x in multiset(s) - multiset(r);
    }
  }

  /** Every row of a position list is a row of the table at that position;
      the list holds the five best of them (all of them when fewer), and no
      unlisted row at the position has more fantasy points than a listed one. */
  lemma PositionListQualify(df: seq<PlayerRow>, position: string)
    ensures forall x :: x in PositionList(df, position) ==> x in df && x.pos == position
    ensures SortedDesc(PositionList(df, position), FantasyKey)
    ensures |PositionList(df, position)| ==
      if 5 < |Filter(df, PositionIs(position))| then 5 else |Filter(df, PositionIs(position))|
    ensures forall x, y ::
      (x in Filter(df, PositionIs(position)) && x !in PositionList(df, position) && y in PositionList(df, position)) ==>
        x.fantasyPoints <= y.fantasyPoints
  {
    var s := Filter(df, PositionIs(position));
    var r := PositionList(df, position);
    FilterMembers(df, PositionIs(position));
    forall x | x in r ensures x in s {
      assert x in multiset(r);
    }
    forall x, y | x in s && x !in r && y in r ensures x.fantasyPoints <= y.fantasyPoints {
      assert x in multiset(s) - multiset(r);
    }
  }

  // ---------------------------------------------------------------------
  // Comparisons
  // ---------------------------------------------------------------------

  function NonEmpty(): string -> bool {
    (n: string) => n != []
  }

  /** `[p.strip() for p in pieces if p.strip()]`. */
  function Cleaned(pieces: seq<string>): seq<string> {
    Filter(Map(pieces, Strip), NonEmpty())
  }

  /** The names `_extract_multiple_player_names` returns. The regex branch for
      "compare" is not modelled: `compareNames` is what it returns. */
  function ExtractNames(query: string, compareNames: seq<string>): (names: seq<string>)
    ensures Contains(Lower(query), " vs ") ==>
      forall n :: n in names ==> n != [] && Strip(n) == n && !Contains(n, " vs ")
    ensures !Contains(Lower(query), " vs ") && Contains(Lower(query), " versus ") ==>
      forall n :: n in names ==> n != [] && Strip(n) == n && !Contains(n, " versus ")
    ensures (!Contains(Lower(query), " vs ") && !Contains(Lower(query), " versus ") &&
             !Contains(Lower(query), "compare")) ==> names == []
  {
    var q := Lower(query);
    if Contains(q, " vs ") then
      SeparatedNames(q, " vs ");
      Cleaned(Split(q, " vs "))
    else if Contains(q, " versus ") then
      SeparatedNames(q, " versus ");
      Cleaned(Split(q, " versus "))
    else if Contains(q, "compare") then compareNames
    else []
  }

  /** A piece without `sep` stays without it after stripping. */
  lemma StripKeepsAbsence(p: string, sep: string)
    requires !Contains(p, sep)
    ensures !Contains(Strip(p), sep)
  {
    var l := StripLeft(p);
    var r := StripRight(l);
    if Contains(r, sep) {
      assert l[0..|r|] == r;
      ContainsInSlice(l, 0, |r|, sep);
      assert p[|p| - |l|..|p|] == l;
      ContainsInSlice(p, |p| - |l|, |p|, sep);
    }
  }

  /** Which separator is used: " vs " when present, else " versus ", else
      the "compare" branch. The names are then the stripped, non-empty pieces
      between the leftmost occurrences of the separator, in order, and with
      " vs " or " versus " they do not depend on the "compare" branch. */
  lemma ExtractNamesShape(query: string, compareNames: seq<string>)
    ensures Contains(Lower(query), " vs ") ==>
      ExtractNames(query, compareNames) == Cleaned(Split(Lower(query), " vs "))
    ensures !Contains(Lower(query), " vs ") && Contains(Lower(query), " versus ") ==>
      ExtractNames(query, compareNames) == Cleaned(Split(Lower(query), " versus "))
    ensures (!Contains(Lower(query), " vs ") && !Contains(Lower(query), " versus ") &&
             Contains(Lower(query), "compare")) ==> ExtractNames(query, compareNames) == compareNames
    ensures Contains(Lower(query), " vs ") || Contains(Lower(query), " versus ") ==>
      ExtractNames(query, compareNames) == ExtractNames(query, [])
  {
  }

  /** The cleaned pieces are exactly the non-empty strips of the pieces. */
  lemma CleanedNames(pieces: seq<string>)
    ensures forall n :: n in Cleaned(pieces) ==> n != [] && exists k :: 0 <= k < |pieces| && Strip(pieces[k]) == n
    ensures forall k :: 0 <= k < |pieces| && Strip(pieces[k]) != [] ==> Strip(pieces[k]) in Cleaned(pieces)
  {
    var stripped := Map(pieces, Strip);
    FilterMembers(stripped, NonEmpty());
    forall n | n in Cleaned(pieces) ensures n != [] && exists k :: 0 <= k < |pieces| && Strip(pieces[k]) == n {
      assert n in stripped;
      var k :| 0 <= k < |stripped| && stripped[k] == n;
    }
    forall k | 0 <= k < |pieces| && Strip(pieces[k]) != [] ensures Strip(pieces[k]) in Cleaned(pieces) {
      assert stripped[k] in stripped;
    }
  }

  lemma SeparatedNames(q: string, sep: string)
    requires |sep| > 0
    ensures forall n :: n in Cleaned(Split(q, sep)) ==> n != [] && Strip(n) == n && !Contains(n, sep)
  {
    CleanedPieces(Split(q, sep), sep);
  }

  lemma CleanPiece(p: string, sep: string)
    requires !Contains(p, sep)
    ensures Strip(Strip(p)) == Strip(p) && !Contains(Strip(p), sep)
  {
    StripIdempotent(p);
    StripKeepsAbsence(p, sep);
  }

  /** Cleaning pieces that lack `sep` gives non-empty stripped names that lack it. */
  lemma CleanedPieces(pieces: seq<string>, sep: string)
    requires forall k :: 0 <= k < |pieces| ==> !Contains(pieces[k], sep)
    ensures forall n :: n in Cleaned(pieces) ==> n != [] && Strip(n) == n && !Contains(n, sep)
  {
    var stripped := Map(pieces, Strip);
    FilterMembers(stripped, NonEmpty());
    forall n | n in Cleaned(pieces) ensures n != [] && Strip(n) == n && !Contains(n, sep) {
      assert n in stripped && NonEmpty()(n);
      var i :| 0 <= i < |pieces| && stripped[i] == n;
      CleanPiece(pieces[i], sep);
    }
  }

  /** A row whose lower-cased Player column contains `name`. */
  function NameMatches(name: string): PlayerRow -> bool {
    (r: PlayerRow) => Contains(Lower(r.player), name)
  }

  /** The first row whose player matches `name`, if any (`.iloc[0]` of the
      matching rows). */
  function FirstMatch(df: seq<PlayerRow>, name: string): (m: Option<PlayerRow>)
    ensures m.Some? ==> m.value in df && Contains(Lower(m.value.player), name)
    ensures m.Some? ==>
      exists i :: 0 <= i < |df| && df[i] == m.value &&
                  (forall j :: 0 <= j < i ==> !Contains(Lower(df[j].player), name))
    ensures m.None? <==> forall x :: x in df ==> !Contains(Lower(x.player), name)
    decreases |df|
  {
    if df == [] then None
    else if Contains(Lower(df[0].player), name) then
      Some(df[0])
    else
      var m := FirstMatch(df[1..], name);
      FirstMatchShift(df, name, m);
      m
  }

  /** Past a first row that does not match, the first match of the rest is the
      first match of the whole table. */
  lemma FirstMatchShift(df: seq<PlayerRow>, name: string, m: Option<PlayerRow>)
    requires df != [] && !Contains(Lower(df[0].player), name)
    requires m.Some? ==>
      m.value in df[1..] && exists i :: 0 <= i < |df| - 1 && df[1..][i] == m.value &&
                                        (forall j :: 0 <= j < i ==> !Contains(Lower(df[1..][j].player), name))
    requires m.None? <==> forall x :: x in df[1..] ==> !Contains(Lower(x.player), name)
    ensures m.Some? ==>
      m.value in df && exists i :: 0 <= i < |df| && df[i] == m.value &&
                                   (forall j :: 0 <= j < i ==> !Contains(Lower(df[j].player), name))
    ensures m.None? <==> forall x :: x in df ==> !Contains(Lower(x.player), name)
  {
    assert forall x :: x in df <==> x == df[0] || x in df[1..];
    if m.Some? {
      var i :| 0 <= i < |df| - 1 && df[1..][i] == m.value &&
        (forall j :: 0 <= j < i ==> !Contains(Lower(df[1..][j].player), name));
      assert df[i + 1] == m.value;
      forall j | 0 <= j < i + 1 ensures !Contains(Lower(df[j].player), name) {
        if j > 0 {
          assert df[j] == df[1..][j - 1];
        }
      }
    }
  }

  /** A name for which some row matches. */
  function HasMatch(df: seq<PlayerRow>): string -> bool {
    (n: string) => FirstMatch(df, n).Some?
  }

  /** For each name in order, its first matching row, when there is one. */
  function FoundRows(df: seq<PlayerRow>, names: seq<string>): (found: seq<PlayerRow>)
    ensures |found| <= |names|
    ensures forall x :: x in found ==> exists n :: n in names && FirstMatch(df, n) == Some(x)
    ensures forall n :: n in names && FirstMatch(df, n).Some? ==> FirstMatch(df, n).value in found
    decreases |names|
  {
    if names == [] then []
    else
      var front, n := names[..|names| - 1], names[|names| - 1];
      assert names == front + [n];
      var init := FoundRows(df, front);
      var m := FirstMatch(df, n);
      FoundRowsStep(df, front, n, init);
      if m.Some? then init + [m.value] else init
  }

  /** The rows found for the first names, extended by the next name's first
      match, are the rows found for all of them. */
  lemma FoundRowsStep(df: seq<PlayerRow>, front: seq<string>, n: string, init: seq<PlayerRow>)
    requires forall x :: x in init ==> exists k :: k in front && FirstMatch(df, k) == Some(x)
    requires forall k :: k in front && FirstMatch(df, k).Some? ==> FirstMatch(df, k).value in init
    ensures var m := FirstMatch(df, n);
      var found := if m.Some? then init + [m.value] else init;
      && (forall x :: x in found ==> exists k :: k in front + [n] && FirstMatch(df, k) == Some(x))
      && (forall k :: k in front + [n] && FirstMatch(df, k).Some? ==> FirstMatch(df, k).value in found)
  {
    var m := FirstMatch(df, n);
    var found := if m.Some? then init + [m.value] else init;
    forall x | x in found ensures exists k :: k in front + [n] && FirstMatch(df, k) == Some(x) {
      if x in init {
        var k :| k in front && FirstMatch(df, k) == Some(x);
        assert k in front + [n];
      } else {
        assert n in front + [n];
      }
    }
    forall k | k in front + [n] && FirstMatch(df, k).Some? ensures FirstMatch(df, k).value in found {
      assert k in front || k == n;
    }
  }

  /** One row is found per name that has a match. */
  lemma {:induction false} FoundRowsCount(df: seq<PlayerRow>, names: seq<string>)
    ensures |FoundRows(df, names)| == |Filter(names, HasMatch(df))|
    decreases |names|
  {
    if names != [] {
      var front := names[..|names| - 1];
      FoundRowsCount(df, front);
    }
  }

  /** The found rows are, in order, the first matches of the names that have
      one. */
  lemma {:induction false} FoundRowsInOrder(df: seq<PlayerRow>, names: seq<string>)
    ensures |FoundRows(df, names)| == |Filter(names, HasMatch(df))|
    ensures forall i :: 0 <= i < |FoundRows(df, names)| ==>
      FirstMatch(df, Filter(names, HasMatch(df))[i]) == Some(FoundRows(df, names)[i])
    decreases |names|
  {
    FoundRowsCount(df, names);
    if names != [] {
      var front := names[..|names| - 1];
      var n := names[|names| - 1];
      FoundRowsInOrder(df, front);
      var init, picked := FoundRows(df, front), Filter(front, HasMatch(df));
      var found, named := FoundRows(df, names), Filter(names, HasMatch(df));
      assert named == picked + (if HasMatch(df)(n) then [n] else []);
      assert found == if HasMatch(df)(n) then init + [FirstMatch(df, n).value] else init;
      forall i | 0 <= i < |found| ensures FirstMatch(df, named[i]) == Some(found[i]) {
        if i < |init| {
          assert named[i] == picked[i] && found[i] == init[i];
        } else {
          assert named[i] == n;
        }
      }
    }
  }

  /** Index of the first row with the most fantasy points (Python's `max` with
      a key keeps the first of equal maxima). */
  function BestIndex(rows: seq<PlayerRow>): (b: nat)
    requires rows != []
    ensures b < |rows|
    ensures forall j :: 0 <= j < |rows| ==> rows[j].fantasyPoints <= rows[b].fantasyPoints
    ensures forall j :: 0 <= j < b ==> rows[j].fantasyPoints < rows[b].fantasyPoints
    decreases |rows|
  {
    if |rows| == 1 then 0
    else
      var b := BestIndex(rows[..|rows| - 1]);
      assert forall j :: 0 <= j < |rows| - 1 ==> rows[..|rows| - 1][j] == rows[j];
      if rows[|rows| - 1].fantasyPoints > rows[b].fantasyPoints then |rows| - 1 else b
  }

  datatype Comparison =
    | NeedTwoNames
    | NotEnoughFound
    | Compared(found: seq<PlayerRow>, winner: PlayerRow)

  /** `_handle_comparison_query` after extracting the names. */
  function Compare(df: seq<PlayerRow>, names: seq<string>): (c: Comparison)
    ensures c == NeedTwoNames <==> |names| < 2
    ensures c == NotEnoughFound <==> |names| >= 2 && |FoundRows(df, names)| < 2
    ensures c.Compared? ==>
      c.found == FoundRows(df, names) && |c.found| >= 2 && c.winner in c.found &&
      (forall x :: x in c.found ==> x.fantasyPoints <= c.winner.fantasyPoints)
    ensures c.Compared? ==>
      exists b :: 0 <= b < |c.found| && c.found[b] == c.winner &&
                  (forall j :: 0 <= j < b ==> c.found[j].fantasyPoints < c.winner.fantasyPoints)
  {
    if |names| < 2 then NeedTwoNames
    else
      var found := FoundRows(df, names);
      if |found| < 2 then NotEnoughFound
      else
        var b := BestIndex(found);
        Compared(found, found[b])
  }

  // ---------------------------------------------------------------------
  // Fantasy impact line of the player answer
  // ---------------------------------------------------------------------

  datatype Impact = Elite | Strong | RolePlayer

  function FantasyImpact(fantasyPoints: real): (t: Impact)
    ensures t == Elite <==> fantasyPoints > 40.0
    ensures t == Strong <==> 30.0 < fantasyPoints <= 40.0
    ensures t == RolePlayer <==> fantasyPoints <= 30.0
  {
    if fantasyPoints > 40.0 then Elite
    else if fantasyPoints > 30.0 then Strong
    else RolePlayer
  }

  function ImpactLevel(t: Impact): nat {
    match t
    case RolePlayer => 0
    case Strong => 1
    case Elite => 2
  }

  /** More fantasy points never give a lower tier. */
  lemma ImpactMonotone(a: real, b: real)
    requires a <= b
    ensures ImpactLevel(FantasyImpact(a)) <= ImpactLevel(FantasyImpact(b))
  {
  }

  // ---------------------------------------------------------------------
  // The whole answer
  // ---------------------------------------------------------------------

  /** What the bot answers: a top-N list, a handler's fixed suggestion text, a
      comparison, or a handler whose lookup is not modelled. */
  datatype Reply =
    | AboutPlayer
    | TopList(rows: seq<PlayerRow>)
    | Suggestion(handler: Handler)
    | Comparing(outcome: Comparison)
    | AboutTeam
    | HelpText
    | NotUnderstood

  function Answer(df: seq<PlayerRow>, query: string, compareNames: seq<string>): (r: Reply)
    ensures r == HelpText <==> ProcessQuery(query) == HelpHandler
    ensures r == NotUnderstood <==> ProcessQuery(query) == GeneralHandler
    ensures r == AboutPlayer <==> ProcessQuery(query) == PlayerHandler
    ensures r == AboutTeam <==> ProcessQuery(query) == TeamHandler
    ensures r.Comparing? <==> ProcessQuery(query) == ComparisonHandler
    ensures r.Comparing? ==> r.outcome == Compare(df, ExtractNames(query, compareNames))
    ensures r.Suggestion? ==> r.handler == ProcessQuery(query)
    ensures r.TopList? || r.Suggestion? <==>
      ProcessQuery(query) in {StatisticalHandler, FantasyHandler, PositionHandler}
    ensures ProcessQuery(query) == StatisticalHandler ==>
      r == (if StatisticalTopic(query).Some?
            then TopList(NLargest(df, 5, StatKey(StatisticalTopic(query).value)))
            else Suggestion(StatisticalHandler))
    ensures ProcessQuery(query) == FantasyHandler ==>
      r == (match FantasyTopicOf(query)
            case Some(DraftPicks) => TopList(NLargest(df, 10, FantasyKey))
            case Some(Sleepers) => TopList(SleeperList(df))
            case Some(PointGuardPicks) => TopList(PositionList(df, "PG"))
            case None => Suggestion(FantasyHandler))
    ensures ProcessQuery(query) == PositionHandler ==>
      r == (if PositionChoice(query).Some?
            then TopList(PositionList(df, PositionChoice(query).value))
            else Suggestion(PositionHandler))
  {
    match ProcessQuery(query)
    case PlayerHandler => AboutPlayer
    case StatisticalHandler =>
      (match StatisticalTopic(query)
       case Some(topic) => TopList(NLargest(df, 5, StatKey(topic)))
       case None => Suggestion(StatisticalHandler))
    case FantasyHandler =>
      (match FantasyTopicOf(query)
       case Some(DraftPicks) => TopList(NLargest(df, 10, FantasyKey))
       case Some(Sleepers) => TopList(SleeperList(df))
       case Some(PointGuardPicks) => TopList(PositionList(df, "PG"))
       case None => Suggestion(FantasyHandler))
    case ComparisonHandler => Comparing(Compare(df, ExtractNames(query, compareNames)))
    case TeamHandler => AboutTeam
    case PositionHandler =>
      (match PositionChoice(query)
       case Some(position) => TopList(PositionList(df, position))
       case None => Suggestion(PositionHandler))
    case HelpHandler => HelpText
    case GeneralHandler => NotUnderstood
  }

  lemma ListedFrom(s: seq<PlayerRow>, n: nat, key: PlayerRow -> real)
    ensures forall x :: x in NLargest(s, n, key) ==> x in s
  {
    forall x | x in NLargest(s, n, key) ensures x in s {
      assert x in multiset(NLargest(s, n, key));
    }
  }

  /** Every list the bot answers with holds at most ten rows, all of them rows
      of the table. */
  lemma AnswerListsTableRows(df: seq<PlayerRow>, query: string, compareNames: seq<string>)
    requires Answer(df, query, compareNames).TopList?
    ensures |Answer(df, query, compareNames).rows| <= 10
    ensures forall x :: x in Answer(df, query, compareNames).rows ==> x in df
  {
    var h := ProcessQuery(query);
    if h == StatisticalHandler {
      ListedFrom(df, 5, StatKey(StatisticalTopic(query).value));
    } else if h == FantasyHandler {
      var t := FantasyTopicOf(query).value;
      if t == DraftPicks {
        ListedFrom(df, 10, FantasyKey);
      } else if t == Sleepers {
        SleepersQualify(df);
      } else {
        PositionListQualify(df, "PG");
      }
    } else {
      assert h == PositionHandler;
      PositionListQualify(df, PositionChoice(query).value);
    }
  }

  /** A position question lists the best rows at the position it names, and
      only rows at that position. */
  lemma PositionAnswerRows(df: seq<PlayerRow>, query: string, compareNames: seq<string>, position: string)
    requires ProcessQuery(query) == PositionHandler && PositionChoice(query) == Some(position)
    ensures Answer(df, query, compareNames) == TopList(PositionList(df, position))
    ensures position in PositionCodes
    ensures forall x :: x in Answer(df, query, compareNames).rows ==> x in df && x.pos == position
  {
    PositionListQualify(df, position);
  }
}
