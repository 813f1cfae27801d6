/**
 * The statistics panel (`updateStatistics`) and the year choices of the
 * filter form (`getYearOptions`): counts per genre and per year, the three
 * best-rated games, and the oldest and newest game. Nothing here changes the
 * catalog; the ranking sorts a copy.
 */
module Stats {
  import opened Wrappers
  import opened Numbers
  import opened Games
  import Filter

  // ---------------------------------------------------------------- counting

  /** How many games have genre `g`. */
  function CountGenre(gs: seq<Game>, g: Genre): nat {
    if gs == [] then 0
    else CountGenre(gs[..|gs| - 1], g) + (if gs[|gs| - 1].genre == g then 1 else 0)
  }

  /** How many games were released in year `y`. */
  function CountYear(gs: seq<Game>, y: int): nat {
    if gs == [] then 0
    else CountYear(gs[..|gs| - 1], y) + (if gs[|gs| - 1].year == y then 1 else 0)
  }

  /** The release years that occur in the catalog. */
  function YearsOf(gs: seq<Game>): set<Int32> {
    set g | g in gs :: g.year
  }

  lemma YearsOfSnoc(gs: seq<Game>)
    requires gs != []
    ensures YearsOf(gs) == YearsOf(gs[..|gs| - 1]) + {gs[|gs| - 1].year}
  {
    assert gs == gs[..|gs| - 1] + [gs[|gs| - 1]];
  }

  /** Every game has exactly one of the three genres, so the genre counts add up to the catalog size. */
  lemma {:induction false} GenreCountsSum(gs: seq<Game>)
    ensures CountGenre(gs, Action) + CountGenre(gs, Rpg) + CountGenre(gs, ActionRpg) == |gs|
  {
    if gs != [] {
      GenreCountsSum(gs[..|gs| - 1]);
    }
  }

  lemma CountYearPositive(gs: seq<Game>, y: int)
    ensures CountYear(gs, y) > 0 <==> y in YearsOf(gs)
  {
    if gs != [] {
      var init := gs[..|gs| - 1];
      CountYearPositive(init, y);
      YearsOfSnoc(gs);
    }
  }

  // ------------------------------------------------------ genre distribution

  /** `map.getOrDefault(k, 0)`. */
  function GetOrZero<K>(m: map<K, nat>, k: K): nat {
    if k in m then m[k] else 0
  }

  /** One line of the genre section: a genre and how many games have it. */
  datatype GenreCount = GenreCount(genre: Genre, count: nat)

  /**
   * The genre section lists every genre in declaration order, with 0 for a
   * genre no game has, and the counts add up to the catalog size.
   */
  ghost predicate GenreReportDescribes(gs: seq<Game>, report: seq<GenreCount>) {
    && |report| == |ALL_GENRES|
    && (forall k :: 0 <= k < |report| ==>
          report[k] == GenreCount(ALL_GENRES[k], CountGenre(gs, ALL_GENRES[k])))
    && report[0].count + report[1].count + report[2].count == |gs|
  }

  /** The genre counts held in the `HashMap` after the counting loop. */
  ghost predicate CountsGenres(gs: seq<Game>, counts: map<Genre, nat>) {
    forall g :: GetOrZero(counts, g) == CountGenre(gs, g)
  }

  /** Reading the `HashMap` per `Genre.values()`, with `getOrDefault(genre, 0)`. */
  method GenreReport(games: seq<Game>, counts: map<Genre, nat>) returns (report: seq<GenreCount>)
    requires CountsGenres(games, counts)
    ensures GenreReportDescribes(games, report)
  {
    report := [];
    for k := 0 to |ALL_GENRES|
      invariant |report| == k
      invariant forall j :: 0 <= j < k ==>
        report[j] == GenreCount(ALL_GENRES[j], CountGenre(games, ALL_GENRES[j]))
    {
      var genre := ALL_GENRES[k];
      report := report + [GenreCount(genre, GetOrZero(counts, genre))];
    }
    GenreCountsSum(games);
  }

  // ------------------------------------------------------- year distribution

  /** One line of the year section: a year and how many games came out then. */
  datatype YearCount = YearCount(year: int, count: nat)

  /** A `TreeMap` ordered by `Collections.reverseOrder()`: keys strictly decreasing. */
  predicate DescendingKeys(d: seq<YearCount>) {
    forall i, j :: 0 <= i < j < |d| ==> d[i].year > d[j].year
  }

  predicate PositiveCounts(d: seq<YearCount>) {
    forall i :: 0 <= i < |d| ==> d[i].count > 0
  }

  /** The keys of the map. */
  function KeySet(d: seq<YearCount>): set<int> {
    if d == [] then {} else {d[0].year} + KeySet(d[1..])
  }

  lemma {:induction false} KeySetHas(d: seq<YearCount>, i: nat)
    requires i < |d|
    ensures d[i].year in KeySet(d)
  {
    if i > 0 {
      KeySetHas(d[1..], i - 1);
    }
  }

  lemma {:induction false} KeySetAll(d: seq<YearCount>, k: int)
    requires k in KeySet(d)
    ensures exists i :: 0 <= i < |d| && d[i].year == k
  {
    if d[0].year != k {
      KeySetAll(d[1..], k);
      var i :| 0 <= i < |d| - 1 && d[1..][i].year == k;
      assert d[i + 1].year == k;
    }
  }

  /** `getOrDefault(y, 0)` on the map. */
  function CountIn(d: seq<YearCount>, y: int): nat {
    if d == [] then 0 else if d[0].year == y then d[0].count else CountIn(d[1..], y)
  }

  lemma {:induction false} CountInAbsent(d: seq<YearCount>, y: int)
    requires forall i :: 0 <= i < |d| ==> d[i].year != y
    ensures CountIn(d, y) == 0
  {
    if d != [] {
      CountInAbsent(d[1..], y);
    }
  }

  /** The sum of the counts. */
  function Total(d: seq<YearCount>): nat {
    if d == [] then 0 else d[0].count + Total(d[1..])
  }

  /** `put(y, getOrDefault(y, 0) + 1)`: one more game of year `y`, keeping the key order. */
  function Bump(d: seq<YearCount>, y: int): (r: seq<YearCount>)
    requires DescendingKeys(d) && PositiveCounts(d)
    ensures DescendingKeys(r) && PositiveCounts(r)
    ensures KeySet(r) == KeySet(d) + {y}
  {
    if d == [] then [YearCount(y, 1)]
    else if d[0].year == y then
      var r := [YearCount(y, d[0].count + 1)] + d[1..];
      assert r[1..] == d[1..];
      r
    else if d[0].year < y then
      var r := [YearCount(y, 1)] + d;
      assert r[1..] == d;
      r
    else
      var rest := Bump(d[1..], y);
      var r := [d[0]] + rest;
      assert r[1..] == rest;
      assert forall j :: 0 < j < |r| ==> r[0].year > r[j].year by {
        forall j | 0 < j < |r|
          ensures r[0].year > r[j].year
        {
          KeySetHas(rest, j - 1);
          if r[j].year != y {
            KeySetAll(d[1..], r[j].year);
          }
        }
      }
      r
  }

  /** After `Bump(d, y)` the map counts one more game of year `y` and the same for every other year. */
  lemma {:induction false} BumpCounts(d: seq<YearCount>, y: int)
    requires DescendingKeys(d) && PositiveCounts(d)
    ensures forall x :: CountIn(Bump(d, y), x) == CountIn(d, x) + (if x == y then 1 else 0)
    ensures Total(Bump(d, y)) == Total(d) + 1
  {
    if d != [] && d[0].year > y {
      BumpCounts(d[1..], y);
      var r := Bump(d, y);
      assert r[1..] == Bump(d[1..], y);
    } else if d != [] && d[0].year < y {
      CountInAbsent(d, y);
      var r := Bump(d, y);
      assert r[1..] == d;
    } else if d != [] {
      var r := Bump(d, y);
      assert r[1..] == d[1..];
    }
  }

  /**
   * The year section: strictly decreasing years, exactly the years that
   * occur, each with its number of games, and the counts add up to the
   * catalog size.
   */
  ghost predicate YearReportDescribes(gs: seq<Game>, d: seq<YearCount>) {
    && DescendingKeys(d)
    && PositiveCounts(d)
    && KeySet(d) == YearsOf(gs)
    && (forall y :: CountIn(d, y) == CountYear(gs, y))
    && Total(d) == |gs|
  }

  /**
   * The counting loop of `updateStatistics`: each game adds one to its genre
   * in a `HashMap` and one to its year in a `TreeMap` ordered newest first.
   */
  method CountDistributions(games: seq<Game>) returns (counts: map<Genre, nat>, dist: seq<YearCount>)
    ensures CountsGenres(games, counts)
    ensures YearReportDescribes(games, dist)
  {
    counts := map[];
    dist := [];
    for i := 0 to |games|
      invariant CountsGenres(games[..i], counts)
      invariant YearReportDescribes(games[..i], dist)
    {
      var game := games[i];
      var prefix := games[..i + 1];
      assert prefix[..i] == games[..i] && prefix[i] == game;
      counts := counts[game.genre := GetOrZero(counts, game.genre) + 1];
      YearsOfSnoc(prefix);
      BumpCounts(dist, game.year);
      dist := Bump(dist, game.year);
    }
    assert games[..|games|] == games;
  }

  // ------------------------------------------------------------ year choices

  predicate StrictlyDescending(ys: seq<int>) {
    forall i, j :: 0 <= i < j < |ys| ==> ys[i] > ys[j]
  }

  /** `TreeSet(reverseOrder()).add(y)`. */
  function InsertYear(ys: seq<Int32>, y: Int32): (r: seq<Int32>)
    requires StrictlyDescending(ys)
    ensures StrictlyDescending(r)
    ensures forall x :: x in r <==> x in ys || x == y
  {
    if ys == [] then [y]
    else if ys[0] == y then ys
    else if ys[0] < y then
      assert forall j :: 0 <= j < |ys| ==> ys[j] <= ys[0];
      [y] + ys
    else
      var rest := InsertYear(ys[1..], y);
      var r := [ys[0]] + rest;
      forall j | 0 < j < |r|
        ensures r[0] > r[j]
      {
        assert r[j] in rest;
      }
      r
  }

  /** The distinct release years, newest first: the years of the year combo box. */
  function DescendingYears(gs: seq<Game>): (ys: seq<Int32>)
    ensures StrictlyDescending(ys)
  {
    if gs == [] then [] else InsertYear(DescendingYears(gs[..|gs| - 1]), gs[|gs| - 1].year)
  }

  /** The year choices are exactly the release years of the catalog. */
  lemma {:induction false} DescendingYearsMembers(gs: seq<Game>)
    ensures forall y :: y in DescendingYears(gs) <==> y in YearsOf(gs)
  {
    if gs != [] {
      DescendingYearsMembers(gs[..|gs| - 1]);
      YearsOfSnoc(gs);
    }
  }

  /** A year printed as the combo box prints it is a year choice the filter can read. */
  lemma YearOptionValid(y: Int32)
    ensures Filter.YearChoiceValid(IntToString(y))
  {
    ParseIntToString(y);
  }

  /** The first loop of `getYearOptions`: every release year added to a `TreeSet` in reverse order. */
  method CollectYears(games: seq<Game>) returns (uniqueYears: seq<Int32>)
    ensures uniqueYears == DescendingYears(games)
  {
    uniqueYears := [];
    for i := 0 to |games|
      invariant uniqueYears == DescendingYears(games[..i])
    {
      assert games[..i + 1][..i] == games[..i];
      uniqueYears := InsertYear(uniqueYears, games[i].year);
    }
    assert games[..|games|] == games;
  }

  /** The decimal text of each year. */
  function YearTexts(ys: seq<Int32>): (texts: seq<string>)
    ensures |texts| == |ys|
    ensures forall k :: 0 <= k < |ys| ==> texts[k] == IntToString(ys[k])
  {
    seq(|ys|, k requires 0 <= k < |ys| => IntToString(ys[k]))
  }

  lemma YearTextsGrow(ys: seq<Int32>, k: nat)
    requires k < |ys|
    ensures YearTexts(ys[..k + 1]) == YearTexts(ys[..k]) + [IntToString(ys[k])]
  {
  }

  /** "Все" and the text of any year are year choices the filter can read. */
  lemma YearTextsValid(ys: seq<Int32>)
    ensures forall k :: 0 <= k < |ys| + 1 ==> Filter.YearChoiceValid(([Filter.ANY] + YearTexts(ys))[k])
  {
    var options := [Filter.ANY] + YearTexts(ys);
    forall k | 0 <= k < |options|
      ensures Filter.YearChoiceValid(options[k])
    {
      if k > 0 {
        YearOptionValid(ys[k - 1]);
      }
    }
  }

  /**
   * `getYearOptions`: "Все" followed by every release year once, newest
   * first, as decimal text. Each entry is a year choice the filter accepts.
   */
  method YearOptions(games: seq<Game>) returns (options: seq<string>)
    ensures options == [Filter.ANY] + YearTexts(DescendingYears(games))
    ensures forall k :: 0 <= k < |options| ==> Filter.YearChoiceValid(options[k])
  {
    var uniqueYears := CollectYears(games);
    options := [Filter.ANY];
    for k := 0 to |uniqueYears|
      invariant options == [Filter.ANY] + YearTexts(uniqueYears[..k])
    {
      YearTextsGrow(uniqueYears, k);
      options := options + [IntToString(uniqueYears[k])];
    }
    assert uniqueYears[..|uniqueYears|] == uniqueYears;
    YearTextsValid(uniqueYears);
  }

  // ----------------------------------------------------------------- ranking

  /** Ratings never increase along the sequence. */
  predicate NonIncreasing(s: seq<Game>) {
    forall i, j :: 0 <= i < j < |s| ==> s[i].rating >= s[j].rating
  }

  /** Every game in `s` is rated at most `b`. */
  predicate RatedAtMost(s: seq<Game>, b: int) {
    forall i :: 0 <= i < |s| ==> s[i].rating <= b
  }

  /** Puts `x` after every leading game rated at least as high: the insertion step of a stable sort. */
  function InsertByRating(s: seq<Game>, x: Game): (r: seq<Game>)
    ensures |r| == |s| + 1
  {
    if s == [] then [x]
    else if s[0].rating >= x.rating then [s[0]] + InsertByRating(s[1..], x)
    else [x] + s
  }

  /** Insertion adds `x` and loses nothing. */
  lemma {:induction false} InsertByRatingPerm(s: seq<Game>, x: Game)
    ensures multiset(InsertByRating(s, x)) == multiset(s) + multiset{x}
  {
    if s != [] && s[0].rating >= x.rating {
      InsertByRatingPerm(s[1..], x);
      assert InsertByRating(s, x) == [s[0]] + InsertByRating(s[1..], x);
      assert s == [s[0]] + s[1..];
      assert multiset(s) == multiset{s[0]} + multiset(s[1..]);
    }
  }

  lemma {:induction false} InsertByRatingBound(s: seq<Game>, x: Game, b: int)
    requires RatedAtMost(s, b) && x.rating <= b
    ensures RatedAtMost(InsertByRating(s, x), b)
  {
    if s != [] && s[0].rating >= x.rating {
      InsertByRatingBound(s[1..], x, b);
    }
  }

  /** Inserting into a ranked list gives a ranked list. */
  lemma {:induction false} InsertByRatingSorted(s: seq<Game>, x: Game)
    requires NonIncreasing(s)
    ensures NonIncreasing(InsertByRating(s, x))
  {
    if s != [] {
      if s[0].rating >= x.rating {
        var rest := InsertByRating(s[1..], x);
        InsertByRatingSorted(s[1..], x);
        InsertByRatingBound(s[1..], x, s[0].rating);
        var r := [s[0]] + rest;
        forall i, j | 0 <= i < j < |r|
          ensures r[i].rating >= r[j].rating
        {
          assert r[j] == rest[j - 1];
          if i > 0 {
            assert r[i] == rest[i - 1];
          }
        }
      } else {
        var r := [x] + s;
        forall i, j | 0 <= i < j < |r|
          ensures r[i].rating >= r[j].rating
        {
          assert r[j] == s[j - 1];
          if i > 0 {
            assert r[i] == s[i - 1];
          } else {
            assert s[0].rating >= s[j - 1].rating;
          }
        }
      }
    }
  }

  /**
   * `topGames.sort((g1, g2) -> Double.compare(g2.getRating(), g1.getRating()))`
   * on a copy of the catalog: best rated first; `List.sort` is stable.
   */
  function SortByRating(gs: seq<Game>): (r: seq<Game>)
    ensures |r| == |gs|
  {
    if gs == [] then [] else InsertByRating(SortByRating(gs[..|gs| - 1]), gs[|gs| - 1])
  }

  /** The ranking is best rated first. */
  lemma {:induction false} SortByRatingSorted(gs: seq<Game>)
    ensures NonIncreasing(SortByRating(gs))
  {
    if gs != [] {
      SortByRatingSorted(gs[..|gs| - 1]);
      InsertByRatingSorted(SortByRating(gs[..|gs| - 1]), gs[|gs| - 1]);
    }
  }

  lemma MultisetSnoc(gs: seq<Game>)
    requires gs != []
    ensures multiset(gs) == multiset(gs[..|gs| - 1]) + multiset{gs[|gs| - 1]}
  {
    assert gs == gs[..|gs| - 1] + [gs[|gs| - 1]];
  }

  /** The ranking is a permutation of the catalog. */
  lemma {:induction false} SortByRatingPerm(gs: seq<Game>)
    ensures multiset(SortByRating(gs)) == multiset(gs)
  {
    if gs != [] {
      var init := gs[..|gs| - 1];
      var x := gs[|gs| - 1];
      var sortedInit := SortByRating(init);
      SortByRatingPerm(init);
      InsertByRatingPerm(sortedInit, x);
      MultisetSnoc(gs);
    }
  }

  /** `[g]` when `g` is rated exactly `v`, else nothing. */
  function Only(g: Game, v: int): seq<Game> {
    if g.rating == v then [g] else []
  }

  /** The games rated exactly `v`, in order. */
  function WithRating(s: seq<Game>, v: int): seq<Game> {
    if s == [] then [] else Only(s[0], v) + WithRating(s[1..], v)
  }

  lemma {:induction false} WithRatingAppend(a: seq<Game>, b: seq<Game>, v: int)
    ensures WithRating(a + b, v) == WithRating(a, v) + WithRating(b, v)
  {
    if a != [] {
      assert (a + b)[1..] == a[1..] + b;
      WithRatingAppend(a[1..], b, v);
    } else {
      assert a + b == b;
    }
  }

  lemma {:induction false} WithRatingNone(s: seq<Game>, v: int)
    requires RatedAtMost(s, v - 1)
    ensures WithRating(s, v) == []
  {
    if s != [] {
      WithRatingNone(s[1..], v);
    }
  }

  lemma NonIncreasingTail(s: seq<Game>)
    requires s != [] && NonIncreasing(s)
    ensures NonIncreasing(s[1..]) && RatedAtMost(s, s[0].rating)
  {
    forall i, j | 0 <= i < j < |s| - 1
      ensures s[1..][i].rating >= s[1..][j].rating
    {
      assert s[1..][i] == s[i + 1] && s[1..][j] == s[j + 1];
    }
  }

  /** `WithRating` of a sequence with a known first element. */
  lemma WithRatingCons(g: Game, s: seq<Game>, v: int)
    ensures WithRating([g] + s, v) == Only(g, v) + WithRating(s, v)
  {
    assert ([g] + s)[1..] == s;
  }

  /** Putting the same game in front of two sequences keeps a relation between their `WithRating`s. */
  lemma WithRatingConsStep(g: Game, r: seq<Game>, t: seq<Game>, c: seq<Game>, v: int)
    requires WithRating(r, v) == WithRating(t, v) + c
    ensures WithRating([g] + r, v) == WithRating([g] + t, v) + c
  {
    WithRatingCons(g, r, v);
    WithRatingCons(g, t, v);
  }

  /** The insertion step that puts `x` in front of a ranked list rated below it. */
  lemma InsertByRatingStableHere(s: seq<Game>, x: Game, v: int)
    requires NonIncreasing(s)
    requires s == [] || s[0].rating < x.rating
    ensures WithRating(InsertByRating(s, x), v) == WithRating(s, v) + Only(x, v)
  {
    assert InsertByRating(s, x) == [x] + s;
    WithRatingCons(x, s, v);
    if x.rating == v && s != [] {
      NonIncreasingTail(s);
      WithRatingNone(s, v);
    }
  }

  /** Inserting `x` into a ranked list puts it after every game with the same rating. */
  lemma {:induction false} InsertByRatingStable(s: seq<Game>, x: Game, v: int)
    requires NonIncreasing(s)
    ensures WithRating(InsertByRating(s, x), v) == WithRating(s, v) + Only(x, v)
  {
    if s != [] && s[0].rating >= x.rating {
      NonIncreasingTail(s);
      InsertByRatingStable(s[1..], x, v);
      WithRatingConsStep(s[0], InsertByRating(s[1..], x), s[1..], Only(x, v), v);
      assert [s[0]] + s[1..] == s;
    } else {
      InsertByRatingStableHere(s, x, v);
    }
  }

  /** The ranking is stable: games with equal ratings keep their catalog order. */
  lemma {:induction false} SortByRatingStable(gs: seq<Game>, v: int)
    ensures WithRating(SortByRating(gs), v) == WithRating(gs, v)
  {
    if gs != [] {
      var init := gs[..|gs| - 1];
      var x := gs[|gs| - 1];
      SortByRatingStable(init, v);
      SortByRatingSorted(init);
      InsertByRatingStable(SortByRating(init), x, v);
      WithRatingSnoc(gs, v);
    }
  }

  lemma WithRatingSnoc(gs: seq<Game>, v: int)
    requires gs != []
    ensures WithRating(gs, v) == WithRating(gs[..|gs| - 1], v) + Only(gs[|gs| - 1], v)
  {
    var init, x := gs[..|gs| - 1], gs[|gs| - 1];
    assert gs == init + [x];
    WithRatingAppend(init, [x], v);
    WithRatingCons(x, [], v);
    assert [x] + [] == [x];
  }

  /**
   * The top list: the first `min(3, n)` games of the stable ranking, so best
   * rated first, taken from the catalog, and no game left out is rated
   * higher than the last game in it.
   */
  ghost predicate TopDescribes(gs: seq<Game>, top: seq<Game>) {
    && |top| == (if |gs| < 3 then |gs| else 3)
    && top == SortByRating(gs)[..|top|]
    && NonIncreasing(top)
    && multiset(top) <= multiset(gs)
    && (|top| > 0 ==> forall y :: y in multiset(gs) - multiset(top) ==> y.rating <= top[|top| - 1].rating)
  }

  /** The games after position `n` of a ranked list are rated no higher than the one before it. */
  lemma RankedTail(s: seq<Game>, n: nat)
    requires NonIncreasing(s) && 0 < n <= |s|
    ensures forall y :: y in s[n..] ==> y.rating <= s[n - 1].rating
  {
    forall y | y in s[n..]
      ensures y.rating <= s[n - 1].rating
    {
      var j :| 0 <= j < |s| - n && s[n..][j] == y;
      assert s[n + j] == y;
    }
  }

  lemma MultisetSplit(s: seq<Game>, n: nat)
    requires n <= |s|
    ensures multiset(s) == multiset(s[..n]) + multiset(s[n..])
  {
    assert s == s[..n] + s[n..];
  }

  /** What a ranked list's prefix says about the games it leaves out. */
  lemma RankedPrefix(gs: seq<Game>, n: nat)
    requires n <= |gs|
    ensures var s := SortByRating(gs);
      && multiset(s[..n]) <= multiset(gs)
      && multiset(gs) - multiset(s[..n]) == multiset(s[n..])
  {
    var s := SortByRating(gs);
    SortByRatingPerm(gs);
    MultisetSplit(s, n);
  }

  /** The three best-rated games: sort a copy, then take the first `min(3, size)`. */
  method TopRated(games: seq<Game>) returns (top: seq<Game>)
    ensures TopDescribes(games, top)
  {
    var topGames := SortByRating(games);
    var limit := if |topGames| < 3 then |topGames| else 3;
    top := [];
    for i := 0 to limit
      invariant top == topGames[..i]
    {
      top := top + [topGames[i]];
    }
    RankedPrefix(games, limit);
    SortByRatingSorted(games);
    if limit > 0 {
      RankedTail(topGames, limit);
    }
  }

  // ----------------------------------------------------------- oldest/newest

  /** Game `i` is the first of the oldest games: no game is older, and every game before it is newer. */
  predicate FirstOldest(games: seq<Game>, i: nat) {
    && i < |games|
    && (forall j :: 0 <= j < |games| ==> games[i].year <= games[j].year)
    && (forall j :: 0 <= j < i ==> games[j].year > games[i].year)
  }

  /** Game `i` is the first of the newest games. */
  predicate FirstNewest(games: seq<Game>, i: nat) {
    && i < |games|
    && (forall j :: 0 <= j < |games| ==> games[i].year >= games[j].year)
    && (forall j :: 0 <= j < i ==> games[j].year < games[i].year)
  }

  /** The tie-break leaves no choice: there is one first oldest and one first newest game. */
  lemma FirstOldestNewestUnique(games: seq<Game>, i: nat, k: nat)
    ensures FirstOldest(games, i) && FirstOldest(games, k) ==> i == k
    ensures FirstNewest(games, i) && FirstNewest(games, k) ==> i == k
  {
    // The later of two distinct positions sees the earlier one as strictly older (newer).
    if i < k && FirstOldest(games, k) {
      assert games[i].year > games[k].year;
    } else if k < i && FirstOldest(games, i) {
      assert games[k].year > games[i].year;
    }
    if i < k && FirstNewest(games, k) {
      assert games[i].year < games[k].year;
    } else if k < i && FirstNewest(games, i) {
      assert games[k].year < games[i].year;
    }
  }

  /**
   * `Collections.min(games, comparingInt(Game::getReleaseYear))`: the first
   * game with the smallest year (a later game replaces the candidate only
   * when strictly older).
   */
  method Oldest(games: seq<Game>) returns (i: nat)
    requires |games| > 0
    ensures i < |games|
    ensures forall j :: 0 <= j < |games| ==> games[i].year <= games[j].year
    ensures forall j :: 0 <= j < i ==> games[j].year > games[i].year
  {
    i := 0;
    for k := 1 to |games|
      invariant i < k
      invariant forall j :: 0 <= j < k ==> games[i].year <= games[j].year
      invariant forall j :: 0 <= j < i ==> games[j].year > games[i].year
    {
      if games[k].year < games[i].year {
        i := k;
      }
    }
  }

  /** `Collections.max` by year: the first game with the largest year. */
  method Newest(games: seq<Game>) returns (i: nat)
    requires |games| > 0
    ensures i < |games|
    ensures forall j :: 0 <= j < |games| ==> games[i].year >= games[j].year
    ensures forall j :: 0 <= j < i ==> games[j].year < games[i].year
  {
    i := 0;
    for k := 1 to |games|
      invariant i < k
      invariant forall j :: 0 <= j < k ==> games[i].year >= games[j].year
      invariant forall j :: 0 <= j < i ==> games[j].year < games[i].year
    {
      if games[k].year > games[i].year {
        i := k;
      }
    }
  }

  // ------------------------------------------------------------------ report

  /** Everything the statistics panel shows, except the floating-point average and percentages. */
  datatype Report = Report(
    total: nat,
    genres: seq<GenreCount>,
    years: seq<YearCount>,
    top: seq<Game>,
    oldest: Game,
    newest: Game)

  /**
   * `updateStatistics`: nothing for an empty catalog ("Каталог пуст.");
   * otherwise the size, both distributions, the top list and the oldest and
   * newest games, each as described above.
   */
  method UpdateStatistics(games: seq<Game>) returns (r: Option<Report>)
    ensures r.None? <==> games == []
    ensures r.Some? ==>
      && r.value.total == |games|
      && GenreReportDescribes(games, r.value.genres)
      && YearReportDescribes(games, r.value.years)
      && TopDescribes(games, r.value.top)
      && r.value.oldest in games && r.value.newest in games
      && (forall g :: g in games ==> r.value.oldest.year <= g.year <= r.value.newest.year)
      && (exists i: nat :: FirstOldest(games, i) && r.value.oldest == games[i])
      && (exists i: nat :: FirstNewest(games, i) && r.value.newest == games[i])
  {
    if games == [] {
      return None;
    }
    var counts, years := CountDistributions(games);
    var genres := GenreReport(games, counts);
    var top := TopRated(games);
    var oldest := Oldest(games);
    var newest := Newest(games);
    assert FirstOldest(games, oldest) && FirstNewest(games, newest);
    r := Some(Report(|games|, genres, years, top, games[oldest], games[newest]));
  }
}
