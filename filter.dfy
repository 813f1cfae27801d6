/**
 * The search-and-filter view of the catalog (`filterGames`): a game is shown
 * when it passes all four criteria of the filter form, the shown rows keep
 * the catalog's order and are numbered from 1. The catalog is only read.
 */
module Filter {
  import opened Wrappers
  import opened JavaText
  import opened Numbers
  import opened Games

  /** The "any value" entry of the genre and year combo boxes. */
  const ANY := "Все"

  /** The entries of the "search in" combo box: title, developer, platform. */
  const BY_TITLE := "Названию"
  const BY_DEVELOPER := "Разработчику"
  const BY_PLATFORM := "Платформе"

  /**
   * The state of the filter form: the search text as typed, the chosen search
   * field, the chosen genre and year entries, and the rating slider's lower
   * bound in tenths.
   */
  datatype Criteria = Criteria(
    searchText: string,
    searchField: string,
    genre: string,
    year: string,
    minRating: int)

  /**
   * A year entry the filter can compare with: "Все" or the decimal text of a
   * year, as `YearOptions` offers; any other text would make
   * `Integer.parseInt` throw.
   */
  predicate YearChoiceValid(year: string) {
    year == ANY || ParseInt(year).Some?
  }

  /** The text searched for: lower-cased, then trimmed. */
  function SearchKey(c: Criteria): string {
    Trim(Lower(c.searchText))
  }

  /** The lower-cased field the search text is looked for in; "" for an unknown field. */
  function SearchIn(g: Game, field: string): string {
    if field == BY_TITLE then Lower(g.title)
    else if field == BY_DEVELOPER then Lower(g.developer)
    else if field == BY_PLATFORM then Lower(g.platform)
    else ""
  }

  /** An empty search text disables the text criterion. */
  predicate TextMatches(g: Game, c: Criteria) {
    SearchKey(c) == [] || Contains(SearchIn(g, c.searchField), SearchKey(c))
  }

  /**
   * The genre criterion as the filter compares it: the combo entry against
   * `toString().replace("_", "/")`, which is upper case, while two of the
   * three entries ("Action", "Action/RPG") are not.
   */
  predicate GenreMatchesAsWritten(g: Game, c: Criteria) {
    c.genre == ANY || WireName(g.genre) == c.genre
  }

  /**
   * The genre criterion as evidently intended: the combo entry is read as a
   * genre the way the add and edit dialogs read the same labels.
   */
  predicate GenreMatches(g: Game, c: Criteria) {
    c.genre == ANY || GenreOfLabel(c.genre) == Some(g.genre)
  }

  /**
   * Which genre test the filter applies: the comparison the code makes, or the
   * one the combo box evidently calls for.
   */
  datatype GenreRule = AsWritten | Corrected

  predicate GenrePasses(g: Game, c: Criteria, rule: GenreRule) {
    if rule == AsWritten then GenreMatchesAsWritten(g, c) else GenreMatches(g, c)
  }

  predicate YearMatches(g: Game, c: Criteria)
    requires YearChoiceValid(c.year)
  {
    c.year == ANY || g.year == ParseInt(c.year).value
  }

  /** The rating bound is inclusive. */
  predicate RatingMatches(g: Game, c: Criteria) {
    g.rating >= c.minRating
  }

  /** All four criteria hold, the genre one under `rule`. */
  predicate Matches(g: Game, c: Criteria, rule: GenreRule)
    requires YearChoiceValid(c.year)
  {
    TextMatches(g, c) && GenrePasses(g, c, rule) && YearMatches(g, c) && RatingMatches(g, c)
  }

  /** The positions holding `true`, in increasing order. */
  function TrueIndices(flags: seq<bool>): (ix: seq<nat>)
    ensures forall k :: 0 <= k < |ix| ==> ix[k] < |flags| && flags[ix[k]]
    ensures forall k, l :: 0 <= k < l < |ix| ==> ix[k] < ix[l]
    ensures forall i :: 0 <= i < |flags| && flags[i] ==> i in ix
  {
    if flags == [] then []
    else
      var init := flags[..|flags| - 1];
      var before := TrueIndices(init);
      assert forall i :: 0 <= i < |init| ==> init[i] == flags[i];
      if flags[|flags| - 1] then before + [|flags| - 1] else before
  }

  /** The positions of the games that pass the filter, in increasing order. */
  function MatchingIndices(gs: seq<Game>, c: Criteria, rule: GenreRule): (ix: seq<nat>)
    requires YearChoiceValid(c.year)
    ensures forall k :: 0 <= k < |ix| ==> ix[k] < |gs| && Matches(gs[ix[k]], c, rule)
    ensures forall k, l :: 0 <= k < l < |ix| ==> ix[k] < ix[l]
    ensures forall i :: 0 <= i < |gs| && Matches(gs[i], c, rule) ==> i in ix
  {
    TrueIndices(MatchFlags(gs, c, rule))
  }

  /** Scanning one more flag appends its position when it is set. */
  lemma TrueIndicesSnoc(flags: seq<bool>, i: nat)
    requires i < |flags|
    ensures TrueIndices(flags[..i + 1]) ==
      if flags[i] then TrueIndices(flags[..i]) + [i] else TrueIndices(flags[..i])
  {
    assert flags[..i + 1][..i] == flags[..i];
  }

  /** Whether each game passes the filter. */
  function MatchFlags(gs: seq<Game>, c: Criteria, rule: GenreRule): (flags: seq<bool>)
    requires YearChoiceValid(c.year)
    ensures |flags| == |gs|
    ensures forall i :: 0 <= i < |gs| ==> flags[i] == Matches(gs[i], c, rule)
  {
    seq(|gs|, i requires 0 <= i < |gs| => Matches(gs[i], c, rule))
  }

  /** One row of the games table: its displayed number and the game shown. */
  datatype Row = Row(number: nat, game: Game)

  /** The body of the filter loop for one game: the `matches` flag after the four checks. */
  method PassesFilter(game: Game, c: Criteria, searchText: string, rule: GenreRule) returns (matches: bool)
    requires YearChoiceValid(c.year)
    requires searchText == SearchKey(c)
    ensures matches == Matches(game, c, rule)
  {
    matches := true;
    if searchText != [] {
      var searchIn := SearchIn(game, c.searchField);
      if !Contains(searchIn, searchText) {
        matches := false;
      }
    }
    assert matches == TextMatches(game, c);
    var sameGenre := if rule == AsWritten then WireName(game.genre) == c.genre
                     else GenreOfLabel(c.genre) == Some(game.genre);
    if c.genre != ANY && !sameGenre {
      matches := false;
    }
    assert matches == (TextMatches(game, c) && GenrePasses(game, c, rule));
    if c.year != ANY && game.year != ParseInt(c.year).value {
      matches := false;
    }
    assert matches == (TextMatches(game, c) && GenrePasses(game, c, rule) && YearMatches(game, c));
    if game.rating < c.minRating {
      matches := false;
    }
  }

  /** The table shows the games at positions `ix`, in that order, numbered 1, 2, ... */
  predicate RowsShow(games: seq<Game>, ix: seq<nat>, rows: seq<Row>) {
    && |rows| == |ix|
    && forall k :: 0 <= k < |rows| ==> ix[k] < |games| && rows[k] == Row(k + 1, games[ix[k]])
  }

  /** Adding the row of game `i` shows one more position. */
  lemma RowsShowSnoc(games: seq<Game>, ix: seq<nat>, rows: seq<Row>, i: nat)
    requires RowsShow(games, ix, rows) && i < |games|
    ensures RowsShow(games, ix + [i], rows + [Row(|rows| + 1, games[i])])
  {
  }

  /**
   * `filterGames`: rebuilds the table from the games that pass every
   * criterion, in catalog order, numbering them 1, 2, ... With `AsWritten`
   * this is the code's filter; with `Corrected` the genre entry is read as a
   * genre.
   */
  method FilterGames(games: seq<Game>, c: Criteria, rule: GenreRule) returns (rows: seq<Row>)
    requires YearChoiceValid(c.year)
    ensures RowsShow(games, MatchingIndices(games, c, rule), rows)
  {
    var searchText := Trim(Lower(c.searchText));
    ghost var flags := MatchFlags(games, c, rule);
    rows := [];
    var count := 0;
    for i := 0 to |games|
      invariant count == |rows|
      invariant RowsShow(games, TrueIndices(flags[..i]), rows)
    {
      var game := games[i];
      var matches := PassesFilter(game, c, searchText, rule);
      assert matches == flags[i];
      TrueIndicesSnoc(flags, i);
      if matches {
        RowsShowSnoc(games, TrueIndices(flags[..i]), rows, i);
        rows := rows + [Row(count + 1, game)];
        count := count + 1;
      }
    }
    assert flags[..|games|] == flags;
  }

  /** With every criterion switched off the filter shows the whole catalog, in order. */
  lemma NoCriteriaShowsAll(gs: seq<Game>, c: Criteria, rule: GenreRule)
    requires SearchKey(c) == [] && c.genre == ANY && c.year == ANY
    requires forall i :: 0 <= i < |gs| ==> gs[i].rating >= c.minRating
    ensures MatchingIndices(gs, c, rule) == seq(|gs|, i => i)
  {
    var flags := MatchFlags(gs, c, rule);
    forall i | 0 <= i < |gs|
      ensures flags[i]
    {
      assert TextMatches(gs[i], c) && GenrePasses(gs[i], c, rule) && YearMatches(gs[i], c);
    }
    AllTrueIndices(flags);
  }

  lemma {:induction false} AllTrueIndices(flags: seq<bool>)
    requires forall i :: 0 <= i < |flags| ==> flags[i]
    ensures TrueIndices(flags) == seq(|flags|, i => i)
  {
    if flags != [] {
      AllTrueIndices(flags[..|flags| - 1]);
    }
  }

  /** The corrected genre criterion: choosing a genre's label keeps exactly the games of that genre. */
  lemma GenreLabelSelectsGenre(g: Game, c: Criteria, genre: Genre)
    requires c.genre == GenreLabel(genre)
    ensures GenreMatches(g, c) <==> g.genre == genre
  {
    GenreOfLabelInverse(genre);
  }

  /**
   * As written, the genre criterion rejects every game, of whatever genre,
   * when "Action" or "Action/RPG" is chosen.
   */
  lemma GenreFilterAsWrittenRejects(g: Game, c: Criteria)
    requires c.genre == GenreLabel(Action) || c.genre == GenreLabel(ActionRpg)
    ensures !GenreMatchesAsWritten(g, c)
  {
  }

  /** As written, choosing "Action" or "Action/RPG" empties the table, whatever the catalog holds. */
  lemma AsWrittenShowsNothing(gs: seq<Game>, c: Criteria)
    requires YearChoiceValid(c.year)
    requires c.genre == GenreLabel(Action) || c.genre == GenreLabel(ActionRpg)
    ensures MatchingIndices(gs, c, AsWritten) == []
  {
    var ix := MatchingIndices(gs, c, AsWritten);
    if ix != [] {
      GenreFilterAsWrittenRejects(gs[ix[0]], c);
      assert false;
    }
  }

  /** A concrete case: an action game is hidden by the "Action" entry. */
  lemma GenreFilterAsWrittenCounterexample()
    ensures var g := Game("Sekiro: Shadows Die Twice", Action, 2019, 92, "FromSoftware", "PC/PS4/Xbox One");
            var c := Criteria("", BY_TITLE, "Action", ANY, 0);
            !GenreMatchesAsWritten(g, c) && GenreMatches(g, c)
  {
    GenreOfLabelInverse(Action);
  }
}
