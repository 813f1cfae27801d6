/**
 * The TXT format of the catalog: a block of seven lines per game (a numbered
 * title line, five indented "key: value" lines and an empty line), and the
 * line-by-line reader that turns such a file back into games.
 *
 * The reader is a small state machine. It holds the fields of the record
 * being read and a flag telling whether a record has started. A numbered
 * line closes the record being read, if it has a title, and starts the next
 * one; the key lines overwrite one field each; anything else is ignored.
 * Only the title is replaced when a record starts: the other fields carry
 * over from the record before.
 */
module Txt {
  import opened Wrappers
  import opened JavaText
  import opened Numbers
  import opened Games

  /** The indentation of the key lines. */
  const INDENT := "   "

  /** The keys of the five field lines. */
  const GENRE_KEY := "Жанр:"
  const YEAR_KEY := "Год выпуска:"
  const RATING_KEY := "Рейтинг:"
  const DEVELOPER_KEY := "Разработчик:"
  const PLATFORM_KEY := "Платформа:"

  /** Written after the rating, as in `9.7/10.0`. */
  const RATING_SCALE := "/10.0"

  /** What a record's year and rating are before any line sets them, and when their line is unreadable. */
  const DEFAULT_YEAR: Int32 := 2020
  const DEFAULT_RATING := 50

  // ----------------------------------------------------------------- writer

  function TitleLine(number: nat, g: Game): string {
    IntToString(number) + ". " + g.title
  }

  /** An indented key line: the key, a space and the value. */
  function FieldLine(key: string, value: string): string {
    INDENT + key + " " + value
  }

  function GenreLine(g: Game): string { FieldLine(GENRE_KEY, WireName(g.genre)) }
  function YearLine(g: Game): string { FieldLine(YEAR_KEY, IntToString(g.year)) }
  function RatingLine(g: Game): string { FieldLine(RATING_KEY, TenthsToString(g.rating) + RATING_SCALE) }
  function DeveloperLine(g: Game): string { FieldLine(DEVELOPER_KEY, g.developer) }
  function PlatformLine(g: Game): string { FieldLine(PLATFORM_KEY, g.platform) }

  /** The genre, year and rating lines of a block. */
  function NumberLines(g: Game): seq<string> {
    [GenreLine(g), YearLine(g), RatingLine(g)]
  }

  /** The developer and platform lines of a block, and the empty line that ends it. */
  function TextLines(g: Game): seq<string> {
    [DeveloperLine(g), PlatformLine(g), ""]
  }

  /** The seven lines written for the game numbered `number`. */
  function Block(number: nat, g: Game): seq<string> {
    [TitleLine(number, g)] + NumberLines(g) + TextLines(g)
  }

  /** The blocks of all games, numbered from 1 in catalog order. */
  function Body(games: seq<Game>): (lines: seq<string>)
    ensures |lines| == 7 * |games|
  {
    if games == [] then []
    else Body(games[..|games| - 1]) + Block(|games|, games[|games| - 1])
  }

  lemma BodySnoc(games: seq<Game>, i: nat)
    requires i < |games|
    ensures Body(games[..i + 1]) == Body(games[..i]) + Block(i + 1, games[i])
  {
    assert games[..i + 1][..i] == games[..i];
  }

  /** The TXT branch of `saveToFile`. */
  method WriteTxt(games: seq<Game>) returns (lines: seq<string>)
    ensures lines == Body(games)
  {
    lines := [];
    for i := 0 to |games|
      invariant lines == Body(games[..i])
    {
      BodySnoc(games, i);
      lines := lines + Block(i + 1, games[i]);
    }
    assert games[..|games|] == games;
  }

  // --------------------------------------------------------- record starts

  /** The characters `\s` stands for in a Java regular expression. */
  predicate IsRegexSpace(c: char) {
    c == ' ' || c == '\t' || c == '\n' || c == '\U{000B}' || c == '\U{000C}' || c == '\r'
  }

  /** The characters `.` does not match in a Java regular expression. */
  predicate IsLineTerminator(c: char) {
    c == '\n' || c == '\r' || c == '\U{0085}' || c == '\U{2028}' || c == '\U{2029}'
  }

  /** The length of the run of digits `s` starts with. */
  function DigitRun(s: string): (k: nat)
    ensures k <= |s|
    ensures forall i :: 0 <= i < k ==> IsDigit(s[i])
    ensures k < |s| ==> !IsDigit(s[k])
  {
    if s != [] && IsDigit(s[0]) then 1 + DigitRun(s[1..]) else 0
  }

  /** After the point at `dot`, up to `j`, only regex spaces; from `j` to the end no line terminator. */
  predicate SpacesThenText(line: string, dot: nat, j: nat)
    requires dot < j <= |line|
  {
    && (forall i :: dot < i < j ==> IsRegexSpace(line[i]))
    && (forall i :: j <= i < |line| ==> !IsLineTerminator(line[i]))
  }

  /**
   * A line that starts a record: one or more digits, a point, one or more
   * regex spaces, then one or more characters other than line terminators,
   * the whole line matching. The digit run cannot end before the point,
   * since a point is not a digit.
   */
  predicate IsRecordStart(line: string) {
    var k := DigitRun(line);
    && 1 <= k < |line| && line[k] == '.'
    && exists j :: k + 2 <= j < |line| && SpacesThenText(line, k, j)
  }

  /** The title of a record start: the text after the first point, trimmed. */
  function StartTitle(line: string): string {
    Trim(line[IndexOf(line, '.') + 1..])
  }

  // ----------------------------------------------------------------- reader

  /**
   * The locals of the reading loop: the games read so far, the fields of the
   * record being read, and whether a record has started.
   */
  datatype Reader = Reader(
    loaded: seq<Game>,
    title: string,
    genre: Genre,
    year: Int32,
    rating: int,
    developer: string,
    platform: string,
    reading: bool)

  /** Before the first line: no games, no title, Action/RPG, 2020, 5.0. */
  const START := Reader([], "", ActionRpg, DEFAULT_YEAR, DEFAULT_RATING, "", "", false)

  /** The record being read, as a game. */
  function Current(st: Reader): Game {
    Game(st.title, st.genre, st.year, st.rating, st.developer, st.platform)
  }

  /** The games read so far, with the record being read added when it has started and has a title. */
  function Flushed(st: Reader): seq<Game> {
    if st.reading && st.title != [] then st.loaded + [Current(st)] else st.loaded
  }

  /**
   * One line of the loop. `None` when the genre of a genre line is not a
   * genre: `valueOf` throws there and nothing catches it inside the loop.
   * An unreadable year gives 2020 and an unreadable rating 5.0. The rating
   * is the text before the first `/`: where `split("/")` has no first part
   * (the text is empty or only slashes) this is the empty text, which does
   * not parse either, so both give 5.0.
   */
  function Step(st: Reader, raw: string): Option<Reader> {
    var line := Trim(raw);
    if IsRecordStart(line) then
      Some(st.(loaded := Flushed(st), title := StartTitle(line), reading := true))
    else if StartsWith(line, GENRE_KEY) && st.reading then
      var genre := GenreFromWire(Trim(line[5..]));
      if genre.None? then None else Some(st.(genre := genre.value))
    else if StartsWith(line, YEAR_KEY) && st.reading then
      Some(st.(year := ParseInt(Trim(line[12..])).GetOr(DEFAULT_YEAR)))
    else if StartsWith(line, RATING_KEY) && st.reading then
      var text := Trim(TakeBefore(Trim(line[8..]), '/'));
      Some(st.(rating := ParseDouble(text).GetOr(DEFAULT_RATING)))
    else if StartsWith(line, DEVELOPER_KEY) && st.reading then
      Some(st.(developer := Trim(line[12..])))
    else if StartsWith(line, PLATFORM_KEY) && st.reading then
      Some(st.(platform := Trim(line[10..])))
    else Some(st)
  }

  /** The loop over all lines, from state `st`; `None` once a line has thrown. */
  function Run(st: Reader, lines: seq<string>): Option<Reader>
    decreases |lines|
  {
    if lines == [] then Some(st)
    else
      match Step(st, lines[0])
      case None => None
      case Some(next) => Run(next, lines[1..])
  }

  /** After the loop: the last record is added when it has a title. */
  function Finish(st: Reader): seq<Game> {
    if st.title != [] then st.loaded + [Current(st)] else st.loaded
  }

  /** The games read from a TXT file, or `None` when reading throws. */
  function Decode(lines: seq<string>): Option<seq<Game>> {
    match Run(START, lines)
    case None => None
    case Some(st) => Some(Finish(st))
  }

  /**
   * The body of the reading loop for one line, on the loop's locals held in a
   * `Reader`; `None` where `valueOf` throws.
   */
  method ReadTxtLine(st: Reader, raw: string) returns (next: Option<Reader>)
    ensures next == Step(st, raw)
  {
    var line := Trim(raw);
    var cur := st;
    if IsRecordStart(line) {
      if cur.reading && cur.title != [] {
        cur := cur.(loaded := cur.loaded + [Current(cur)]);
      }
      cur := cur.(title := Trim(line[IndexOf(line, '.') + 1..]), reading := true);
    } else if StartsWith(line, GENRE_KEY) && cur.reading {
      var genre := GenreFromWire(Trim(line[5..]));
      if genre.None? {
        return None;
      }
      cur := cur.(genre := genre.value);
    } else if StartsWith(line, YEAR_KEY) && cur.reading {
      var year := ParseInt(Trim(line[12..]));
      cur := cur.(year := if year.Some? then year.value else DEFAULT_YEAR);
    } else if StartsWith(line, RATING_KEY) && cur.reading {
      var text := Trim(TakeBefore(Trim(line[8..]), '/'));
      var rating := ParseDouble(text);
      cur := cur.(rating := if rating.Some? then rating.value else DEFAULT_RATING);
    } else if StartsWith(line, DEVELOPER_KEY) && cur.reading {
      cur := cur.(developer := Trim(line[12..]));
    } else if StartsWith(line, PLATFORM_KEY) && cur.reading {
      cur := cur.(platform := Trim(line[10..]));
    }
    next := Some(cur);
  }

  /** The TXT branch of `loadFromFile`: the loop over the lines, then the last record. */
  method ReadTxt(lines: seq<string>) returns (r: Option<seq<Game>>)
    ensures r == Decode(lines)
  {
    var st := START;
    var i := 0;
    while i < |lines|
      invariant i <= |lines|
      invariant Run(START, lines) == Run(st, lines[i..])
    {
      assert lines[i..][0] == lines[i] && lines[i..][1..] == lines[i + 1..];
      var next := ReadTxtLine(st, lines[i]);
      if next.None? {
        return None;
      }
      st := next.value;
      i := i + 1;
    }
    var loaded := st.loaded;
    if st.title != [] {
      loaded := loaded + [Current(st)];
    }
    r := Some(loaded);
  }

  // ------------------------------------------------------------- properties

  /** Reading two runs of lines is reading the first, then the second from where it stopped. */
  lemma {:induction false} RunAppend(st: Reader, a: seq<string>, b: seq<string>)
    ensures Run(st, a + b) == match Run(st, a) case None => None case Some(mid) => Run(mid, b)
    decreases |a|
  {
    if a == [] {
      assert a + b == b;
    } else {
      assert (a + b)[0] == a[0] && (a + b)[1..] == a[1..] + b;
      match Step(st, a[0])
      case None =>
      case Some(next) => RunAppend(next, a[1..], b);
    }
  }

  /** A genre line naming no genre aborts the whole reading, whatever follows it. */
  lemma BadGenreAborts(a: seq<string>, bad: string, b: seq<string>)
    requires Run(START, a).Some? && Run(START, a).value.reading
    requires var line := Trim(bad); !IsRecordStart(line) && StartsWith(line, GENRE_KEY)
    requires GenreFromWire(Trim(Trim(bad)[5..])).None?
    ensures Decode(a + [bad] + b) == None
  {
    RunAppend(START, a, [bad] + b);
    assert a + [bad] + b == a + ([bad] + b);
    var mid := Run(START, a).value;
    assert ([bad] + b)[0] == bad;
    assert Step(mid, bad) == None;
  }

  /** Before the first record start, every line is ignored. */
  lemma {:induction false} IdleIgnores(st: Reader, lines: seq<string>)
    requires !st.reading
    requires forall i :: 0 <= i < |lines| ==> !IsRecordStart(Trim(lines[i]))
    ensures Run(st, lines) == Some(st)
    decreases |lines|
  {
    if lines != [] {
      assert Step(st, lines[0]) == Some(st);
      IdleIgnores(st, lines[1..]);
    }
  }

  /**
   * A record start adds the record being read, when it has a title, and
   * replaces only the title: genre, year, rating, developer and platform
   * carry over into the new record.
   */
  lemma StartCarriesOver(st: Reader, raw: string)
    requires IsRecordStart(Trim(raw))
    ensures Step(st, raw).Some?
    ensures var next := Step(st, raw).value;
      && next.loaded == (if st.reading && st.title != [] then st.loaded + [Current(st)] else st.loaded)
      && next.title == StartTitle(Trim(raw)) && next.reading
      && next.genre == st.genre && next.year == st.year && next.rating == st.rating
      && next.developer == st.developer && next.platform == st.platform
  {
  }

  /** An unreadable year gives 2020, not the year of the record before. */
  lemma YearFallback(st: Reader, raw: string)
    requires st.reading
    requires var line := Trim(raw);
      !IsRecordStart(line) && StartsWith(line, YEAR_KEY) && ParseInt(Trim(line[12..])).None?
    ensures Step(st, raw) == Some(st.(year := DEFAULT_YEAR))
  {
    var line := Trim(raw);
    assert !StartsWith(line, GENRE_KEY) by {
      assert line[0] == YEAR_KEY[0] != GENRE_KEY[0];
    }
  }

  /** An unreadable rating gives 5.0, not the rating of the record before. */
  lemma RatingFallback(st: Reader, raw: string)
    requires st.reading
    requires var line := Trim(raw);
      && !IsRecordStart(line) && StartsWith(line, RATING_KEY)
      && ParseDouble(Trim(TakeBefore(Trim(line[8..]), '/'))).None?
    ensures Step(st, raw) == Some(st.(rating := DEFAULT_RATING))
  {
    var line := Trim(raw);
    assert !StartsWith(line, GENRE_KEY) && !StartsWith(line, YEAR_KEY) by {
      assert line[0] == RATING_KEY[0];
      assert line[0] != GENRE_KEY[0] && line[0] != YEAR_KEY[0];
    }
  }

  // ------------------------------------------------------------- round trip

  /** No character of `s` ends a line for the regular expression. */
  predicate NoLineTerminator(s: string) {
    forall i :: 0 <= i < |s| ==> !IsLineTerminator(s[i])
  }

  /**
   * The games the TXT format reads back unchanged: a title that is not
   * empty, has no blanks at its ends and no line terminator, and developer
   * and platform without blanks at their ends that fit on one line.
   */
  predicate TxtSafe(g: Game) {
    && g.title != [] && IsTrimmed(g.title) && NoLineTerminator(g.title)
    && IsTrimmed(g.developer) && OneLine(g.developer)
    && IsTrimmed(g.platform) && OneLine(g.platform)
  }

  lemma {:induction false} DigitRunOf(d: string, rest: string)
    requires forall i :: 0 <= i < |d| ==> IsDigit(d[i])
    requires rest != [] && !IsDigit(rest[0])
    ensures DigitRun(d + rest) == |d|
    decreases |d|
  {
    if d == [] {
      assert d + rest == rest;
    } else {
      assert (d + rest)[1..] == d[1..] + rest;
      DigitRunOf(d[1..], rest);
    }
  }

  /** The point after the number is the first point of a title line. */
  lemma TitleLineDot(d: string, title: string)
    requires forall i :: 0 <= i < |d| ==> IsDigit(d[i])
    ensures IndexOf(d + ". " + title, '.') == |d|
  {
    var line := d + ". " + title;
    assert line[|d|] == '.';
  }

  /** The title read from a title line is the title written. */
  lemma TitleLineTitle(d: string, title: string)
    requires forall i :: 0 <= i < |d| ==> IsDigit(d[i])
    requires IsTrimmed(title)
    ensures StartTitle(d + ". " + title) == title
  {
    var line := d + ". " + title;
    TitleLineDot(d, title);
    assert line[|d| + 1..] == " " + title + "";
    TrimBetweenBlanks(" ", title, "");
  }

  /** A title line needs no trimming. */
  lemma TitleLineTrimmed(d: string, title: string)
    requires d != [] && forall i :: 0 <= i < |d| ==> IsDigit(d[i])
    requires title != [] && IsTrimmed(title)
    ensures Trim(d + ". " + title) == d + ". " + title
  {
    var line := d + ". " + title;
    assert line[0] == d[0] && line[|line| - 1] == title[|title| - 1];
    TrimOfTrimmed(line);
  }

  lemma TitleLineMatches(d: string, title: string)
    requires d != [] && forall i :: 0 <= i < |d| ==> IsDigit(d[i])
    requires title != [] && NoLineTerminator(title)
    ensures IsRecordStart(d + ". " + title)
  {
    var line := d + ". " + title;
    DigitRunOf(d, ". " + title);
    var k := |d|;
    assert line[k] == '.' && line[k + 1] == ' ';
    assert forall i :: k + 2 <= i < |line| ==> line[i] == title[i - k - 2];
    assert SpacesThenText(line, k, k + 2);
  }

  /** A title line starts a record whose title is the game's title. */
  lemma TitleLineStarts(number: nat, g: Game)
    requires number >= 1 && TxtSafe(g)
    ensures Trim(TitleLine(number, g)) == TitleLine(number, g)
    ensures IsRecordStart(TitleLine(number, g))
    ensures StartTitle(TitleLine(number, g)) == g.title
  {
    var d := IntToString(number);
    IntToStringChars(number);
    TitleLineTrimmed(d, g.title);
    TitleLineMatches(d, g.title);
    TitleLineTitle(d, g.title);
  }

  /** What `trim` leaves of a key line, and what follows the key there. */
  lemma FieldLineTrim(key: string, value: string)
    requires key != [] && IsTrimmed(key) && IsTrimmed(value)
    ensures var line := Trim(FieldLine(key, value));
      && line != [] && line[0] == key[0] && StartsWith(line, key)
      && Trim(line[|key|..]) == value
  {
    var line := FieldLine(key, value);
    if value == [] {
      assert line == INDENT + key + " ";
      TrimBetweenBlanks(INDENT, key, " ");
      assert key[|key|..] == [];
    } else {
      var m := key + " " + value;
      assert line == INDENT + m + "";
      TrimBetweenBlanks(INDENT, m, "");
      assert m[..|key|] == key;
      assert m[|key|..] == " " + value + "";
      TrimBetweenBlanks(" ", value, "");
    }
  }

  /** A line whose first character is not a digit never starts a record. */
  lemma NotDigitNotStart(line: string)
    requires line != [] && !IsDigit(line[0])
    ensures !IsRecordStart(line)
  {
  }

  lemma GenreLineStep(st: Reader, g: Game)
    requires st.reading
    ensures Step(st, GenreLine(g)) == Some(st.(genre := g.genre))
  {
    FieldLineTrim(GENRE_KEY, WireName(g.genre));
    NotDigitNotStart(Trim(GenreLine(g)));
    GenreFromWireName(g.genre);
  }

  lemma YearLineStep(st: Reader, g: Game)
    requires st.reading
    ensures Step(st, YearLine(g)) == Some(st.(year := g.year))
  {
    IntToStringTrimmed(g.year);
    FieldLineTrim(YEAR_KEY, IntToString(g.year));
    var line := Trim(YearLine(g));
    NotDigitNotStart(line);
    assert !StartsWith(line, GENRE_KEY) by {
      assert line[0] != GENRE_KEY[0];
    }
    ParseIntTrimmedToString(g.year);
    TrimOfTrimmed(IntToString(g.year));
  }

  /** The text before `/` in a written rating is the written number. */
  lemma RatingText(t: int)
    ensures Trim(TakeBefore(TenthsToString(t) + RATING_SCALE, '/')) == TenthsToString(t)
    ensures IsTrimmed(TenthsToString(t) + RATING_SCALE)
  {
    var n := TenthsToString(t);
    var s := n + RATING_SCALE;
    TenthsToStringChars(t);
    TenthsToStringTrimmed(t);
    assert s[|n|] == '/';
    var k := IndexOf(s, '/');
    assert k == |n|;
    assert s[..k] == n;
    TrimOfTrimmed(n);
  }

  lemma RatingLineStep(st: Reader, g: Game)
    requires st.reading
    ensures Step(st, RatingLine(g)) == Some(st.(rating := g.rating))
  {
    RatingText(g.rating);
    FieldLineTrim(RATING_KEY, TenthsToString(g.rating) + RATING_SCALE);
    var line := Trim(RatingLine(g));
    NotDigitNotStart(line);
    assert !StartsWith(line, GENRE_KEY) && !StartsWith(line, YEAR_KEY) by {
      assert line[0] != GENRE_KEY[0] && line[0] != YEAR_KEY[0];
    }
    ParseDoubleToString(g.rating);
  }

  lemma DeveloperLineStep(st: Reader, g: Game)
    requires st.reading && IsTrimmed(g.developer)
    ensures Step(st, DeveloperLine(g)) == Some(st.(developer := g.developer))
  {
    FieldLineTrim(DEVELOPER_KEY, g.developer);
    var line := Trim(DeveloperLine(g));
    NotDigitNotStart(line);
    assert !StartsWith(line, GENRE_KEY) && !StartsWith(line, YEAR_KEY) by {
      assert line[0] != GENRE_KEY[0] && line[0] != YEAR_KEY[0];
    }
    assert !StartsWith(line, RATING_KEY) by {
      assert line[1] == DEVELOPER_KEY[1] != RATING_KEY[1];
    }
  }

  lemma PlatformLineStep(st: Reader, g: Game)
    requires st.reading && IsTrimmed(g.platform)
    ensures Step(st, PlatformLine(g)) == Some(st.(platform := g.platform))
  {
    FieldLineTrim(PLATFORM_KEY, g.platform);
    var line := Trim(PlatformLine(g));
    NotDigitNotStart(line);
    assert line[0] != GENRE_KEY[0] && line[0] != YEAR_KEY[0];
    assert line[0] != RATING_KEY[0] && line[0] != DEVELOPER_KEY[0];
    assert !StartsWith(line, GENRE_KEY) && !StartsWith(line, YEAR_KEY);
    assert !StartsWith(line, RATING_KEY) && !StartsWith(line, DEVELOPER_KEY);
  }

  /** The empty line after each block is ignored. */
  lemma EmptyLineStep(st: Reader)
    ensures Step(st, "") == Some(st)
  {
    assert Trim("") == "";
    assert !IsRecordStart("");
  }

  /** One step of the loop, on the lines from `k` on. */
  lemma RunFrom(st: Reader, lines: seq<string>, k: nat, next: Reader)
    requires k < |lines| && Step(st, lines[k]) == Some(next)
    ensures Run(st, lines[k..]) == Run(next, lines[k + 1..])
  {
    assert lines[k..][0] == lines[k] && lines[k..][1..] == lines[k + 1..];
  }

  /** The genre, year and rating lines of a block set those three fields. */
  lemma RunNumberLines(st: Reader, g: Game)
    requires st.reading
    ensures Run(st, NumberLines(g)) ==
      Some(st.(genre := g.genre, year := g.year, rating := g.rating))
  {
    var b := NumberLines(g);
    GenreLineStep(st, g);
    var s1 := st.(genre := g.genre);
    RunFrom(st, b, 0, s1);
    YearLineStep(s1, g);
    var s2 := s1.(year := g.year);
    RunFrom(s1, b, 1, s2);
    RatingLineStep(s2, g);
    RunFrom(s2, b, 2, s2.(rating := g.rating));
    assert b[3..] == [] && b[0..] == b;
  }

  /** The developer, platform and empty lines of a block set the two remaining fields. */
  lemma RunTextLines(st: Reader, g: Game)
    requires st.reading && IsTrimmed(g.developer) && IsTrimmed(g.platform)
    ensures Run(st, TextLines(g)) ==
      Some(st.(developer := g.developer, platform := g.platform))
  {
    var b := TextLines(g);
    DeveloperLineStep(st, g);
    var s1 := st.(developer := g.developer);
    RunFrom(st, b, 0, s1);
    PlatformLineStep(s1, g);
    var s2 := s1.(platform := g.platform);
    RunFrom(s1, b, 1, s2);
    EmptyLineStep(s2);
    RunFrom(s2, b, 2, s2);
    assert b[3..] == [] && b[0..] == b;
  }

  /** Reading a block: the record before is added if it has a title, and the block's game is being read. */
  lemma RunBlock(st: Reader, number: nat, g: Game)
    requires number >= 1 && TxtSafe(g)
    ensures Run(st, Block(number, g)) ==
      Some(Reader(Flushed(st), g.title, g.genre, g.year, g.rating, g.developer, g.platform, true))
  {
    var title := [TitleLine(number, g)];
    var numbers := NumberLines(g);
    var texts := TextLines(g);
    TitleLineStarts(number, g);
    var s1 := st.(loaded := Flushed(st), title := g.title, reading := true);
    RunFrom(st, title, 0, s1);
    assert title[1..] == [] && title[0..] == title;
    RunNumberLines(s1, g);
    var s2 := s1.(genre := g.genre, year := g.year, rating := g.rating);
    RunTextLines(s2, g);
    RunThen(st, title, numbers, s1);
    RunThen(st, title + numbers, texts, s2);
  }

  /** The state after reading the blocks of a non-empty catalog: its last game is being read. */
  function Reading(games: seq<Game>): Reader
    requires games != []
  {
    var g := games[|games| - 1];
    Reader(games[..|games| - 1], g.title, g.genre, g.year, g.rating, g.developer, g.platform, true)
  }

  /** Adding the record being read gives back every game read. */
  lemma FlushedReading(games: seq<Game>)
    requires games != [] && games[|games| - 1].title != []
    ensures Flushed(Reading(games)) == games
    ensures Finish(Reading(games)) == games
  {
    var st := Reading(games);
    assert Current(st) == games[|games| - 1];
    assert games[..|games| - 1] + [games[|games| - 1]] == games;
  }

  /** Reading two runs of lines one after the other, when the first does not throw. */
  lemma RunThen(st: Reader, a: seq<string>, b: seq<string>, mid: Reader)
    requires Run(st, a) == Some(mid)
    ensures Run(st, a + b) == Run(mid, b)
  {
    RunAppend(st, a, b);
  }

  lemma {:induction false} RunBody(games: seq<Game>)
    requires forall i :: 0 <= i < |games| ==> TxtSafe(games[i])
    ensures Run(START, Body(games)) == Some(if games == [] then START else Reading(games))
  {
    if games != [] {
      var init := games[..|games| - 1];
      var g := games[|games| - 1];
      RunBody(init);
      var before := if init == [] then START else Reading(init);
      RunBlock(before, |games|, g);
      RunThen(START, Body(init), Block(|games|, g), before);
      if init != [] {
        FlushedReading(init);
      }
      assert Body(games) == Body(init) + Block(|games|, g);
    }
  }

  /** Reading back what the TXT writer wrote gives the catalog itself. */
  lemma DecodeBody(games: seq<Game>)
    requires forall i :: 0 <= i < |games| ==> TxtSafe(games[i])
    ensures Decode(Body(games)) == Some(games)
  {
    RunBody(games);
    if games != [] {
      FlushedReading(games);
    }
  }
}
