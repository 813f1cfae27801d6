/**
 * The CSV format of the catalog: a header line, then one line per game with
 * the four text fields in double quotes and every quote inside them doubled
 * (the escaping of section 2 of RFC 4180), the year and the rating bare.
 *
 * The reader is simpler than the writer: it cuts a line at the commas that
 * lie outside quotes and strips the outer quotes of each part, but it does
 * not turn a doubled quote back into one. A line it cannot read is skipped
 * and reading goes on with the next line.
 */
module Csv {
  import opened Wrappers
  import opened JavaText
  import opened Numbers
  import opened Games

  /** The column names, and the header line written before the data lines: `Title,Genre,...,Platform`. */
  const HEADER_PARTS := ["Title", "Genre", "Year", "Rating", "Developer", "Platform"]
  const HEADER := Join(HEADER_PARTS)

  // ----------------------------------------------------------------- quotes

  function QuoteCount(s: string): nat {
    if s == [] then 0 else (if s[0] == '"' then 1 else 0) + QuoteCount(s[1..])
  }

  predicate EvenQuotes(s: string) {
    QuoteCount(s) % 2 == 0
  }

  lemma {:induction false} QuoteCountAppend(a: string, b: string)
    ensures QuoteCount(a + b) == QuoteCount(a) + QuoteCount(b)
  {
    if a == [] {
      assert a + b == b;
    } else {
      assert (a + b)[1..] == a[1..] + b;
      QuoteCountAppend(a[1..], b);
    }
  }

  lemma {:induction false} NoQuoteCount(s: string)
    requires '"' !in s
    ensures QuoteCount(s) == 0
  {
    if s != [] {
      NoQuoteCount(s[1..]);
    }
  }

  /** `replace("\"", "\"\"")`: every quote doubled. */
  function Escape(s: string): (r: string)
    ensures QuoteCount(r) == 2 * QuoteCount(s)
  {
    if s == [] then []
    else
      var head := if s[0] == '"' then "\"\"" else [s[0]];
      var tail := Escape(s[1..]);
      QuoteCountAppend(head, tail);
      head + tail
  }

  /** Escaping one character: a quote becomes two, anything else stays. */
  lemma EscapeChar(c: char)
    ensures Escape([c]) == if c == '"' then "\"\"" else [c]
  {
    assert [c][1..] == [];
  }

  /** Escaping works character by character: it distributes over concatenation. */
  lemma {:induction false} EscapeAppend(a: string, b: string)
    ensures Escape(a + b) == Escape(a) + Escape(b)
  {
    if a == [] {
      assert a + b == b;
    } else {
      assert (a + b)[0] == a[0] && (a + b)[1..] == a[1..] + b;
      EscapeAppend(a[1..], b);
    }
  }

  /** A text without quotes is written unchanged between its quotes. */
  lemma {:induction false} EscapeWithoutQuotes(s: string)
    requires '"' !in s
    ensures Escape(s) == s
  {
    if s != [] {
      EscapeWithoutQuotes(s[1..]);
      assert s == [s[0]] + s[1..];
    }
  }

  function Quoted(s: string): string {
    "\"" + s + "\""
  }

  // ----------------------------------------------------------------- writer

  /** The parts of a line joined with commas. */
  function Join(parts: seq<string>): string
    requires |parts| >= 1
  {
    if |parts| == 1 then parts[0] else parts[0] + "," + Join(parts[1..])
  }

  /** A line ends with the last character of its last part. */
  lemma {:induction false} JoinLastChar(parts: seq<string>)
    requires |parts| >= 1 && parts[|parts| - 1] != []
    ensures |Join(parts)| > 0
    ensures Join(parts)[|Join(parts)| - 1] == parts[|parts| - 1][|parts[|parts| - 1]| - 1]
  {
    if |parts| > 1 {
      JoinLastChar(parts[1..]);
    }
  }

  /** The six parts of a game's line: title, genre, year, rating, developer, platform. */
  function RowParts(g: Game): seq<string> {
    [ Quoted(Escape(g.title)), Quoted(WireName(g.genre)), IntToString(g.year),
      TenthsToString(g.rating), Quoted(Escape(g.developer)), Quoted(Escape(g.platform)) ]
  }

  /** The line written for one game. */
  function Row(g: Game): string {
    Join(RowParts(g))
  }

  /** The data lines, one per game, in catalog order. */
  function Rows(games: seq<Game>): (lines: seq<string>)
    ensures |lines| == |games|
    ensures forall i :: 0 <= i < |games| ==> lines[i] == Row(games[i])
  {
    seq(|games|, i requires 0 <= i < |games| => Row(games[i]))
  }

  lemma RowsGrow(games: seq<Game>, i: nat)
    requires i < |games|
    ensures Rows(games[..i + 1]) == Rows(games[..i]) + [Row(games[i])]
  {
  }

  /** The CSV branch of `saveToFile`: the header line, then a line per game. */
  method WriteCsv(games: seq<Game>) returns (lines: seq<string>)
    ensures lines == [HEADER] + Rows(games)
  {
    lines := [HEADER];
    for i := 0 to |games|
      invariant lines == [HEADER] + Rows(games[..i])
    {
      RowsGrow(games, i);
      lines := lines + [Row(games[i])];
    }
    assert games[..|games|] == games;
  }

  // -------------------------------------------------------------- splitting

  /**
   * The `split` of the reader, with no limit on the number of parts: a comma
   * is a cut point when an even number of quotes follows it up to the end of
   * the line, and every part is kept, empty ones included.
   */
  function SplitOutsideQuotes(s: string): (parts: seq<string>)
    ensures |parts| >= 1
  {
    if s == [] then [""]
    else
      var rest := SplitOutsideQuotes(s[1..]);
      if s[0] == ',' && EvenQuotes(s[1..]) then [""] + rest
      else [[s[0]] + rest[0]] + rest[1..]
  }

  /** Gluing the parts back together with commas gives the line that was split. */
  lemma {:induction false} SplitJoinsBack(s: string)
    ensures Join(SplitOutsideQuotes(s)) == s
  {
    if s != [] {
      var rest := SplitOutsideQuotes(s[1..]);
      SplitJoinsBack(s[1..]);
      JoinCons(rest);
      if !(s[0] == ',' && EvenQuotes(s[1..])) {
        var parts := [[s[0]] + rest[0]] + rest[1..];
        JoinCons(parts);
        assert parts[1..] == rest[1..];
      } else {
        assert ([""] + rest)[1..] == rest;
      }
    }
  }

  /** `Join` takes off its first part, and the comma after it when there is more. */
  lemma JoinCons(parts: seq<string>)
    requires |parts| >= 1
    ensures Join(parts) == parts[0] + (if |parts| == 1 then "" else "," + Join(parts[1..]))
  {
    if |parts| == 1 {
      assert parts[0] + "" == parts[0];
    }
  }

  /**
   * The parts of a split line are cut exactly at the separating commas: each
   * separator is followed by an even number of quotes up to the end of the
   * line, and no comma inside a part is.
   */
  predicate CutAtSeparators(parts: seq<string>)
    requires |parts| >= 1
  {
    if |parts| == 1 then NoCutIn(parts[0], "")
    else
      && EvenQuotes(Join(parts[1..]))
      && NoCutIn(parts[0], "," + Join(parts[1..]))
      && CutAtSeparators(parts[1..])
  }

  /** A leading character that is not a cut point keeps a text free of cut points. */
  lemma NoCutInCons(c: char, f: string, t: string)
    requires c == ',' ==> !EvenQuotes(f + t)
    requires NoCutIn(f, t)
    ensures NoCutIn([c] + f, t)
  {
    var g := [c] + f;
    forall p | 0 <= p < |g| && g[p] == ','
      ensures !EvenQuotes(g[p + 1..] + t)
    {
      if p == 0 {
        assert g[1..] == f;
      } else {
        assert g[p] == f[p - 1] && g[p + 1..] == f[p..];
      }
    }
  }

  /** A separator in front of well-cut parts gives well-cut parts. */
  lemma CutAtSeparatorsCut(rest: seq<string>)
    requires |rest| >= 1 && CutAtSeparators(rest) && EvenQuotes(Join(rest))
    ensures CutAtSeparators([""] + rest)
  {
    assert ([""] + rest)[1..] == rest;
  }

  /** A character that is not a cut point, glued to the first of well-cut parts, gives well-cut parts. */
  lemma CutAtSeparatorsGlue(c: char, rest: seq<string>)
    requires |rest| >= 1 && CutAtSeparators(rest)
    requires c == ',' ==> !EvenQuotes(Join(rest))
    ensures CutAtSeparators([[c] + rest[0]] + rest[1..])
  {
    var parts := [[c] + rest[0]] + rest[1..];
    assert parts[1..] == rest[1..];
    if |rest| == 1 {
      assert Join(rest) == rest[0] + "";
      NoCutInCons(c, rest[0], "");
    } else {
      var t := "," + Join(rest[1..]);
      assert rest[0] + t == Join(rest);
      NoCutInCons(c, rest[0], t);
    }
  }

  /** `SplitOutsideQuotes` cuts at every comma outside quotes and nowhere else. */
  lemma {:induction false} SplitCutsOutsideQuotes(s: string)
    ensures CutAtSeparators(SplitOutsideQuotes(s))
  {
    if s != [] {
      var rest := SplitOutsideQuotes(s[1..]);
      SplitCutsOutsideQuotes(s[1..]);
      SplitJoinsBack(s[1..]);
      if s[0] == ',' && EvenQuotes(s[1..]) {
        CutAtSeparatorsCut(rest);
      } else {
        CutAtSeparatorsGlue(s[0], rest);
      }
    }
  }

  /** No comma of `f` is a cut point when `t` follows `f`. */
  predicate NoCutIn(f: string, t: string) {
    forall p :: 0 <= p < |f| && f[p] == ',' ==> !EvenQuotes(f[p + 1..] + t)
  }

  lemma NoCutInTail(f: string, t: string)
    requires f != [] && NoCutIn(f, t)
    ensures NoCutIn(f[1..], t)
  {
    forall p | 0 <= p < |f| - 1 && f[1..][p] == ','
      ensures !EvenQuotes(f[1..][p + 1..] + t)
    {
      assert f[1..][p + 1..] == f[p + 2..];
      assert f[p + 1] == ',';
    }
  }

  /** A text with no cut point stays in one part, glued to the first part of what follows it. */
  lemma {:induction false} SplitPrefix(f: string, t: string)
    requires NoCutIn(f, t)
    ensures SplitOutsideQuotes(f + t)
      == [f + SplitOutsideQuotes(t)[0]] + SplitOutsideQuotes(t)[1..]
  {
    if f == [] {
      var st := SplitOutsideQuotes(t);
      assert f + t == t;
      assert f + st[0] == st[0];
      assert st == [st[0]] + st[1..];
    } else {
      var rest := f[1..];
      NoCutInTail(f, t);
      SplitPrefix(rest, t);
      var s := f + t;
      assert s[0] == f[0] && s[1..] == rest + t;
      assert f[0] == ',' ==> !EvenQuotes(rest + t) by {
        assert f[0 + 1..] == rest;
      }
      assert [f[0]] + (rest + SplitOutsideQuotes(t)[0]) == f + SplitOutsideQuotes(t)[0];
    }
  }

  /**
   * A part the reader gets back whole: an even number of quotes, and an odd
   * number after each of its commas.
   */
  predicate WholePart(f: string) {
    && EvenQuotes(f)
    && forall p :: 0 <= p < |f| && f[p] == ',' ==> !EvenQuotes(f[p + 1..])
  }

  lemma WholePartNoCut(f: string, t: string)
    requires WholePart(f) && EvenQuotes(t)
    ensures NoCutIn(f, t)
  {
    forall p | 0 <= p < |f| && f[p] == ','
      ensures !EvenQuotes(f[p + 1..] + t)
    {
      QuoteCountAppend(f[p + 1..], t);
    }
  }

  /** Splitting a line made of whole parts gives the parts back. */
  lemma {:induction false} SplitJoin(parts: seq<string>)
    requires |parts| >= 1
    requires forall i :: 0 <= i < |parts| ==> WholePart(parts[i])
    ensures SplitOutsideQuotes(Join(parts)) == parts
    ensures EvenQuotes(Join(parts))
  {
    var f := parts[0];
    if |parts| == 1 {
      WholePartNoCut(f, "");
      SplitPrefix(f, "");
      assert f + "" == f;
    } else {
      var rest := parts[1..];
      var j := Join(rest);
      SplitJoin(rest);
      var t := "," + j;
      QuoteCountAppend(",", j);
      assert t[1..] == j;
      var st := SplitOutsideQuotes(t);
      assert st == [""] + rest;
      assert st[0] == "" && st[1..] == rest;
      WholePartNoCut(f, t);
      SplitPrefix(f, t);
      assert Join(parts) == f + t;
      QuoteCountAppend(f, t);
      assert f + "" == f;
      assert parts == [f] + rest;
    }
  }

  /** A part with neither quotes nor commas is whole. */
  lemma PlainWholePart(s: string)
    requires '"' !in s && ',' !in s
    ensures WholePart(s)
  {
    NoQuoteCount(s);
  }

  /** After a comma of an escaped text comes an even number of quotes. */
  lemma {:induction false} EscapeCommas(x: string)
    ensures forall p :: 0 <= p < |Escape(x)| && Escape(x)[p] == ',' ==> EvenQuotes(Escape(x)[p + 1..])
  {
    if x != [] {
      var e := Escape(x);
      var head := if x[0] == '"' then "\"\"" else [x[0]];
      var tail := Escape(x[1..]);
      assert e == head + tail;
      EscapeCommas(x[1..]);
      forall p | 0 <= p < |e| && e[p] == ','
        ensures EvenQuotes(e[p + 1..])
      {
        if p < |head| {
          assert e[p + 1..] == tail;
        } else {
          assert e[p] == tail[p - |head|];
          assert e[p + 1..] == tail[p - |head| + 1..];
        }
      }
    }
  }

  /** A quoted, escaped text is a whole part: its commas never cut the line. */
  lemma QuotedEscapeWhole(x: string)
    ensures WholePart(Quoted(Escape(x)))
  {
    var e := Escape(x);
    var q := Quoted(e);
    QuoteCountAppend("\"", e);
    QuoteCountAppend("\"" + e, "\"");
    EscapeCommas(x);
    forall p | 0 <= p < |q| && q[p] == ','
      ensures !EvenQuotes(q[p + 1..])
    {
      assert 1 <= p <= |e|;
      assert e[p - 1] == ',';
      assert q[p + 1..] == e[p..] + "\"";
      QuoteCountAppend(e[p..], "\"");
    }
  }

  lemma QuotedWireNameWhole(g: Genre)
    ensures WholePart(Quoted(WireName(g)))
  {
    EscapeWithoutQuotes(WireName(g));
    QuotedEscapeWhole(WireName(g));
  }

  /** The line of a game splits back into its six parts, whatever commas and quotes its texts hold. */
  lemma SplitRow(g: Game)
    ensures SplitOutsideQuotes(Row(g)) == RowParts(g)
  {
    var parts := RowParts(g);
    QuotedEscapeWhole(g.title);
    QuotedWireNameWhole(g.genre);
    IntToStringChars(g.year);
    PlainWholePart(IntToString(g.year));
    TenthsToStringChars(g.rating);
    PlainWholePart(TenthsToString(g.rating));
    QuotedEscapeWhole(g.developer);
    QuotedEscapeWhole(g.platform);
    SplitJoin(parts);
  }

  // ---------------------------------------------------------------- reading

  /**
   * One part after `trim` and, when it starts and ends with a quote, without
   * them; `None` for a part that is a lone quote, where `substring(1, 0)`
   * throws.
   */
  function Unquote(p: string): Option<string> {
    var t := Trim(p);
    if StartsWith(t, "\"") && EndsWith(t, "\"") then
      if |t| < 2 then None else Some(t[1..|t| - 1])
    else Some(t)
  }

  lemma UnquoteQuoted(e: string)
    ensures Unquote(Quoted(e)) == Some(e)
  {
    var q := Quoted(e);
    TrimOfTrimmed(q);
    assert q[1..|q| - 1] == e;
  }

  lemma UnquotePlain(s: string)
    requires IsTrimmed(s) && (s == [] || s[0] != '"')
    ensures Unquote(s) == Some(s)
  {
    TrimOfTrimmed(s);
  }

  /** Every part unquoted, or `None` when one of them throws. */
  function UnquoteAll(parts: seq<string>): (r: Option<seq<string>>)
    ensures r.Some? <==> forall i :: 0 <= i < |parts| ==> Unquote(parts[i]).Some?
    ensures r.Some? ==> |r.value| == |parts|
    ensures r.Some? ==> forall i :: 0 <= i < |parts| ==> Unquote(parts[i]) == Some(r.value[i])
  {
    if forall i :: 0 <= i < |parts| ==> Unquote(parts[i]).Some? then
      Some(seq(|parts|, i requires 0 <= i < |parts| => Unquote(parts[i]).value))
    else None
  }

  /** The quote-stripping loop, rewriting the split parts in place; `false` when a lone quote throws. */
  method UnquoteParts(parts: array<string>) returns (ok: bool)
    modifies parts
    ensures ok == UnquoteAll(old(parts[..])).Some?
    ensures ok ==> parts[..] == UnquoteAll(old(parts[..])).value
  {
    ghost var original := parts[..];
    for i := 0 to parts.Length
      invariant forall j :: 0 <= j < i ==> Unquote(original[j]) == Some(parts[j])
      invariant forall j :: i <= j < parts.Length ==> parts[j] == original[j]
    {
      var part := Trim(parts[i]);
      if StartsWith(part, "\"") && EndsWith(part, "\"") {
        if |part| < 2 {
          assert Unquote(original[i]).None?;
          return false;
        }
        part := part[1..|part| - 1];
      }
      parts[i] := part;
    }
    ok := true;
  }

  /**
   * A game from six or more unquoted parts: the genre through
   * `toUpperCase().replace("/", "_")` and `valueOf`, the year through
   * `Integer.parseInt`, the rating through `Double.parseDouble`; `None` when
   * one of them throws. Parts after the sixth are ignored.
   */
  function GameOfParts(parts: seq<string>): Option<Game>
    requires |parts| >= 6
  {
    var genre := GenreFromWire(parts[1]);
    var year := ParseInt(parts[2]);
    var rating := ParseDouble(parts[3]);
    if genre.None? || year.None? || rating.None? then None
    else Some(Game(parts[0], genre.value, year.value, rating.value, parts[4], parts[5]))
  }

  /** What the reader makes of one line after the first: a game, or `None` when the line is skipped. */
  function Record(line: string): Option<Game> {
    var t := Trim(line);
    var parts := SplitOutsideQuotes(t);
    if t == [] || |parts| < 6 then None
    else
      var unquoted := UnquoteAll(parts);
      if unquoted.None? then None else GameOfParts(unquoted.value)
  }

  /** The body of the reading loop for one line, with the parts held in an array as `split` returns them. */
  method ReadLine(line: string) returns (r: Option<Game>)
    ensures r == Record(line)
  {
    var t := Trim(line);
    if t == [] {
      return None;
    }
    var split := SplitOutsideQuotes(t);
    if |split| < 6 {
      return None;
    }
    var parts := new string[|split|](i requires 0 <= i < |split| => split[i]);
    assert parts[..] == split;
    var ok := UnquoteParts(parts);
    if !ok {
      return None;
    }
    r := GameOfParts(parts[..]);
  }

  /** The games read from a run of lines, each line on its own. */
  function Records(lines: seq<string>): seq<Game> {
    if lines == [] then []
    else
      var last := Record(lines[|lines| - 1]);
      Records(lines[..|lines| - 1]) + (if last.Some? then [last.value] else [])
  }

  /** The reader drops the first line, whatever it holds, and reads the others. */
  function Decode(lines: seq<string>): seq<Game> {
    if lines == [] then [] else Records(lines[1..])
  }

  /** The CSV branch of `loadFromFile`: skip a line, then read every other line into `loadedGames`. */
  method ReadCsv(lines: seq<string>) returns (loaded: seq<Game>)
    ensures loaded == Decode(lines)
  {
    loaded := [];
    if lines == [] {
      return;
    }
    var body := lines[1..];
    for i := 0 to |body|
      invariant loaded == Records(body[..i])
    {
      assert body[..i + 1][..i] == body[..i];
      var game := ReadLine(body[i]);
      if game.Some? {
        loaded := loaded + [game.value];
      }
    }
    assert body[..|body|] == body;
  }

  // ------------------------------------------------------------- properties

  /** Each line is read on its own: lines that yield nothing leave the rest of the reading unchanged. */
  lemma {:induction false} RecordsAppend(a: seq<string>, b: seq<string>)
    ensures Records(a + b) == Records(a) + Records(b)
    decreases |b|
  {
    if b == [] {
      assert a + b == a;
    } else {
      var init := b[..|b| - 1];
      RecordsAppend(a, init);
      assert (a + b)[..|a + b| - 1] == a + init;
      assert (a + b)[|a + b| - 1] == b[|b| - 1];
    }
  }

  /** A line the reader cannot use is skipped, and reading goes on after it. */
  lemma SkipsBadLine(a: seq<string>, bad: string, b: seq<string>)
    requires Record(bad).None?
    ensures Records(a + [bad] + b) == Records(a) + Records(b)
  {
    var ab := a + [bad];
    assert ab[..|ab| - 1] == a && ab[|ab| - 1] == bad;
    assert Records(ab) == Records(a);
    RecordsAppend(ab, b);
  }

  /** Without a comma, a line is a single part. */
  lemma {:induction false} SplitNoComma(s: string)
    requires ',' !in s
    ensures SplitOutsideQuotes(s) == [s]
  {
    if s != [] {
      SplitNoComma(s[1..]);
      assert s == [s[0]] + s[1..];
    }
  }

  /** A line without a comma is skipped: it has one part, not six. */
  lemma NoCommaSkipped(line: string)
    requires ',' !in line
    ensures Record(line) == None
  {
    var t := Trim(line);
    if ',' in t {
      TrimIn(line, ',');
    }
    SplitNoComma(t);
  }

  /** A trimmed part with neither quotes nor commas is whole and needs no unquoting. */
  lemma PlainPart(s: string)
    requires '"' !in s && ',' !in s && IsTrimmed(s)
    ensures WholePart(s) && Unquote(s) == Some(s)
  {
    PlainWholePart(s);
    UnquotePlain(s);
  }

  lemma HeaderPartsPlain()
    ensures forall i :: 0 <= i < |HEADER_PARTS| ==>
      WholePart(HEADER_PARTS[i]) && Unquote(HEADER_PARTS[i]) == Some(HEADER_PARTS[i])
  {
    forall i | 0 <= i < |HEADER_PARTS|
      ensures WholePart(HEADER_PARTS[i]) && Unquote(HEADER_PARTS[i]) == Some(HEADER_PARTS[i])
    {
      if i == 0 {
        PlainPart("Title");
      } else if i == 1 {
        PlainPart("Genre");
      } else if i == 2 {
        PlainPart("Year");
      } else if i == 3 {
        PlainPart("Rating");
      } else if i == 4 {
        PlainPart("Developer");
      } else {
        PlainPart("Platform");
      }
    }
  }

  /** A line of six or more plain parts is skipped when its year part is not a number. */
  lemma PlainLineSkipped(parts: seq<string>)
    requires |parts| >= 6 && parts[0] != [] && parts[|parts| - 1] != []
    requires forall i :: 0 <= i < |parts| ==> WholePart(parts[i]) && Unquote(parts[i]) == Some(parts[i])
    requires !IsBlank(parts[0][0]) && !IsBlank(parts[|parts| - 1][|parts[|parts| - 1]| - 1])
    requires ParseInt(parts[2]).None?
    ensures Record(Join(parts)) == None
  {
    var line := Join(parts);
    SplitJoin(parts);
    JoinLastChar(parts);
    assert line[0] == parts[0][0];
    TrimOfTrimmed(line);
    var u := UnquoteAll(parts);
    assert u.Some? && u.value[2] == parts[2];
  }

  /** The header line is skipped wherever it stands: its year part is not a number. */
  lemma HeaderSkipped()
    ensures Record(HEADER) == None
  {
    HeaderPartsPlain();
    assert ParseInt(HEADER_PARTS[2]) == None;
    PlainLineSkipped(HEADER_PARTS);
  }

  /** Lines that are each skipped, put before others, add nothing. */
  lemma SkippedPrefix(skipped: seq<string>, rest: seq<string>)
    requires forall i :: 0 <= i < |skipped| ==> Record(skipped[i]).None?
    ensures Records(skipped + rest) == Records(rest)
  {
    RecordsAppend(skipped, rest);
    RecordsNone(skipped);
  }

  /** Lines that are each skipped add nothing. */
  lemma {:induction false} RecordsNone(lines: seq<string>)
    requires forall i :: 0 <= i < |lines| ==> Record(lines[i]).None?
    ensures Records(lines) == []
  {
    if lines != [] {
      RecordsNone(lines[..|lines| - 1]);
    }
  }

  /** A game's text fields as the reader returns them: with every quote doubled. */
  function AsRead(g: Game): Game {
    g.(title := Escape(g.title), developer := Escape(g.developer), platform := Escape(g.platform))
  }

  /** The six parts of a game's line after the outer quotes are stripped. */
  function ReadParts(g: Game): seq<string> {
    [ Escape(g.title), WireName(g.genre), IntToString(g.year),
      TenthsToString(g.rating), Escape(g.developer), Escape(g.platform) ]
  }

  lemma UnquoteRowParts(g: Game)
    ensures UnquoteAll(RowParts(g)) == Some(ReadParts(g))
  {
    var ps := RowParts(g);
    var rs := ReadParts(g);
    forall i | 0 <= i < 6
      ensures Unquote(ps[i]) == Some(rs[i])
    {
      if i == 0 {
        UnquoteQuoted(Escape(g.title));
      } else if i == 1 {
        UnquoteQuoted(WireName(g.genre));
      } else if i == 2 {
        IntToStringTrimmed(g.year);
        UnquotePlain(IntToString(g.year));
      } else if i == 3 {
        TenthsToStringTrimmed(g.rating);
        UnquotePlain(TenthsToString(g.rating));
      } else if i == 4 {
        UnquoteQuoted(Escape(g.developer));
      } else {
        UnquoteQuoted(Escape(g.platform));
      }
    }
    var u := UnquoteAll(ps);
    assert u.Some?;
    assert u.value == rs;
  }

  lemma GameOfReadParts(g: Game)
    ensures GameOfParts(ReadParts(g)) == Some(AsRead(g))
  {
    GenreFromWireName(g.genre);
    ParseIntToString(g.year);
    ParseDoubleToString(g.rating);
  }

  /** A game's line needs no trimming: it starts and ends with a quote. */
  lemma RowTrimmed(g: Game)
    ensures Row(g) != [] && Trim(Row(g)) == Row(g)
  {
    var line := Row(g);
    var parts := RowParts(g);
    assert line == Quoted(Escape(g.title)) + ("," + Join(parts[1..]));
    JoinLastChar(parts);
    TrimOfTrimmed(line);
  }

  /** The line of a game is read back as that game, except that quotes in its texts come back doubled. */
  lemma RecordOfRow(g: Game)
    ensures Record(Row(g)) == Some(AsRead(g))
  {
    RowTrimmed(g);
    SplitRow(g);
    UnquoteRowParts(g);
    GameOfReadParts(g);
  }

  /** The games as the reader returns them, one for each game written. */
  function ReadBack(games: seq<Game>): (r: seq<Game>)
    ensures |r| == |games|
    ensures forall i :: 0 <= i < |games| ==> r[i] == AsRead(games[i])
  {
    seq(|games|, i requires 0 <= i < |games| => AsRead(games[i]))
  }

  lemma RowsSnoc(games: seq<Game>)
    requires games != []
    ensures Rows(games)[..|games| - 1] == Rows(games[..|games| - 1])
    ensures Rows(games)[|games| - 1] == Row(games[|games| - 1])
    ensures ReadBack(games) == ReadBack(games[..|games| - 1]) + [AsRead(games[|games| - 1])]
  {
  }

  /** Reading back what the writer wrote gives every game, in order, with quotes doubled. */
  lemma {:induction false} RecordsOfRows(games: seq<Game>)
    ensures Records(Rows(games)) == ReadBack(games)
  {
    if games != [] {
      var init := games[..|games| - 1];
      RecordsOfRows(init);
      RowsSnoc(games);
      RecordOfRow(games[|games| - 1]);
    }
  }

  /** The whole file: the header is dropped and every data line is read back. */
  lemma DecodeWritten(games: seq<Game>)
    requires forall i :: 0 <= i < |games| ==> OneLineTexts(games[i])
    ensures Decode([HEADER] + Rows(games)) == ReadBack(games)
  {
    assert ([HEADER] + Rows(games))[1..] == Rows(games);
    RecordsOfRows(games);
  }

  /**
   * The texts of a game fit on one line, so that each written line is one
   * line of the file when it is read back.
   */
  predicate OneLineTexts(g: Game) {
    OneLine(g.title) && OneLine(g.developer) && OneLine(g.platform)
  }

  /** The texts of a game hold no quote. */
  predicate QuoteFree(g: Game) {
    '"' !in g.title && '"' !in g.developer && '"' !in g.platform
  }

  /** Without quotes in the texts, writing and reading back gives the catalog itself. */
  lemma DecodeWrittenQuoteFree(games: seq<Game>)
    requires forall i :: 0 <= i < |games| ==> OneLineTexts(games[i])
    requires forall i :: 0 <= i < |games| ==> QuoteFree(games[i])
    ensures Decode([HEADER] + Rows(games)) == games
  {
    DecodeWritten(games);
    forall i | 0 <= i < |games|
      ensures AsRead(games[i]) == games[i]
    {
      EscapeWithoutQuotes(games[i].title);
      EscapeWithoutQuotes(games[i].developer);
      EscapeWithoutQuotes(games[i].platform);
    }
  }

  lemma EscapeQuotedN()
    ensures Escape("\"N\"") == "\"\"N\"\""
  {
    var q := "\"";
    assert Escape(q) == "\"\"" + Escape([]);
    assert Escape("N" + q) == "N" + Escape(q);
    assert Escape(q + "N" + q) == "\"\"" + Escape("N" + q);
  }

  /** A concrete case: a title `"N"` comes back as `""N""`. */
  lemma QuotesComeBackDoubled(g: Game)
    requires g.title == "\"N\"" && '"' !in g.developer && '"' !in g.platform
    ensures Record(Row(g)) == Some(g.(title := "\"\"N\"\""))
  {
    RecordOfRow(g);
    EscapeWithoutQuotes(g.developer);
    EscapeWithoutQuotes(g.platform);
    EscapeQuotedN();
  }
}
