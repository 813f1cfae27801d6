/**
 * The catalog window's list of games and what changes it: the twenty sample
 * games it starts with, the add, edit and delete dialogs, and loading a file;
 * and saving, which writes the list as CSV or TXT lines, optionally after a
 * banner. Files are sequences of lines here: reading a file that cannot be
 * opened is `None`.
 */
module Catalog {
  import opened Wrappers
  import opened JavaText
  import opened Numbers
  import opened Games
  import Csv
  import Txt

  // ----------------------------------------------------------------- forms

  /** The add and edit dialogs accept a title that is not blank and a genre label that names a genre. */
  predicate FormAccepted(titleText: string, genreLabel: string) {
    Trim(titleText) != [] && GenreOfLabel(genreLabel).Some?
  }

  /** The game a dialog makes of its fields: texts trimmed, rating from the slider in tenths. */
  function FormGame(titleText: string, genreLabel: string, year: Int32, slider: int,
                    developerText: string, platformText: string): (g: Game)
    requires GenreOfLabel(genreLabel).Some?
    ensures IsTrimmed(g.title) && IsTrimmed(g.developer) && IsTrimmed(g.platform)
  {
    Game(Trim(titleText), GenreOfLabel(genreLabel).value, year, slider, Trim(developerText), Trim(platformText))
  }

  /**
   * A stored game the edit dialog can open: its year fits the year spinner
   * (1970..2030) and its rating the slider (0..100 tenths). For any other
   * game, building the spinner or the slider throws and the dialog never
   * appears.
   */
  predicate Editable(g: Game) {
    1970 <= g.year <= 2030 && 0 <= g.rating <= 100
  }

  /** Every game a dialog makes, from the spinner's and the slider's ranges, can be edited again. */
  lemma FormGameEditable(titleText: string, genreLabel: string, year: Int32, slider: int,
                         developerText: string, platformText: string)
    requires GenreOfLabel(genreLabel).Some?
    requires 1970 <= year <= 2030 && 0 <= slider <= 100
    ensures Editable(FormGame(titleText, genreLabel, year, slider, developerText, platformText))
  {
  }

  /** The list without the game at `i`, the others in their order. */
  function Removed(gs: seq<Game>, i: nat): (r: seq<Game>)
    requires i < |gs|
    ensures |r| == |gs| - 1
    ensures forall j :: 0 <= j < i ==> r[j] == gs[j]
    ensures forall j :: i <= j < |r| ==> r[j] == gs[j + 1]
  {
    gs[..i] + gs[i + 1..]
  }

  /** Removing takes out exactly one occurrence of the removed game. */
  lemma RemovedMultiset(gs: seq<Game>, i: nat)
    requires i < |gs|
    ensures multiset(Removed(gs, i)) + multiset{gs[i]} == multiset(gs)
  {
    assert gs == gs[..i] + [gs[i]] + gs[i + 1..];
  }

  /** Removing the game just added gives the list back. */
  lemma RemoveAdded(gs: seq<Game>, g: Game)
    ensures Removed(gs + [g], |gs|) == gs
  {
    assert (gs + [g])[..|gs|] == gs;
  }

  // ------------------------------------------------------------------ files

  datatype Format = CSV | TXT

  /** The format's name as the save dialog passes it. */
  function FormatName(f: Format): string {
    match f
    case CSV => "CSV"
    case TXT => "TXT"
  }

  /** `"." + format.toLowerCase()`. */
  function Extension(f: Format): string {
    "." + Lower(FormatName(f))
  }

  lemma ExtensionOf(f: Format)
    ensures Extension(f) == if f == CSV then ".csv" else ".txt"
    ensures Lower(Extension(f)) == Extension(f)
  {
  }

  /** The name saved to: the extension is added unless the name already ends with it, in any case. */
  function SaveFileName(fileName: string, f: Format): string {
    if EndsWith(Lower(fileName), Extension(f)) then fileName else fileName + Extension(f)
  }

  /** The loader reads a file as CSV when its name ends with `.csv` in any case, and as TXT otherwise. */
  predicate IsCsvName(fileName: string) {
    EndsWith(Lower(fileName), ".csv")
  }

  lemma EndsWithAppend(s: string, e: string)
    ensures EndsWith(s + e, e)
  {
    assert (s + e)[|s + e| - |e|..] == e;
  }

  /** The name saved to ends with the format's extension, in any case. */
  lemma SaveFileNameEnds(fileName: string, f: Format)
    ensures EndsWith(Lower(SaveFileName(fileName, f)), Extension(f))
  {
    if !EndsWith(Lower(fileName), Extension(f)) {
      LowerAppend(fileName, Extension(f));
      ExtensionOf(f);
      EndsWithAppend(Lower(fileName), Extension(f));
    }
  }

  /** Saving twice under the name saved to adds no second extension. */
  lemma SaveFileNameIdempotent(fileName: string, f: Format)
    ensures SaveFileName(SaveFileName(fileName, f), f) == SaveFileName(fileName, f)
  {
    SaveFileNameEnds(fileName, f);
  }

  /** A saved file is read back in the format it was written in. */
  lemma SavedFormatRecognised(fileName: string, f: Format)
    ensures IsCsvName(SaveFileName(fileName, f)) <==> f == CSV
  {
    SaveFileNameEnds(fileName, f);
    ExtensionOf(f);
    var low := Lower(SaveFileName(fileName, f));
    if f == TXT {
      assert low[|low| - 3] == 't';
    }
  }

  /** A line of seventy `=`. */
  const RULE: string := Repeat('=', 70)

  const CATALOG_TITLE := "КАТАЛОГ КОМПЬЮТЕРНЫХ ИГР ЖАНРА ACTION/RPG"
  const DATE_LABEL := "Дата сохранения: "
  const COUNT_LABEL := "Всего игр: "

  /** The optional banner: the catalog's name between rules, the date, the number of games, an empty line. */
  function Banner(date: string, count: nat): seq<string> {
    [RULE, CATALOG_TITLE, RULE, DATE_LABEL + date, COUNT_LABEL + IntToString(count), RULE, ""]
  }

  /** The lines `saveToFile` writes. */
  function SavedLines(games: seq<Game>, f: Format, includeHeader: bool, date: string): seq<string> {
    (if includeHeader then Banner(date, |games|) else [])
      + (if f == CSV then [Csv.HEADER] + Csv.Rows(games) else Txt.Body(games))
  }

  /** What `loadFromFile` makes of the lines of a file: `None` when it throws. */
  function LoadedGames(fileName: string, lines: seq<string>): Option<seq<Game>> {
    if IsCsvName(fileName) then Some(Csv.Decode(lines)) else Txt.Decode(lines)
  }

  // -------------------------------------------------------- banner skipping

  lemma BannerHasNoComma(date: string, count: nat, i: nat)
    requires ',' !in date && i < 7
    ensures ',' !in Banner(date, count)[i]
  {
    if i == 3 {
      assert ',' !in DATE_LABEL;
    } else if i == 4 {
      IntToStringChars(count);
    } else if i == 1 {
      assert ',' !in CATALOG_TITLE;
    }
  }

  /** A line that is empty or starts with neither a blank nor a digit never starts a record. */
  lemma NotStartLine(line: string)
    requires line == [] || (!IsBlank(line[0]) && !IsDigit(line[0]))
    ensures !Txt.IsRecordStart(Trim(line))
  {
    if line == [] {
      assert Trim(line) == [];
    } else {
      TrimKeepsFirst(line);
      Txt.NotDigitNotStart(Trim(line));
    }
  }

  /** The TXT reader ignores the banner, whatever the date. */
  lemma BannerIgnoredByTxt(date: string, count: nat)
    ensures Txt.Run(Txt.START, Banner(date, count)) == Some(Txt.START)
  {
    var b := Banner(date, count);
    forall i | 0 <= i < |b|
      ensures !Txt.IsRecordStart(Trim(b[i]))
    {
      if i == 3 {
        assert b[3][0] == DATE_LABEL[0];
      } else if i == 4 {
        assert b[4][0] == COUNT_LABEL[0];
      } else if i != 1 && i != 6 {
        assert b[i][0] == '=';
      }
      NotStartLine(b[i]);
    }
    Txt.IdleIgnores(Txt.START, b);
  }

  // ------------------------------------------------------------ round trips

  /** After the first line, which the reader drops anyway, the CSV reader skips the rest of the banner and the header. */
  lemma BannerAndHeaderSkipped(date: string, count: nat)
    requires ',' !in date
    ensures forall i :: 0 <= i < 7 ==> Csv.Record((Banner(date, count)[1..] + [Csv.HEADER])[i]).None?
  {
    var skipped := Banner(date, count)[1..] + [Csv.HEADER];
    forall i | 0 <= i < 7
      ensures Csv.Record(skipped[i]).None?
    {
      if i < 6 {
        BannerHasNoComma(date, count, i + 1);
        Csv.NoCommaSkipped(skipped[i]);
      } else {
        Csv.HeaderSkipped();
      }
    }
  }

  lemma DropFirst(b: seq<string>, header: string, rows: seq<string>)
    requires b != []
    ensures (b + ([header] + rows))[1..] == (b[1..] + [header]) + rows
  {
  }

  /** Loading a saved CSV file gives back every game, with quotes in its texts doubled. */
  lemma CsvSaveLoad(games: seq<Game>, includeHeader: bool, date: string)
    requires includeHeader ==> ',' !in date
    requires forall i :: 0 <= i < |games| ==> Csv.OneLineTexts(games[i])
    ensures Csv.Decode(SavedLines(games, CSV, includeHeader, date)) == Csv.ReadBack(games)
  {
    var rows := Csv.Rows(games);
    Csv.RecordsOfRows(games);
    if includeHeader {
      var b := Banner(date, |games|);
      assert SavedLines(games, CSV, includeHeader, date) == b + ([Csv.HEADER] + rows);
      DropFirst(b, Csv.HEADER, rows);
      BannerAndHeaderSkipped(date, |games|);
      Csv.SkippedPrefix(b[1..] + [Csv.HEADER], rows);
    } else {
      assert SavedLines(games, CSV, includeHeader, date) == [Csv.HEADER] + rows;
    }
  }

  /** Loading a saved TXT file gives back the catalog itself, for games whose texts the format can carry. */
  lemma TxtSaveLoad(games: seq<Game>, includeHeader: bool, date: string)
    requires forall i :: 0 <= i < |games| ==> Txt.TxtSafe(games[i])
    ensures Txt.Decode(SavedLines(games, TXT, includeHeader, date)) == Some(games)
  {
    var body := Txt.Body(games);
    Txt.DecodeBody(games);
    if includeHeader {
      BannerIgnoredByTxt(date, |games|);
      Txt.RunThen(Txt.START, Banner(date, |games|), body, Txt.START);
    } else {
      assert [] + body == body;
    }
  }

  /**
   * Saving, then loading the file saved: CSV gives back every game with its
   * quotes doubled (exactly the games when their texts have no quotes), TXT
   * gives back the catalog itself.
   */
  lemma SaveThenLoad(games: seq<Game>, fileName: string, f: Format, includeHeader: bool, date: string)
    requires f == CSV && includeHeader ==> ',' !in date
    requires f == CSV ==> forall i :: 0 <= i < |games| ==> Csv.OneLineTexts(games[i])
    requires f == TXT ==> forall i :: 0 <= i < |games| ==> Txt.TxtSafe(games[i])
    ensures LoadedGames(SaveFileName(fileName, f), SavedLines(games, f, includeHeader, date))
      == Some(if f == CSV then Csv.ReadBack(games) else games)
  {
    SavedFormatRecognised(fileName, f);
    if f == CSV {
      CsvSaveLoad(games, includeHeader, date);
    } else {
      TxtSaveLoad(games, includeHeader, date);
    }
  }

  // ------------------------------------------------------------ sample data

  /** The twenty games the window starts with, ratings in tenths. */
  const SAMPLE_GAMES: seq<Game> := [
    Game("The Witcher 3: Wild Hunt", ActionRpg, 2015, 97, "CD Projekt Red", "PC/PS4/Xbox One"),
    Game("Cyberpunk 2077", ActionRpg, 2020, 75, "CD Projekt Red", "PC/PS5/Xbox Series X"),
    Game("Elden Ring", ActionRpg, 2022, 95, "FromSoftware", "PC/PS4/PS5/Xbox"),
    Game("Dark Souls III", ActionRpg, 2016, 90, "FromSoftware", "PC/PS4/Xbox One"),
    Game("Bloodborne", ActionRpg, 2015, 94, "FromSoftware", "PS4"),
    Game("Sekiro: Shadows Die Twice", Action, 2019, 92, "FromSoftware", "PC/PS4/Xbox One"),
    Game("God of War (2018)", Action, 2018, 98, "Santa Monica Studio", "PC/PS4"),
    Game("God of War: Ragnarök", Action, 2022, 96, "Santa Monica Studio", "PS4/PS5"),
    Game("Horizon Zero Dawn", ActionRpg, 2017, 89, "Guerrilla Games", "PC/PS4"),
    Game("Horizon Forbidden West", ActionRpg, 2022, 88, "Guerrilla Games", "PS4/PS5"),
    Game("Skyrim", Rpg, 2011, 93, "Bethesda", "PC/PS3/Xbox 360"),
    Game("Fallout 4", ActionRpg, 2015, 85, "Bethesda", "PC/PS4/Xbox One"),
    Game("Mass Effect 2", Rpg, 2010, 96, "BioWare", "PC/PS3/Xbox 360"),
    Game("Dragon Age: Inquisition", Rpg, 2014, 88, "BioWare", "PC/PS4/Xbox One"),
    Game("Diablo IV", ActionRpg, 2023, 82, "Blizzard", "PC/PS5/Xbox Series X"),
    Game("Assassin's Creed Valhalla", ActionRpg, 2020, 80, "Ubisoft", "PC/PS4/PS5/Xbox"),
    Game("Nier: Automata", ActionRpg, 2017, 89, "PlatinumGames", "PC/PS4/Xbox One"),
    Game("Monster Hunter: World", ActionRpg, 2018, 88, "Capcom", "PC/PS4/Xbox One"),
    Game("Red Dead Redemption 2", Action, 2018, 97, "Rockstar Games", "PC/PS4/Xbox One"),
    Game("Borderlands 3", ActionRpg, 2019, 78, "Gearbox Software", "PC/PS4/Xbox One")
  ]

  // ------------------------------------------------------------------ store

  /** The window's list of games. */
  class CatalogStore {
    var games: seq<Game>

    /** The window starts with the sample games, added one by one in order. */
    constructor()
      ensures games == SAMPLE_GAMES
    {
      var initial: seq<Game> := [];
      for i := 0 to |SAMPLE_GAMES|
        invariant initial == SAMPLE_GAMES[..i]
      {
        initial := initial + [SAMPLE_GAMES[i]];
      }
      games := initial;
    }

    /**
     * The add dialog's save button: a blank title is refused, and a label that
     * names no genre throws before the list is touched; otherwise the new game
     * is appended. The spinner and the slider keep year and rating in range.
     */
    method Add(titleText: string, genreLabel: string, year: Int32, slider: int,
               developerText: string, platformText: string) returns (added: bool)
      requires 1970 <= year <= 2030 && 0 <= slider <= 100
      modifies this
      ensures added == FormAccepted(titleText, genreLabel)
      ensures added ==> games == old(games) + [FormGame(titleText, genreLabel, year, slider, developerText, platformText)]
      ensures !added ==> games == old(games)
    {
      if Trim(titleText) == [] {
        return false;
      }
      var genre := GenreOfLabel(genreLabel);
      if genre.None? {
        return false;
      }
      var game := Game(Trim(titleText), genre.value, year, slider, Trim(developerText), Trim(platformText));
      games := games + [game];
      added := true;
    }

    /**
     * The edit dialog: row -1 means nothing is selected, and a game that is
     * not `Editable` makes the dialog throw before it opens; otherwise, with
     * the same checks as adding, the six fields of the game in that row are
     * overwritten and every other game is left as it was.
     */
    method Edit(row: int, titleText: string, genreLabel: string, year: Int32, slider: int,
                developerText: string, platformText: string) returns (edited: bool)
      requires -1 <= row < |games|
      requires 1970 <= year <= 2030 && 0 <= slider <= 100
      modifies this
      ensures edited == (row >= 0 && Editable(old(games)[row]) && FormAccepted(titleText, genreLabel))
      ensures edited ==> games == old(games)[row := FormGame(titleText, genreLabel, year, slider, developerText, platformText)]
      ensures !edited ==> games == old(games)
    {
      if row == -1 {
        return false;
      }
      if !Editable(games[row]) {
        return false;
      }
      if Trim(titleText) == [] {
        return false;
      }
      var genre := GenreOfLabel(genreLabel);
      if genre.None? {
        return false;
      }
      var game := games[row];
      game := game.(title := Trim(titleText), genre := genre.value, year := year, rating := slider,
                    developer := Trim(developerText), platform := Trim(platformText));
      games := games[row := game];
      edited := true;
    }

    /** The delete confirmation: row -1 means nothing is selected; otherwise that one game goes. */
    method Remove(row: int) returns (removed: bool)
      requires -1 <= row < |games|
      modifies this
      ensures removed == (row >= 0)
      ensures removed ==> games == Removed(old(games), row)
      ensures !removed ==> games == old(games)
    {
      if row == -1 {
        return false;
      }
      games := games[..row] + games[row + 1..];
      removed := true;
    }

    /**
     * The load dialog: the games are read into a list of their own, which
     * replaces the catalog only when the whole file has been read. A file
     * that cannot be opened, or a TXT genre line that throws, leaves the
     * catalog as it was.
     */
    method Load(fileName: string, file: Option<seq<string>>) returns (loaded: bool)
      modifies this
      ensures loaded == (file.Some? && LoadedGames(fileName, file.value).Some?)
      ensures loaded ==> games == LoadedGames(fileName, file.value).value
      ensures !loaded ==> games == old(games)
    {
      if file.None? {
        return false;
      }
      var lines := file.value;
      var loadedGames: seq<Game>;
      if EndsWith(Lower(fileName), ".csv") {
        loadedGames := Csv.ReadCsv(lines);
      } else {
        var r := Txt.ReadTxt(lines);
        if r.None? {
          return false;
        }
        loadedGames := r.value;
      }
      games := loadedGames;
      loaded := true;
    }

    /** The save dialog: the name saved to and the lines written; the catalog is only read. */
    method Save(fileName: string, f: Format, includeHeader: bool, date: string)
      returns (savedAs: string, lines: seq<string>)
      ensures savedAs == SaveFileName(fileName, f)
      ensures lines == SavedLines(games, f, includeHeader, date)
    {
      var extension := "." + Lower(FormatName(f));
      savedAs := fileName;
      if !EndsWith(Lower(fileName), extension) {
        savedAs := fileName + extension;
      }
      var banner: seq<string> := [];
      if includeHeader {
        banner := Banner(date, |games|);
      }
      var data;
      if f == CSV {
        data := Csv.WriteCsv(games);
      } else {
        data := Txt.WriteTxt(games);
      }
      lines := banner + data;
    }
  }
}
