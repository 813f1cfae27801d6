/**
 * A catalog entry (`Game`) and its genre, with the three spellings a genre
 * has in the application: the enum constant's name (`toString`), the form
 * written to files and shown in tables (`_` replaced by `/`), and the label
 * offered by the genre combo boxes.
 */
module Games {
  import opened Wrappers
  import opened JavaText
  import opened Numbers

  /** `Game.Genre`, in declaration order. */
  datatype Genre = Action | Rpg | ActionRpg

  /** `Genre.values()`: every constant, in declaration order. */
  const ALL_GENRES: seq<Genre> := [Action, Rpg, ActionRpg]

  lemma AllGenresListsEachOnce(g: Genre)
    ensures g in ALL_GENRES
    ensures forall i, j :: 0 <= i < j < |ALL_GENRES| ==> ALL_GENRES[i] != ALL_GENRES[j]
  {
  }

  /** `genre.toString()`: the enum does not override it, so it is the constant's name. */
  function GenreName(g: Genre): string {
    match g
    case Action => "ACTION"
    case Rpg => "RPG"
    case ActionRpg => "ACTION_RPG"
  }

  /** `Genre.valueOf(name)`: exact match on a constant's name, else `IllegalArgumentException`. */
  function GenreValueOf(name: string): (r: Option<Genre>)
    ensures r.Some? ==> GenreName(r.value) == name
    ensures r.None? <==> forall g :: GenreName(g) != name
  {
    if name == "ACTION" then Some(Action)
    else if name == "RPG" then Some(Rpg)
    else if name == "ACTION_RPG" then Some(ActionRpg)
    else None
  }

  /** `genre.toString().replace("_", "/")`: how a genre is written to files and tables. */
  function WireName(g: Genre): (r: string)
    ensures r == Replace(GenreName(g), '_', '/')
  {
    match g
    case Action => "ACTION"
    case Rpg => "RPG"
    case ActionRpg => "ACTION/RPG"
  }

  /** The entries of the genre combo boxes of the add, edit and filter forms. */
  function GenreLabel(g: Genre): string {
    match g
    case Action => "Action"
    case Rpg => "RPG"
    case ActionRpg => "Action/RPG"
  }

  /** A string with no lower-case letter is its own upper-case form. */
  lemma UpperOfUpper(s: string)
    requires forall i :: 0 <= i < |s| ==> UpperChar(s[i]) == s[i]
    ensures Upper(s) == s
  {
  }

  /** How the loaders read a genre back: `s.toUpperCase().replace("/", "_")`, then `valueOf`. */
  function GenreFromWire(s: string): Option<Genre> {
    GenreValueOf(Replace(Upper(s), '/', '_'))
  }

  /** Every genre written by the savers is read back as the same genre. */
  lemma GenreFromWireName(g: Genre)
    ensures GenreFromWire(WireName(g)) == Some(g)
  {
    var w := WireName(g);
    UpperOfUpper(w);
    assert Replace(w, '/', '_') == GenreName(g);
  }

  /**
   * How the add and edit dialogs turn a combo label into a genre:
   * `text.replace("/", "_").toUpperCase()`, then `valueOf`.
   */
  function GenreOfLabel(text: string): Option<Genre> {
    GenreValueOf(Upper(Replace(text, '/', '_')))
  }

  /** Each combo label names exactly its own genre. */
  lemma GenreOfLabelInverse(g: Genre)
    ensures GenreOfLabel(GenreLabel(g)) == Some(g)
  {
    var u := Upper(Replace(GenreLabel(g), '/', '_'));
    assert u == GenreName(g);
  }

  /**
   * `Game`: five editable fields plus the release year. The rating is kept in
   * whole tenths (`slider / 10.0` everywhere in the application).
   */
  datatype Game = Game(
    title: string,
    genre: Genre,
    year: Int32,
    rating: int,
    developer: string,
    platform: string)
}
