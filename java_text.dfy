/**
 * The few `java.lang.String` operations the catalog core relies on, written
 * out over `seq<char>`: `trim`, `startsWith`, `endsWith`, `contains`,
 * `indexOf`, `replace` of one character, and case mapping.
 */
module JavaText {

  /** `String.trim` removes every character whose code is at most U+0020. */
  predicate IsBlank(c: char) { c <= ' ' }

  /** No blank at either end: what `trim` leaves behind. */
  predicate IsTrimmed(s: string) {
    s == [] || (!IsBlank(s[0]) && !IsBlank(s[|s| - 1]))
  }

  /** Drops the blanks in front. */
  function TrimLeft(s: string): (r: string)
    ensures r == [] || !IsBlank(r[0])
    decreases |s|
  {
    if s != [] && IsBlank(s[0]) then TrimLeft(s[1..]) else s
  }

  /** Drops the blanks at the end. */
  function TrimRight(s: string): (r: string)
    ensures |r| <= |s| && r == s[..|r|]
    ensures r == [] || !IsBlank(r[|r| - 1])
    ensures forall i :: |r| <= i < |s| ==> IsBlank(s[i])
    decreases |s|
  {
    if s != [] && IsBlank(s[|s| - 1]) then TrimRight(s[..|s| - 1]) else s
  }

  /** `String.trim`. */
  function Trim(s: string): (r: string)
    ensures IsTrimmed(r)
  {
    var l := TrimLeft(s);
    var r := TrimRight(l);
    assert r == [] || r[0] == l[0];
    r
  }

  lemma TrimOfTrimmed(s: string)
    requires IsTrimmed(s)
    ensures Trim(s) == s
  {
  }

  lemma {:induction false} TrimLeftIn(s: string, c: char)
    requires c in TrimLeft(s)
    ensures c in s
    decreases |s|
  {
    if s != [] && IsBlank(s[0]) {
      TrimLeftIn(s[1..], c);
    }
  }

  /** `trim` only removes characters: every character it leaves was there. */
  lemma TrimIn(s: string, c: char)
    requires c in Trim(s)
    ensures c in s
  {
    var l := TrimLeft(s);
    var r := TrimRight(l);
    assert r == l[..|r|];
    TrimLeftIn(s, c);
  }

  /** All characters of `b` are blank. */
  predicate AllBlank(b: string) {
    forall i :: 0 <= i < |b| ==> IsBlank(b[i])
  }

  lemma TrimLeftCons(c: char, t: string)
    requires IsBlank(c)
    ensures TrimLeft([c] + t) == TrimLeft(t)
  {
    assert ([c] + t)[1..] == t;
  }

  /** Blanks in front of a string do not survive `trim`. */
  lemma {:induction false} TrimLeftBlanks(b: string, s: string)
    requires AllBlank(b)
    ensures TrimLeft(b + s) == TrimLeft(s)
    decreases |b|
  {
    if b == [] {
      assert b + s == s;
    } else {
      assert AllBlank(b[1..]) by {
        forall i | 0 <= i < |b| - 1
          ensures IsBlank(b[1..][i])
        {
          assert b[1..][i] == b[i + 1];
        }
      }
      TrimLeftBlanks(b[1..], s);
      TrimLeftCons(b[0], b[1..] + s);
      assert b + s == [b[0]] + (b[1..] + s);
    }
  }

  lemma TrimRightSnoc(t: string, c: char)
    requires IsBlank(c)
    ensures TrimRight(t + [c]) == TrimRight(t)
  {
    assert (t + [c])[..|t|] == t;
  }

  /** Blanks after a string do not survive `trim`. */
  lemma {:induction false} TrimRightBlanks(s: string, b: string)
    requires AllBlank(b)
    ensures TrimRight(s + b) == TrimRight(s)
    decreases |b|
  {
    if b == [] {
      assert s + b == s;
    } else {
      var init := b[..|b| - 1];
      assert AllBlank(init) by {
        forall i | 0 <= i < |init|
          ensures IsBlank(init[i])
        {
          assert init[i] == b[i];
        }
      }
      TrimRightBlanks(s, init);
      TrimRightSnoc(s + init, b[|b| - 1]);
      assert s + b == (s + init) + [b[|b| - 1]];
    }
  }

  /** `trim` gives back exactly the trimmed text between two runs of blanks. */
  lemma TrimBetweenBlanks(b1: string, m: string, b2: string)
    requires AllBlank(b1) && AllBlank(b2) && IsTrimmed(m)
    ensures Trim(b1 + m + b2) == m
  {
    var s := b1 + m + b2;
    assert s == b1 + (m + b2);
    TrimLeftBlanks(b1, m + b2);
    if m == [] {
      assert m + b2 == b2 + [];
      TrimLeftBlanks(b2, []);
      assert TrimLeft(s) == [];
    } else {
      assert TrimLeft(m + b2) == m + b2 by {
        assert (m + b2)[0] == m[0];
      }
      TrimRightBlanks(m, b2);
      assert TrimRight(m) == m;
      assert TrimRight(TrimLeft(s)) == m;
    }
  }

  /** A string that starts with a non-blank keeps its first character under `trim`. */
  lemma TrimKeepsFirst(s: string)
    requires s != [] && !IsBlank(s[0])
    ensures Trim(s) != [] && Trim(s)[0] == s[0]
  {
    assert TrimLeft(s) == s;
  }

  /** `s.startsWith(p)`. */
  predicate StartsWith(s: string, p: string) {
    |p| <= |s| && s[..|p|] == p
  }

  /** `s.endsWith(p)`. */
  predicate EndsWith(s: string, p: string) {
    |p| <= |s| && s[|s| - |p|..] == p
  }

  /** `needle` occurs in `hay` at position `i`. */
  predicate OccursAt(hay: string, needle: string, i: int) {
    0 <= i && i + |needle| <= |hay| && hay[i..i + |needle|] == needle
  }

  /** `hay.contains(needle)`. */
  predicate Contains(hay: string, needle: string) {
    exists i | 0 <= i <= |hay| :: OccursAt(hay, needle, i)
  }

  /** `s.indexOf(c)`: the first position of `c`, or -1. */
  function IndexOf(s: string, c: char): (r: int)
    ensures -1 <= r < |s|
    ensures r == -1 <==> c !in s
    ensures r >= 0 ==> s[r] == c && c !in s[..r]
  {
    if s == [] then -1
    else if s[0] == c then 0
    else
      var k := IndexOf(s[1..], c);
      assert s[1..][..if k < 0 then 0 else k] == s[1..1 + if k < 0 then 0 else k];
      if k < 0 then -1 else k + 1
  }

  /** The text before the first `c`, the whole string when there is none. */
  function TakeBefore(s: string, c: char): (r: string)
    ensures c !in r
    ensures |r| <= |s| && r == s[..|r|]
    ensures |r| < |s| ==> s[|r|] == c
  {
    var k := IndexOf(s, c);
    if k < 0 then s else s[..k]
  }

  /**
   * `s` fits on one line of a text file: `BufferedReader.readLine` ends a
   * line at `\n` and at `\r`, so no line it returns holds either.
   */
  predicate OneLine(s: string) {
    '\n' !in s && '\r' !in s
  }

  /** `s.replace(from, to)` for one-character targets. */
  function Replace(s: string, from: char, to: char): (r: string)
    ensures |r| == |s|
    ensures forall i :: 0 <= i < |s| ==> r[i] == if s[i] == from then to else s[i]
  {
    seq(|s|, i requires 0 <= i < |s| => if s[i] == from then to else s[i])
  }

  /**
   * `Character.toLowerCase` on the letters the catalog meets: Latin A-Z and
   * the Russian alphabet (U+0410..U+042F and U+0401).
   */
  function LowerChar(c: char): char {
    if 'A' <= c <= 'Z' || 'А' <= c <= 'Я' then (c as int + 32) as char
    else if c == 'Ё' then 'ё'
    else c
  }

  /** `Character.toUpperCase` on the same alphabet. */
  function UpperChar(c: char): char {
    if 'a' <= c <= 'z' || 'а' <= c <= 'я' then (c as int - 32) as char
    else if c == 'ё' then 'Ё'
    else c
  }

  /** `String.repeat` of a one-character string. */
  function Repeat(c: char, n: nat): (r: string)
    ensures |r| == n
    ensures forall i :: 0 <= i < n ==> r[i] == c
  {
    if n == 0 then [] else Repeat(c, n - 1) + [c]
  }

  /** `String.toLowerCase`. */
  function Lower(s: string): (r: string)
    ensures |r| == |s|
    ensures forall i :: 0 <= i < |s| ==> r[i] == LowerChar(s[i])
  {
    seq(|s|, i requires 0 <= i < |s| => LowerChar(s[i]))
  }

  /** `String.toUpperCase`. */
  function Upper(s: string): (r: string)
    ensures |r| == |s|
    ensures forall i :: 0 <= i < |s| ==> r[i] == UpperChar(s[i])
  {
    seq(|s|, i requires 0 <= i < |s| => UpperChar(s[i]))
  }

  lemma LowerAppend(a: string, b: string)
    ensures Lower(a + b) == Lower(a) + Lower(b)
  {
  }

  /** Replacing `from` by a character the text lacks, and back, restores the text. */
  lemma ReplaceRoundTrip(s: string, from: char, to: char)
    requires to !in s
    ensures Replace(Replace(s, from, to), to, from) == s
  {
    var r := Replace(s, from, to);
    forall i | 0 <= i < |s|
      ensures Replace(r, to, from)[i] == s[i]
    {
      assert s[i] != to;
    }
  }

  /** Lowering is idempotent: no character `toLowerCase` yields is lowered again. */
  lemma LowerIdempotent(s: string)
    ensures Lower(Lower(s)) == Lower(s)
  {
  }
}
