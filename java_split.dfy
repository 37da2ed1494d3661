/** `String.split` as the filter codec uses it. Only two concrete patterns
    occur: a single literal character (`"="`, and `"|"` read as the character
    the documentation means), and the regular expression `"|"`, an empty
    alternation that matches the empty string at every position. */
module JavaSplit {

  /** Every run of characters between occurrences of `c`, empty runs included;
      there is always at least one piece. */
  function Pieces(s: string, c: char): (r: seq<string>)
    ensures |r| >= 1
    ensures forall i :: 0 <= i < |r| ==> c !in r[i]
    decreases |s|
  {
    if s == [] then [""]
    else
      var rest := Pieces(s[1..], c);
      if s[0] == c then [""] + rest else [[s[0]] + rest[0]] + rest[1..]
  }

  /** The inverse of `Pieces`: the pieces put back together around `c`. */
  function Join(ps: seq<string>, c: char): string
    requires |ps| >= 1
    decreases |ps|
  {
    if |ps| == 1 then ps[0] else ps[0] + [c] + Join(ps[1..], c)
  }

  /** Cutting at `c` and joining at `c` gives back the input. */
  lemma {:induction false} JoinPieces(s: string, c: char)
    ensures Join(Pieces(s, c), c) == s
    decreases |s|
  {
    if s != [] {
      var rest := Pieces(s[1..], c);
      JoinPieces(s[1..], c);
      if s[0] == c {
        assert s == [c] + s[1..];
      } else if |rest| == 1 {
        assert s == [s[0]] + s[1..];
      } else {
        assert s == [s[0]] + s[1..];
        assert Join(rest, c) == rest[0] + [c] + Join(rest[1..], c);
      }
    }
  }

  /** Every character of every piece comes from the input. */
  lemma {:induction false} PiecesCharsFromInput(s: string, c: char, i: nat, ch: char)
    requires i < |Pieces(s, c)| && ch in Pieces(s, c)[i]
    ensures ch in s
    decreases |s|
  {
    if s != [] {
      var rest := Pieces(s[1..], c);
      if s[0] == c {
        if i > 0 {
          PiecesCharsFromInput(s[1..], c, i - 1, ch);
        }
      } else if i == 0 {
        if ch != s[0] {
          assert ch in rest[0];
          PiecesCharsFromInput(s[1..], c, 0, ch);
        }
      } else {
        PiecesCharsFromInput(s[1..], c, i, ch);
      }
    }
  }

  /** A string without the separator is one piece. */
  lemma {:induction false} PiecesWithoutSeparator(s: string, c: char)
    requires c !in s
    ensures Pieces(s, c) == [s]
    decreases |s|
  {
    if s != [] {
      PiecesWithoutSeparator(s[1..], c);
      assert s == [s[0]] + s[1..];
    }
  }

  /** Cutting `a`, a separator, then `b` gives the pieces of `a` followed by
      the pieces of `b`. */
  lemma {:induction false} PiecesAroundSeparator(a: string, b: string, c: char)
    ensures Pieces(a + [c] + b, c) == Pieces(a, c) + Pieces(b, c)
    decreases |a|
  {
    var s := a + [c] + b;
    if a == [] {
      assert s[1..] == b;
    } else {
      assert s[1..] == a[1..] + [c] + b;
      PiecesAroundSeparator(a[1..], b, c);
    }
  }

  /** Drops the empty strings at the end of a list of pieces. */
  function StripTrailingEmpty(ps: seq<string>): (r: seq<string>)
    ensures |r| <= |ps| && r == ps[..|r|]
    ensures r != [] ==> r[|r| - 1] != ""
    ensures forall i :: |r| <= i < |ps| ==> ps[i] == ""
    decreases |ps|
  {
    if ps != [] && ps[|ps| - 1] == "" then StripTrailingEmpty(ps[..|ps| - 1]) else ps
  }

  /** `s.split(c)` for a pattern that is the single literal character `c`:
      the input itself when `c` does not occur, otherwise the pieces with
      trailing empty strings removed. */
  function Split(s: string, c: char): (r: seq<string>)
    ensures forall i :: 0 <= i < |r| ==> c !in r[i]
  {
    if c !in s then [s] else StripTrailingEmpty(Pieces(s, c))
  }

  /** Every character of every element of `Split(s, c)` comes from `s`. */
  lemma SplitCharsFromInput(s: string, c: char, i: nat, ch: char)
    requires i < |Split(s, c)| && ch in Split(s, c)[i]
    ensures ch in s
  {
    if c in s {
      PiecesCharsFromInput(s, c, i, ch);
    }
  }

  /** When the last piece is not empty, `Split` keeps every piece. */
  lemma SplitKeepsNonEmptyEnd(s: string, c: char)
    requires Pieces(s, c)[|Pieces(s, c)| - 1] != ""
    ensures Split(s, c) == Pieces(s, c)
  {
    if c !in s {
      PiecesWithoutSeparator(s, c);
    }
  }

  /** The strings in `ps`, one after the other. */
  function Concat(ps: seq<string>): string
    decreases |ps|
  {
    if ps == [] then "" else ps[0] + Concat(ps[1..])
  }

  /** `s.split("|")` on JDK 8 or later: the regular expression `|` matches
      the empty string at every position, and a zero-width match at the start
      yields no leading empty string, so a non-empty input comes back one
      character per part and the empty input comes back as one empty part. */
  function SplitEmptyAlternation(s: string): (r: seq<string>)
    ensures |r| == if s == [] then 1 else |s|
    ensures forall i :: 0 <= i < |r| ==> |r[i]| <= 1
    ensures Concat(r) == s
    decreases |s|
  {
    if |s| <= 1 then [s] else [s[..1]] + SplitEmptyAlternation(s[1..])
  }
}
