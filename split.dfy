/**
 * Splitting a command line into tokens, as `strtok(input, " ")` does in
 * linux-shell/shell.c (lines 175, 185, 190, 196, 201): the only delimiter is
 * the space character, runs of spaces are collapsed, leading and trailing
 * spaces are skipped, and no token is ever empty.  Other white space (a tab,
 * say) is an ordinary character of a token.
 */
module Split {

  const SPACE: char := ' '

  /** What strtok can hand back: a non-empty string without a delimiter. */
  predicate IsToken(t: string)
  {
    t != [] && SPACE !in t
  }

  /** The characters of `s` that are not spaces, in their original order. */
  function NonSpaces(s: string): (r: string)
    ensures SPACE !in r
  {
    if s == [] then []
    else if s[0] == SPACE then NonSpaces(s[1..])
    else [s[0]] + NonSpaces(s[1..])
  }

  /** Concatenation of a sequence of strings. */
  function Concat(ts: seq<string>): string
  {
    if ts == [] then [] else ts[0] + Concat(ts[1..])
  }

  /** The tokens written out again, one space between neighbours. */
  function Join(ts: seq<string>): string
  {
    if ts == [] then []
    else if |ts| == 1 then ts[0]
    else ts[0] + [SPACE] + Join(ts[1..])
  }

  /** A string of `n` spaces. */
  function Spaces(n: nat): (r: string)
    ensures |r| == n && forall i :: 0 <= i < n ==> r[i] == SPACE
  {
    if n == 0 then [] else [SPACE] + Spaces(n - 1)
  }

  /** The text up to (not including) the next space: one strtok token when `s` does not start with a space. */
  function Word(s: string): (w: string)
    ensures |w| <= |s| && w == s[..|w|]
    ensures SPACE !in w
    ensures |w| < |s| ==> s[|w|] == SPACE
    ensures s != [] && s[0] != SPACE ==> w != []
  {
    if s == [] || s[0] == SPACE then [] else [s[0]] + Word(s[1..])
  }

  /** The sequence of tokens successive strtok calls return for `s`. */
  function Tokens(s: string): (ts: seq<string>)
    decreases |s|
    ensures forall i :: 0 <= i < |ts| ==> IsToken(ts[i])
    ensures |ts| <= |s|
  {
    if s == [] then []
    else if s[0] == SPACE then Tokens(s[1..])
    else
      var w := Word(s);
      [w] + Tokens(s[|w|..])
  }

  /** Cutting at a space ends the word: the word of `a + " " + b` is the word of `a`. */
  lemma {:induction false} WordStopsAtSpace(a: string, b: string)
    ensures Word(a + [SPACE] + b) == Word(a)
  {
    if a != [] && a[0] != SPACE {
      assert (a + [SPACE] + b)[1..] == a[1..] + [SPACE] + b;
      WordStopsAtSpace(a[1..], b);
    }
  }

  /** Splitting at a space: the tokens of `a + " " + b` are those of `a` followed by those of `b`. */
  lemma {:induction false} TokensSplitAtSpace(a: string, b: string)
    ensures Tokens(a + [SPACE] + b) == Tokens(a) + Tokens(b)
    decreases |a|
  {
    var s := a + [SPACE] + b;
    if a == [] {
      assert s[1..] == b;
    } else if a[0] == SPACE {
      assert s[1..] == a[1..] + [SPACE] + b;
      TokensSplitAtSpace(a[1..], b);
    } else {
      WordStopsAtSpace(a, b);
      var w := Word(a);
      assert s[|w|..] == a[|w|..] + [SPACE] + b;
      TokensSplitAtSpace(a[|w|..], b);
    }
  }

  /** A single token is split into itself. */
  lemma {:induction false} TokensOfToken(t: string)
    requires IsToken(t)
    ensures Tokens(t) == [t]
  {
    WordOfSpaceless(t);
  }

  lemma {:induction false} WordOfSpaceless(t: string)
    requires SPACE !in t
    ensures Word(t) == t
  {
    if t != [] {
      WordOfSpaceless(t[1..]);
    }
  }

  /** A line of spaces only (or an empty line) has no tokens. */
  lemma {:induction false} TokensOfSpaces(n: nat)
    ensures Tokens(Spaces(n)) == []
  {
    if n > 0 {
      assert Spaces(n)[1..] == Spaces(n - 1);
      TokensOfSpaces(n - 1);
    }
  }

  /** Runs of spaces collapse: extra spaces anywhere between tokens change nothing. */
  lemma {:induction false} SpacesCollapse(a: string, n: nat, b: string)
    ensures Tokens(a + Spaces(n + 1) + b) == Tokens(a) + Tokens(b)
    decreases n
  {
    assert a + Spaces(n + 1) + b == a + [SPACE] + (Spaces(n) + b);
    TokensSplitAtSpace(a, Spaces(n) + b);
    if n == 0 {
      assert Spaces(n) + b == b;
    } else {
      assert Spaces(n) + b == [] + Spaces(n - 1 + 1) + b;
      SpacesCollapse([], n - 1, b);
    }
  }

  /** Round trip: tokens joined by single spaces split back into the same tokens. */
  lemma {:induction false} TokensOfJoin(ts: seq<string>)
    requires forall i :: 0 <= i < |ts| ==> IsToken(ts[i])
    ensures Tokens(Join(ts)) == ts
  {
    if |ts| == 1 {
      TokensOfToken(ts[0]);
    } else if |ts| > 1 {
      TokensSplitAtSpace(ts[0], Join(ts[1..]));
      TokensOfToken(ts[0]);
      TokensOfJoin(ts[1..]);
    }
  }

  lemma {:induction false} NonSpacesWord(s: string)
    ensures NonSpaces(s) == Word(s) + NonSpaces(s[|Word(s)|..])
  {
    if s != [] && s[0] != SPACE {
      NonSpacesWord(s[1..]);
      assert s[|Word(s)|..] == s[1..][|Word(s[1..])|..];
    }
  }

  /** Nothing but spaces is lost, and the order of the characters is kept. */
  lemma {:induction false} TokensKeepCharacters(s: string)
    ensures Concat(Tokens(s)) == NonSpaces(s)
    decreases |s|
  {
    if s != [] {
      if s[0] == SPACE {
        TokensKeepCharacters(s[1..]);
      } else {
        var w := Word(s);
        TokensKeepCharacters(s[|w|..]);
        NonSpacesWord(s);
        assert ([w] + Tokens(s[|w|..]))[1..] == Tokens(s[|w|..]);
      }
    }
  }
}
