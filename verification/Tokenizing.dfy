/** What strtok yields: the maximal runs of characters that are not delimiters. */
module Tokenizing {

  /** The first position from p on that is not a delimiter. */
  function Skip(s: string, p: nat, d: string): (q: nat)
    requires p <= |s|
    ensures p <= q <= |s|
    ensures q < |s| ==> s[q] !in d
    decreases |s| - p
  {
    if p < |s| && s[p] in d then Skip(s, p + 1, d) else p
  }

  /** The first position from p on that is a delimiter. */
  function EndOf(s: string, p: nat, d: string): (q: nat)
    requires p <= |s|
    ensures p <= q <= |s|
    ensures q < |s| ==> s[q] in d
    decreases |s| - p
  {
    if p < |s| && s[p] !in d then EndOf(s, p + 1, d) else p
  }

  /** The tokens of the buffer from position p on.  The delimiter that ends a token is
      overwritten, so the next search starts behind it. */
  function TokensFrom(s: string, p: nat, d: string): seq<string>
    requires p <= |s|
    decreases |s| - p
  {
    var a := Skip(s, p, d);
    if a == |s| then []
    else
      var b := EndOf(s, a, d);
      [s[a..b]] + TokensFrom(s, if b < |s| then b + 1 else b, d)
  }

  function Tokens(s: string, d: string): seq<string> {
    TokensFrom(s, 0, d)
  }

  /** Where the search goes on after a token that ends at b. */
  function Resume(s: string, b: nat): (c: nat)
    requires b <= |s|
    ensures b <= c <= |s| && (b < |s| ==> b < c)
  {
    if b < |s| then b + 1 else b
  }

  lemma OneToken(s: string, p: nat, d: string)
    requires p <= |s| && Skip(s, p, d) < |s|
    ensures var a := Skip(s, p, d); var b := EndOf(s, a, d);
            a < b && TokensFrom(s, p, d) == [s[a..b]] + TokensFrom(s, Resume(s, b), d)
  {
  }

  // ---------- text in front does not matter ----------

  /** From position k on, t reads like s. */
  ghost predicate TailIs(t: string, k: nat, s: string) {
    |t| == k + |s| && forall i :: 0 <= i < |s| ==> t[k + i] == s[i]
  }

  lemma {:induction false} ShiftSkip(t: string, k: nat, s: string, p: nat, d: string)
    requires TailIs(t, k, s) && p <= |s|
    ensures Skip(t, k + p, d) == k + Skip(s, p, d)
    decreases |s| - p
  {
    if p < |s| && s[p] in d {
      ShiftSkip(t, k, s, p + 1, d);
    }
  }

  lemma {:induction false} ShiftEnd(t: string, k: nat, s: string, p: nat, d: string)
    requires TailIs(t, k, s) && p <= |s|
    ensures EndOf(t, k + p, d) == k + EndOf(s, p, d)
    decreases |s| - p
  {
    if p < |s| && s[p] !in d {
      ShiftEnd(t, k, s, p + 1, d);
    }
  }

  lemma {:induction false} ShiftTokens(t: string, k: nat, s: string, p: nat, d: string)
    requires TailIs(t, k, s) && p <= |s|
    ensures TokensFrom(t, k + p, d) == TokensFrom(s, p, d)
    decreases |s| - p
  {
    ShiftSkip(t, k, s, p, d);
    var a := Skip(s, p, d);
    if a < |s| {
      ShiftEnd(t, k, s, a, d);
      var b := EndOf(s, a, d);
      OneToken(s, p, d);
      OneToken(t, k + p, d);
      assert t[k + a..k + b] == s[a..b];
      ShiftTokens(t, k, s, Resume(s, b), d);
    }
  }

  // ---------- tokens of joined text ----------

  /** A token or a word that contains no delimiter. */
  ghost predicate Solid(w: string, d: string) {
    w != [] && forall i :: 0 <= i < |w| ==> w[i] !in d
  }

  lemma {:induction false} EndOfSolid(w: string, rest: string, p: nat, d: string)
    requires p <= |w| && (forall i :: 0 <= i < |w| ==> w[i] !in d)
    requires rest == [] || rest[0] in d
    ensures EndOf(w + rest, p, d) == |w|
    decreases |w| - p
  {
    if p < |w| {
      assert (w + rest)[p] == w[p];
      EndOfSolid(w, rest, p + 1, d);
    } else if rest != [] {
      assert (w + rest)[p] == rest[0];
    }
  }

  lemma {:induction false} UpToEnd(s: string, p: nat, d: string)
    requires p <= |s|
    ensures forall i :: p <= i < EndOf(s, p, d) ==> s[i] !in d
    decreases |s| - p
  {
    if p < |s| && s[p] !in d {
      UpToEnd(s, p + 1, d);
    }
  }

  /** No token is empty or contains a delimiter. */
  lemma {:induction false} TokensAreSolid(s: string, p: nat, d: string)
    requires p <= |s|
    ensures forall k :: 0 <= k < |TokensFrom(s, p, d)| ==> Solid(TokensFrom(s, p, d)[k], d)
    decreases |s| - p
  {
    var a := Skip(s, p, d);
    if a < |s| {
      var b := EndOf(s, a, d);
      OneToken(s, p, d);
      UpToEnd(s, a, d);
      TokensAreSolid(s, Resume(s, b), d);
    }
  }

  /** A delimiter in front of everything is skipped. */
  lemma DelimiterSkipped(s: string, d: string)
    requires s != [] && s[0] in d
    ensures Tokens(s, d) == Tokens(s[1..], d) == TokensFrom(s, 1, d)
  {
    ShiftTokens(s, 1, s[1..], 0, d);
    assert Skip(s, 0, d) == Skip(s, 1, d);
  }

  /** The search for the first token stops at once, and the token ends with the word. */
  lemma SolidCut(w: string, rest: string, d: string)
    requires Solid(w, d) && (rest == [] || rest[0] in d)
    ensures Skip(w + rest, 0, d) == 0 < |w + rest| && EndOf(w + rest, 0, d) == |w|
    ensures (w + rest)[0..|w|] == w
  {
    EndOfSolid(w, rest, 0, d);
    assert (w + rest)[0] == w[0];
  }

  /** A solid word at the front comes out first; what follows is tokenized on its own. */
  lemma SolidFirst(w: string, rest: string, d: string)
    requires Solid(w, d) && (rest == [] || rest[0] in d)
    ensures Tokens(w + rest, d) == [w] + Tokens(rest, d)
  {
    SolidCut(w, rest, d);
    OneToken(w + rest, 0, d);
    if rest == [] {
      NoTokens(d);
    } else {
      AfterSolid(w, rest, d);
    }
  }

  lemma AfterSolid(w: string, rest: string, d: string)
    requires rest != [] && rest[0] in d
    ensures TokensFrom(w + rest, |w| + 1, d) == Tokens(rest, d)
  {
    DelimiterSkipped(rest, d);
    ShiftTokens(w + rest, |w|, rest, 1, d);
  }

  lemma NoTokens(d: string)
    ensures Tokens("", d) == []
  {
  }
}
