/** The C string operations the chat programs rely on, on strings without a NUL. */
module CText {

  function Digit(d: nat): char
    requires d < 10
  {
    ['0', '1', '2', '3', '4', '5', '6', '7', '8', '9'][d]
  }

  /** printf("%d") of a non-negative number. */
  function Decimal(n: nat): (s: string)
    ensures |s| > 0
    ensures forall i :: 0 <= i < |s| ==> '0' <= s[i] <= '9'
  {
    if n < 10 then [Digit(n)] else Decimal(n / 10) + [Digit(n % 10)]
  }

  lemma {:induction false} DecimalInjective(a: nat, b: nat)
    requires Decimal(a) == Decimal(b)
    ensures a == b
  {
    var s, t := Decimal(a), Decimal(b);
    assert s[|s| - 1] == Digit(a % 10);
    assert t[|t| - 1] == Digit(b % 10);
    assert a % 10 == b % 10;
    if a >= 10 && b >= 10 {
      assert Decimal(a / 10) == s[..|s| - 1] == t[..|t| - 1] == Decimal(b / 10);
      DecimalInjective(a / 10, b / 10);
    }
  }

  /** At most the first n characters, as strncpy and snprintf keep them. */
  function Cut(s: string, n: nat): string {
    if |s| <= n then s else s[..n]
  }

  predicate FoundAt(s: string, pat: string, i: int) {
    0 <= i <= |s| - |pat| && s[i..i + |pat|] == pat
  }

  /** strstr(s, pat) != NULL */
  predicate Contains(s: string, pat: string) {
    exists i :: 0 <= i <= |s| && FoundAt(s, pat, i)
  }

  lemma ContainsMiddle(a: string, pat: string, b: string)
    ensures Contains(a + pat + b, pat)
  {
    assert FoundAt(a + pat + b, pat, |a|);
  }

  lemma ContainsNeedsLetters(s: string, pat: string, k: nat)
    requires k < |pat| && pat[k] !in s
    ensures !Contains(s, pat)
  {
    forall i | 0 <= i <= |s| - |pat| ensures !FoundAt(s, pat, i) {
      assert s[i..i + |pat|][k] == s[i + k];
    }
  }

  predicate IsSpace(c: char) {
    c == ' ' || c == '\n' || c == '\t'
  }

  /** sscanf(s, "%s"): the first run of non-blanks. */
  function FirstWord(s: string): string {
    if s == [] then []
    else if IsSpace(s[0]) then FirstWord(s[1..])
    else LeadingWord(s)
  }

  function LeadingWord(s: string): string {
    if s == [] || IsSpace(s[0]) then [] else [s[0]] + LeadingWord(s[1..])
  }

  lemma {:induction false} LeadingWordIs(w: string, rest: string)
    requires forall i :: 0 <= i < |w| ==> !IsSpace(w[i])
    requires rest != [] && IsSpace(rest[0])
    ensures LeadingWord(w + rest) == w
  {
    if w == [] {
      assert w + rest == rest;
    } else {
      assert (w + rest)[1..] == w[1..] + rest;
      LeadingWordIs(w[1..], rest);
    }
  }

  lemma FirstWordIs(w: string, rest: string)
    requires w != [] && forall i :: 0 <= i < |w| ==> !IsSpace(w[i])
    requires rest != [] && IsSpace(rest[0])
    ensures FirstWord(w + rest) == w
  {
    LeadingWordIs(w, rest);
  }
}
