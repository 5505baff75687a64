/** The IPv4 header checksum of the raw-socket client: a plain 32-bit sum of the ten header
    words, two folds and a complement.  Section 3.1 of RFC 791 asks for the ones' complement
    of the ones' complement sum; section 2 of RFC 1071 lists what that sum is good for. */
module Checksum {
  import opened Basics

  const WORDS := 10
  const CHECK := 5
  const ONES := 0xFFFF

  type Word = x: int | 0 <= x < 0x1_0000

  // ---------- what the program computes ----------

  function Sum(ws: seq<Word>): nat {
    if ws == [] then 0 else Sum(ws[..|ws| - 1]) + ws[|ws| - 1]
  }

  function Fold(s: nat): nat {
    s % 0x1_0000 + s / 0x1_0000
  }

  type Header = ws: seq<Word> | |ws| == WORDS witness [0, 0, 0, 0, 0, 0, 0, 0, 0, 0]

  lemma {:induction false} SumBound(ws: seq<Word>)
    ensures Sum(ws) <= |ws| * ONES
    ensures Sum(ws) == 0 <==> forall i :: 0 <= i < |ws| ==> ws[i] == 0
  {
    if ws != [] {
      SumBound(ws[..|ws| - 1]);
    }
  }

  /** How many times the two folds take 0xFFFF off the sum. */
  function Carries(s: nat): nat {
    s / 0x1_0000 + Fold(s) / 0x1_0000
  }

  lemma FoldTakesOff(s: nat)
    ensures Fold(s) == s - ONES * (s / 0x1_0000)
  {
    assert s == 0x1_0000 * (s / 0x1_0000) + s % 0x1_0000;
  }

  /** Two folds bring ten words down to one, and change the sum by multiples of 0xFFFF. */
  lemma TwoFolds(s: nat)
    requires s <= WORDS * ONES
    ensures Fold(Fold(s)) <= ONES
    ensures Fold(Fold(s)) == s - ONES * Carries(s)
    ensures Fold(Fold(s)) == 0 <==> s == 0
  {
    FoldTakesOff(s);
    FoldTakesOff(Fold(s));
    assert Fold(s) <= ONES + WORDS;
    assert s / 0x1_0000 <= WORDS;
  }

  /** Numbers of 16 bits that differ by a multiple of 0xFFFF are equal, but for the two zeros. */
  lemma SameResidue(a: nat, b: nat, k: int)
    requires a <= ONES && b <= ONES && a - b == ONES * k && (a == 0 <==> b == 0)
    ensures a == b
  {
  }

  function ChecksumOf(h: Header): (c: Word)
  {
    SumBound(h);
    TwoFolds(Sum(h));
    ONES - Fold(Fold(Sum(h)))
  }

  // ---------- the ones' complement sum of the RFCs ----------

  /** Addition with the carry brought round to the low end. */
  function OnesAdd(a: Word, b: Word): Word {
    if a + b < 0x1_0000 then a + b else a + b - ONES
  }

  function OnesSum(ws: seq<Word>): Word {
    if ws == [] then 0 else OnesAdd(OnesSum(ws[..|ws| - 1]), ws[|ws| - 1])
  }

  /** How often the carry came round. */
  function RoundTrips(ws: seq<Word>): nat {
    if ws == [] then 0
    else RoundTrips(ws[..|ws| - 1]) +
         if OnesSum(ws[..|ws| - 1]) + ws[|ws| - 1] < 0x1_0000 then 0 else 1
  }

  lemma {:induction false} OnesSumResidue(ws: seq<Word>)
    ensures OnesSum(ws) == Sum(ws) - ONES * RoundTrips(ws)
    ensures OnesSum(ws) == 0 <==> Sum(ws) == 0
  {
    if ws != [] {
      OnesSumResidue(ws[..|ws| - 1]);
    }
  }

  /** The deferred carries of the program add up to the RFC's end-around carry. */
  lemma ChecksumIsOnesComplement(h: Header)
    ensures ChecksumOf(h) == ONES - OnesSum(h)
  {
    SumBound(h);
    TwoFolds(Sum(h));
    OnesSumResidue(h);
    SameResidue(OnesSum(h), Fold(Fold(Sum(h))), Carries(Sum(h)) - RoundTrips(h));
  }

  // ---------- verification at the receiver ----------

  lemma {:induction false} SumUpdate(ws: seq<Word>, k: nat, w: Word)
    requires k < |ws|
    ensures Sum(ws[k := w]) == Sum(ws) - ws[k] + w
  {
    var init := ws[..|ws| - 1];
    if k < |ws| - 1 {
      SumUpdate(init, k, w);
      assert ws[k := w][..|ws| - 1] == init[k := w];
    } else {
      assert ws[k := w][..|ws| - 1] == init;
    }
  }

  /** A header that carries its own checksum checks out to zero. */
  lemma StoredChecksumVerifies(h: Header)
    requires h[CHECK] == 0
    ensures ChecksumOf(h[CHECK := ChecksumOf(h)]) == 0
  {
    var c := ChecksumOf(h);
    var h' := h[CHECK := c];
    SumUpdate(h, CHECK, c);
    SumBound(h);
    TwoFolds(Sum(h));
    SumBound(h');
    TwoFolds(Sum(h'));
    SameResidue(Fold(Fold(Sum(h'))), ONES, Carries(Sum(h)) - Carries(Sum(h')));
  }

  /** Changing one word goes unnoticed only between the two zeros of ones' complement
      arithmetic, and even then only if some other word is not zero. */
  lemma OneWordDetected(h: Header, k: nat, w: Word)
    requires k < WORDS && w != h[k]
    ensures ChecksumOf(h[k := w]) == ChecksumOf(h) <==>
              && ((h[k] == 0 && w == ONES) || (h[k] == ONES && w == 0))
              && exists i :: 0 <= i < WORDS && i != k && h[i] != 0
  {
    var h', others := h[k := w], h[k := 0];
    SumUpdate(h, k, w);
    SumUpdate(h, k, 0);
    SumBound(h);
    SumBound(h');
    SumBound(others);
    TwoFolds(Sum(h));
    TwoFolds(Sum(h'));
    assert Sum(others) == 0 <==> forall i :: 0 <= i < WORDS && i != k ==> h[i] == 0 by {
      assert forall i :: 0 <= i < WORDS && i != k ==> others[i] == h[i];
    }
    SameAfterChange(Sum(others), h[k], w, Fold(Fold(Sum(h))), Fold(Fold(Sum(h'))), Carries(Sum(h)), Carries(Sum(h')));
  }

  lemma SameAfterChange(s: nat, a: Word, b: Word, f: Word, g: Word, k: int, l: int)
    requires a != b
    requires f == s + a - ONES * k && (f == 0 <==> s + a == 0)
    requires g == s + b - ONES * l && (g == 0 <==> s + b == 0)
    ensures f == g <==> ((a == 0 && b == ONES) || (a == ONES && b == 0)) && s != 0
  {
    if a == 0 && b == ONES && s != 0 {
      SameResidue(f, g, l - k - 1);
    } else if a == ONES && b == 0 && s != 0 {
      SameResidue(f, g, l - k + 1);
    }
  }

  // ---------- byte order ----------

  function Swap(w: Word): Word {
    w % 256 * 256 + w / 256
  }

  function SwapAll(ws: seq<Word>): (r: seq<Word>)
    ensures |r| == |ws| && forall i :: 0 <= i < |ws| ==> r[i] == Swap(ws[i])
  {
    seq(|ws|, i requires 0 <= i < |ws| => Swap(ws[i]))
  }

  function HighBytes(ws: seq<Word>): nat {
    if ws == [] then 0 else HighBytes(ws[..|ws| - 1]) + ws[|ws| - 1] / 256
  }

  lemma {:induction false} SumOfSwapped(ws: seq<Word>)
    ensures Sum(SwapAll(ws)) == 256 * Sum(ws) - ONES * HighBytes(ws)
  {
    if ws != [] {
      var init := ws[..|ws| - 1];
      SumOfSwapped(init);
      assert SwapAll(ws)[..|ws| - 1] == SwapAll(init);
    }
  }

  lemma SwapFacts(f: Word)
    ensures Swap(ONES - f) == ONES - Swap(f)
    ensures Swap(f) == 0 <==> f == 0
    ensures LittleBytes(f) == BigBytes(Swap(f))
  {
    var lo, hi := f % 256, f / 256;
    assert f == 256 * hi + lo;
    assert ONES - f == 256 * (255 - hi) + (255 - lo);
    assert (ONES - f) / 256 == 255 - hi && (ONES - f) % 256 == 255 - lo;
    assert Swap(f) / 256 == lo && Swap(f) % 256 == hi;
  }

  lemma SwapZeroSum(h: Header)
    ensures Sum(SwapAll(h)) == 0 <==> Sum(h) == 0
  {
    SumBound(h);
    SumBound(SwapAll(h));
    forall i | 0 <= i < WORDS ensures SwapAll(h)[i] == 0 <==> h[i] == 0 {
      SwapFacts(h[i]);
    }
  }

  lemma SwapResult(s: nat, f: Word, k: int, t: nat, g: Word, l: int, high: nat)
    requires f == s - ONES * k && (f == 0 <==> s == 0)
    requires g == t - ONES * l && (g == 0 <==> t == 0)
    requires t == 256 * s - ONES * high && (t == 0 <==> s == 0)
    ensures ONES - g == Swap(ONES - f)
  {
    SwapFacts(f);
    assert Swap(f) == 256 * f - ONES * (f / 256);
    SameResidue(Swap(f), g, high + l - f / 256 - 256 * k);
  }

  /** The folded sum behind a checksum, and how far it is from the plain sum. */
  lemma Unfolded(h: Header) returns (f: Word, k: int)
    ensures ChecksumOf(h) == ONES - f && f == Sum(h) - ONES * k && (f == 0 <==> Sum(h) == 0)
  {
    SumBound(h);
    TwoFolds(Sum(h));
    f, k := Fold(Fold(Sum(h))), Carries(Sum(h));
  }

  /** Swapping the bytes of every word swaps the bytes of the checksum. */
  lemma SwapCommutes(h: Header)
    ensures ChecksumOf(SwapAll(h)) == Swap(ChecksumOf(h))
  {
    SumOfSwapped(h);
    SwapZeroSum(h);
    SwappedChecksum(h, SwapAll(h), HighBytes(h));
  }

  lemma SwappedChecksum(h: Header, g: Header, high: nat)
    requires Sum(g) == 256 * Sum(h) - ONES * high && (Sum(g) == 0 <==> Sum(h) == 0)
    ensures ChecksumOf(g) == Swap(ChecksumOf(h))
  {
    var f, k := Unfolded(h);
    var f', l := Unfolded(g);
    SwapResult(Sum(h), f, k, Sum(g), f', l, high);
  }

  type RawHeader = bs: seq<Byte> | |bs| == 2 * WORDS witness seq(20, _ => 0)

  /** The words a little-endian and a big-endian machine read from the same bytes. */
  function LittleWords(bs: RawHeader): Header {
    seq(WORDS, i requires 0 <= i < WORDS => (bs[2 * i] as int + 256 * bs[2 * i + 1] as int) as Word)
  }

  function BigWords(bs: RawHeader): Header {
    seq(WORDS, i requires 0 <= i < WORDS => (256 * bs[2 * i] as int + bs[2 * i + 1] as int) as Word)
  }

  function LittleBytes(w: Word): seq<Byte> { [(w % 256) as Byte, (w / 256) as Byte] }
  function BigBytes(w: Word): seq<Byte> { [(w / 256) as Byte, (w % 256) as Byte] }

  /** The bytes that end up in the header do not depend on the machine. */
  lemma ByteOrderIndependent(bs: RawHeader)
    ensures LittleBytes(ChecksumOf(LittleWords(bs))) == BigBytes(ChecksumOf(BigWords(bs)))
  {
    forall i | 0 <= i < WORDS ensures BigWords(bs)[i] == Swap(LittleWords(bs)[i]) {
      var b0, b1 := bs[2 * i] as int, bs[2 * i + 1] as int;
      assert (b0 + 256 * b1) % 256 == b0 && (b0 + 256 * b1) / 256 == b1;
    }
    assert BigWords(bs) == SwapAll(LittleWords(bs));
    SwapCommutes(LittleWords(bs));
    SwapFacts(ChecksumOf(LittleWords(bs)));
  }

  // ---------- the program ----------

  method ComputeChecksum(data: array<Word>) returns (c: Word)
    requires data.Length >= WORDS
    ensures c == ChecksumOf(data[..WORDS])
  {
    ghost var h: Header := data[..WORDS];
    var csum: nat := 0;
    var i := 0;
    while i < WORDS
      invariant 0 <= i <= WORDS
      invariant csum == Sum(h[..i]) && csum <= i * ONES
    {
      assert h[..i + 1][..i] == h[..i];
      csum := csum + data[i];
      i := i + 1;
    }
    assert h[..i] == h;
    c := FoldAndComplement(csum);
  }

  method FoldAndComplement(sum: nat) returns (c: Word)
    requires sum <= WORDS * ONES
    ensures c == ONES - Fold(Fold(sum))
  {
    TwoFolds(sum);
    var csum := sum;
    var tmp := csum / 0x1_0000;
    csum := csum % 0x1_0000 + tmp;
    assert csum == Fold(sum);
    csum := csum % 0x1_0000 + csum / 0x1_0000;
    assert csum == Fold(Fold(sum));
    Complement16(csum);
    c := (0xFFFF_FFFF - csum) % 0x1_0000;
  }

  /** The low half of the 32-bit complement of a 16-bit number. */
  lemma Complement16(x: nat)
    requires x <= ONES
    ensures (0xFFFF_FFFF - x) % 0x1_0000 == ONES - x
  {
    assert 0xFFFF_FFFF - x == 0x1_0000 * 0xFFFF + (ONES - x);
  }

  /** Clears the check field, then stores the checksum in it. */
  method FillChecksum(ip: array<Word>)
    requires ip.Length >= WORDS
    modifies ip
    ensures ip[..] == old(ip[..])[CHECK := ip[CHECK]]
    ensures ChecksumOf(ip[..WORDS]) == 0
    ensures ip[CHECK] == ONES - OnesSum(old(ip[..WORDS])[CHECK := 0])
  {
    ip[CHECK] := 0;
    ghost var h: Header := ip[..WORDS];
    assert h == old(ip[..WORDS])[CHECK := 0];
    var c := ComputeChecksum(ip);
    ip[CHECK] := c;
    StoredChecksumVerifies(h);
    ChecksumIsOnesComplement(h);
    assert ip[..WORDS] == h[CHECK := c];
  }
}
