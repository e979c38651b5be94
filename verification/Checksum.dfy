/** The Internet header checksum of section 3.1 of RFC 791 as `RawIP/src/ip_func.c` computes it: carries
    are left to pile up in a 32-bit accumulator, folded back twice at the end, and the low half is
    complemented. Right shifts by 16 and masks with 0xFFFF are written as `/` and `%`. */
module Checksum {
  const WORD := 0x1_0000
  const ACC := 0x1_0000_0000
  const ONES := 0xFFFF

  /** A 16-bit header word as the host loads it. */
  type Word = w: int | 0 <= w < WORD

  // ----- what the checksum means

  function Sum(ws: seq<Word>): int {
    if ws == [] then 0 else Sum(ws[..|ws| - 1]) + ws[|ws| - 1]
  }

  /** The one's complement sum of a total: its residue modulo 65535, with 65535 and not 0 standing for
      the positive multiples. */
  function Residue(total: int): int {
    if total == 0 then 0 else (total - 1) % ONES + 1
  }

  function Check(ws: seq<Word>): int {
    ONES - Residue(Sum(ws))
  }

  /** `Residue` is the only number of its range that is congruent to the total. */
  lemma ResidueUnique(total: int, r: int)
    requires 0 <= total
    ensures 0 <= Residue(total) <= ONES && (Residue(total) - total) % ONES == 0
    ensures Residue(total) == 0 <==> total == 0
    ensures 1 <= r <= ONES && total != 0 && (r - total) % ONES == 0 ==> r == Residue(total)
  {
  }

  lemma {:induction false} SumBounds(ws: seq<Word>)
    ensures 0 <= Sum(ws) <= |ws| * ONES
    ensures Sum(ws) == 0 <==> forall i | 0 <= i < |ws| :: ws[i] == 0
  {
    if ws != [] {
      var front := ws[..|ws| - 1];
      SumBounds(front);
      assert forall i | 0 <= i < |front| :: ws[i] == front[i];
    }
  }

  // ----- the code

  /** `sum = (sum >> 16) + (sum & 0xFFFF)` */
  function Fold(sum: int): int {
    sum / WORD + sum % WORD
  }

  /** The two folds and the truncating complement. */
  function Finish(sum: int): int {
    var once := Fold(sum);
    var twice := (once + once / WORD) % ACC;
    (ACC - 1 - twice) % WORD
  }

  /** Two folds are enough for every value of the 32-bit accumulator. */
  lemma TwoFoldsSuffice(sum: int)
    requires 0 <= sum < ACC
    ensures Finish(sum) == ONES - Residue(sum)
  {
    var hi, lo := sum / WORD, sum % WORD;
    assert sum == hi * WORD + lo;
    if sum != 0 {
      var r := if hi + lo < WORD then hi + lo else hi + lo - ONES;
      assert (r - sum) % ONES == 0 by {
        assert r - sum == (if hi + lo < WORD then -hi else -hi - 1) * ONES;
      }
      ResidueUnique(sum, r);
    }
  }

  /** `ip_checksum` on the first `4 * ihl` bytes of a header, two bytes a word. */
  method IpChecksum(header: seq<Word>, ihl: int) returns (checksum: int)
    requires 0 <= ihl < 16 && 2 * ihl <= |header|
    ensures checksum == Check(header[..2 * ihl])
    ensures 0 <= checksum < WORD
  {
    var sum := 0;
    var len := ihl * 4;
    var next := 0;
    while len > 1
      invariant 0 <= len == 4 * ihl - 2 * next
      invariant sum == Sum(header[..next])
    {
      SumBounds(header[..next]);
      assert header[..next + 1][..next] == header[..next];
      sum := (sum + header[next]) % ACC;
      next := next + 1;
      len := len - 2;
    }
    assert len == 0;  // so the branch for an odd last byte is never taken
    SumBounds(header[..next]);
    TwoFoldsSuffice(sum);
    ResidueUnique(sum, 0);
    sum := sum / WORD + sum % WORD;
    sum := (sum + sum / WORD) % ACC;
    checksum := (ACC - 1 - sum) % WORD;
  }

  /** One fold would not be: it is enough exactly when the halves add up without a carry. */
  lemma OneFoldSuffices(sum: int)
    requires 0 <= sum < ACC
    ensures ONES - Fold(sum) % WORD == ONES - Residue(sum) <==> sum / WORD + sum % WORD < WORD
  {
    TwoFoldsSuffice(sum);
  }

  lemma {:induction false} SumOfOnes(ws: seq<Word>)
    requires forall i | 0 <= i < |ws| :: ws[i] == ONES
    ensures Sum(ws) == |ws| * ONES
  {
    if ws != [] {
      SumOfOnes(ws[..|ws| - 1]);
    }
  }

  /** The accumulator cannot wrap up to 65537 words, and can beyond: so deferring the carries is safe for
      every header length. */
  lemma NoWrapUpTo65537(n: nat)
    ensures (forall ws: seq<Word> | |ws| == n :: Sum(ws) < ACC) <==> n <= 65537
  {
    if n <= 65537 {
      forall ws: seq<Word> | |ws| == n
        ensures Sum(ws) < ACC
      {
        SumBounds(ws);
      }
    } else {
      var ws: seq<Word> := seq(n, _ => ONES);
      SumOfOnes(ws);
      assert |ws| == n && !(Sum(ws) < ACC);
    }
  }

  // ----- order and byte order

  lemma {:induction false} SumConcat(a: seq<Word>, b: seq<Word>)
    ensures Sum(a + b) == Sum(a) + Sum(b)
  {
    if b == [] {
      assert a + b == a;
    } else {
      SumConcat(a, b[..|b| - 1]);
      assert (a + b)[..|a + b| - 1] == a + b[..|b| - 1];
    }
  }

  lemma SumWithout(ws: seq<Word>, k: nat)
    requires k < |ws|
    ensures Sum(ws) == Sum(ws[..k] + ws[k + 1..]) + ws[k]
  {
    var a, w, b := ws[..k], ws[k], ws[k + 1..];
    assert ws == a + ([w] + b);
    SumConcat(a, [w] + b);
    SumConcat([w], b);
    SumConcat(a, b);
    assert Sum([w]) == w;
  }

  lemma CheckOfSum(a: seq<Word>, b: seq<Word>)
    requires Sum(a) == Sum(b)
    ensures Check(a) == Check(b)
  {
  }

  /** The order of the words does not matter (section 2 of RFC 1071). */
  lemma {:induction false} Reordering(a: seq<Word>, b: seq<Word>)
    requires multiset(a) == multiset(b)
    ensures Sum(a) == Sum(b) && Check(a) == Check(b)
    decreases |a|
  {
    hide Check, Residue;
    if a == [] {
      assert |multiset(b)| == |b|;
    } else {
      var n := |a| - 1;
      var w := a[n];
      assert w in multiset(a);
      var k :| 0 <= k < |b| && b[k] == w;
      assert b == b[..k] + [w] + b[k + 1..];
      assert a == a[..n] + [w];
      calc {
        multiset(a[..n]);
        multiset(a) - multiset{w};
        multiset(b[..k] + [w] + b[k + 1..]) - multiset{w};
        multiset(b[..k]) + multiset([w]) + multiset(b[k + 1..]) - multiset{w};
        multiset(b[..k] + b[k + 1..]);
      }
      Reordering(a[..n], b[..k] + b[k + 1..]);
      SumWithout(b, k);
    }
    CheckOfSum(a, b);
  }

  /** The two bytes of a word exchanged. */
  function Swap(w: int): int {
    w % 256 * 256 + w / 256
  }

  function SwapAll(ws: seq<Word>): (r: seq<Word>)
    ensures |r| == |ws|
  {
    seq(|ws|, i requires 0 <= i < |ws| => Swap(ws[i]))
  }

  lemma SwapWord(swapped: int, total: int, w: int)
    requires (swapped - 256 * total) % ONES == 0 && 0 <= w < WORD
    ensures (swapped + Swap(w) - 256 * (total + w)) % ONES == 0
    ensures 0 <= Swap(w) < WORD && (Swap(w) == 0 <==> w == 0)
  {
    assert swapped + Swap(w) - 256 * (total + w) == ((swapped - 256 * total) / ONES - w / 256) * ONES;
  }

  /** Swapping the bytes of a word is multiplication by 256, modulo 65535. */
  lemma {:induction false} SwapAllSum(ws: seq<Word>)
    ensures (Sum(SwapAll(ws)) - 256 * Sum(ws)) % ONES == 0
    ensures Sum(SwapAll(ws)) == 0 <==> Sum(ws) == 0
  {
    hide Swap;
    if ws != [] {
      var front, w: int := ws[..|ws| - 1], ws[|ws| - 1];
      SwapAllSum(front);
      SumBounds(front);
      SumBounds(SwapAll(front));
      assert SwapAll(ws)[..|ws| - 1] == SwapAll(front);
      SwapWord(Sum(SwapAll(front)), Sum(front), w);
    }
  }

  lemma SwapZero()
    ensures Swap(0) == 0
  {
  }

  lemma SwapResidue(r: int)
    requires 1 <= r <= ONES
    ensures 1 <= Swap(r) <= ONES && (Swap(r) - 256 * r) % ONES == 0
  {
    assert Swap(r) - 256 * r == -ONES * (r / 256);
  }

  lemma Congruent(s: int, r: int, total: int, total': int)
    requires (s - 256 * r) % ONES == 0 && (r - total) % ONES == 0 && (total' - 256 * total) % ONES == 0
    ensures (s - total') % ONES == 0
  {
    var x, y, z := (s - 256 * r) / ONES, (r - total) / ONES, (total' - 256 * total) / ONES;
    assert s - total' == (x + 256 * y - z) * ONES;
  }

  lemma ResidueSwaps(total: int, total': int)
    requires 0 <= total && 0 <= total' && (total' - 256 * total) % ONES == 0 && (total' == 0 <==> total == 0)
    ensures Residue(total') == Swap(Residue(total))
  {
    hide Residue, Swap;
    ResidueUnique(total, 0);
    ResidueUnique(total', 0);
    var r := Residue(total);
    if total != 0 {
      SwapResidue(r);
      Congruent(Swap(r), r, total, total');
      ResidueUnique(total', Swap(r));
    } else {
      SwapZero();
    }
  }

  lemma SwapComplement(r: int)
    requires 0 <= r <= ONES
    ensures Swap(ONES - r) == ONES - Swap(r)
  {
  }

  /** The checksum can be computed in either byte order: swapping every word of the header swaps the
      result (section 2 of RFC 1071). */
  lemma ByteOrder(ws: seq<Word>)
    ensures Check(SwapAll(ws)) == Swap(Check(ws))
  {
    SwapAllSum(ws);
    SumBounds(ws);
    SumBounds(SwapAll(ws));
    ResidueUnique(Sum(ws), 0);
    ResidueSwaps(Sum(ws), Sum(SwapAll(ws)));
    SwapComplement(Residue(Sum(ws)));
  }

  // ----- verification by the receiver

  /** The check comes out as 0 exactly on a positive multiple of 65535. */
  lemma ZeroCheck(ws: seq<Word>)
    ensures Check(ws) == 0 <==> 0 < Sum(ws) && Sum(ws) % ONES == 0
  {
    SumBounds(ws);
    ResidueUnique(Sum(ws), ONES);
  }

  lemma SumUpdate(ws: seq<Word>, k: nat, w: Word)
    requires k < |ws|
    ensures Sum(ws[k := w]) == Sum(ws) - ws[k] + w
  {
    var a, b := ws[..k], ws[k + 1..];
    assert ws == a + ([ws[k]] + b) && ws[k := w] == a + ([w] + b);
    SumConcat(a, [ws[k]] + b);
    SumConcat(a, [w] + b);
    SumConcat([ws[k]], b);
    SumConcat([w], b);
    assert Sum([ws[k]]) == ws[k] && Sum([w]) == w;
  }

  /** Self-verification: a header whose check word is 0, with its checksum stored there as it is, checks
      to 0. */
  lemma SelfVerifies(ws: seq<Word>, k: nat)
    requires k < |ws| && ws[k] == 0
    ensures 0 <= Check(ws) < WORD && Check(ws[k := Check(ws)]) == 0
  {
    SumBounds(ws);
    ResidueUnique(Sum(ws), 0);
    var c := Check(ws);
    SumUpdate(ws, k, c);
    assert Sum(ws) + c == ONES + (Sum(ws) - Residue(Sum(ws)));
    ZeroCheck(ws[k := c]);
  }

  /** What the receiver's check detects: replacing one word of a header that checks out goes unnoticed
      exactly if the two words are congruent modulo 65535 (the same word, or 0 and 0xFFFF) and the header
      does not become all zero. */
  lemma DetectsOneWord(ws: seq<Word>, k: nat, w: Word)
    requires k < |ws| && Check(ws) == 0
    ensures Check(ws[k := w]) == 0 <==> (w - ws[k]) % ONES == 0 && Sum(ws[k := w]) != 0
  {
    SumUpdate(ws, k, w);
    SumBounds(ws[k := w]);
    ZeroCheck(ws);
    ZeroCheck(ws[k := w]);
    assert Sum(ws[k := w]) - Sum(ws) == w - ws[k];
  }
}
