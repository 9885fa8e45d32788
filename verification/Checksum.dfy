/**
 The Internet checksum of RFC 1071, as `checksum` in scripts/generate_zeek_pcap.py computes it:
 pad to an even length, add the big-endian 16-bit words, fold the carries back, complement.

 `Residue` says what folding is for, without folding: 65535 taken away until no more can be, so that
 0 is left of 0 only. The loop is proved to compute it, and every other property of the checksum
 follows from arithmetic modulo 65535.
 */
module Checksums {
  type Byte = x: int | 0 <= x < 0x100
  type Word = x: int | 0 <= x < 0x1_0000

  const MODULUS := 0xFFFF

  function Pad(data: seq<Byte>): (padded: seq<Byte>)
    ensures |padded| % 2 == 0
  {
    if |data| % 2 == 1 then data + [0] else data
  }

  function WordOf(high: Byte, low: Byte): Word {
    high * 0x100 + low
  }

  function Words(data: seq<Byte>): (words: seq<Word>)
    requires |data| % 2 == 0
    ensures |words| == |data| / 2
  {
    seq(|data| / 2, i requires 0 <= i < |data| / 2 => WordOf(data[2 * i], data[2 * i + 1]))
  }

  function Sum(words: seq<Word>): nat {
    if words == [] then 0 else words[0] + Sum(words[1..])
  }

  function WordSum(data: seq<Byte>): nat {
    Sum(Words(Pad(data)))
  }

  function Residue(n: nat): Word {
    if n <= MODULUS then n else Residue(n - MODULUS)
  }

  function Checksum(data: seq<Byte>): Word {
    MODULUS - Residue(WordSum(data))
  }

  /** The source's algorithm: its carry fold ends, and ends at the canonical residue. */
  method ComputeChecksum(data: seq<Byte>) returns (checksum: Word)
    ensures checksum == Checksum(data)
  {
    var sum := WordSum(data);
    var total := sum;
    while total / 0x1_0000 != 0
      invariant total >= 0
      invariant Residue(total) == Residue(sum)
      decreases total
    {
      FoldKeepsResidue(total);
      total := total % 0x1_0000 + total / 0x1_0000;
    }
    checksum := MODULUS - total;
  }

  lemma FoldKeepsResidue(total: nat)
    requires total >= 0x1_0000
    ensures 0 < total % 0x1_0000 + total / 0x1_0000 < total
    ensures Residue(total % 0x1_0000 + total / 0x1_0000) == Residue(total)
  {
    SameResidue(total % 0x1_0000 + total / 0x1_0000, total, -(total / 0x1_0000));
  }

  /** The representative of n modulo 65535 in 1..65535, with 0 kept apart. */
  lemma {:induction false} ResidueIsModulo(n: nat)
    ensures Residue(n) == if n == 0 then 0 else (n - 1) % MODULUS + 1
  {
    if n > MODULUS {
      ResidueIsModulo(n - MODULUS);
    }
  }

  // Two positive sums a multiple of 65535 apart have the same residue.
  lemma SameResidue(a: nat, b: nat, k: int)
    requires a > 0 && b > 0
    requires a == b + k * MODULUS
    ensures Residue(a) == Residue(b)
  {
    ResidueIsModulo(a);
    ResidueIsModulo(b);
  }

  /** Which sums fold to the same value: both zero, or both positive and congruent modulo 65535. */
  lemma ResidueDecides(a: nat, b: nat)
    ensures Residue(a) == Residue(b) <==> (a == 0 <==> b == 0) && (a - b) % MODULUS == 0
  {
    ResidueIsModulo(a);
    ResidueIsModulo(b);
    if a > 0 && b > 0 && (a - b) % MODULUS == 0 {
      SameResidue(a, b, (a - b) / MODULUS);
    }
  }

  lemma {:induction false} SumOfConcat(a: seq<Word>, b: seq<Word>)
    ensures Sum(a + b) == Sum(a) + Sum(b)
  {
    if a == [] {
      assert a + b == b;
    } else {
      assert (a + b)[1..] == a[1..] + b;
      SumOfConcat(a[1..], b);
    }
  }

  lemma WordsOfConcat(a: seq<Byte>, b: seq<Byte>)
    requires |a| % 2 == 0 && |b| % 2 == 0
    ensures Words(a + b) == Words(a) + Words(b)
  {
    var words := Words(a) + Words(b);
    forall i | 0 <= i < |words| ensures Words(a + b)[i] == words[i] {
      if i >= |a| / 2 {
        assert (a + b)[2 * i] == b[2 * (i - |a| / 2)];
      }
    }
  }

  lemma SumOfWordsConcat(a: seq<Byte>, b: seq<Byte>)
    requires |a| % 2 == 0 && |b| % 2 == 0
    ensures Sum(Words(a + b)) == Sum(Words(a)) + Sum(Words(b))
  {
    WordsOfConcat(a, b);
    SumOfConcat(Words(a), Words(b));
  }

  lemma PadOfConcat(a: seq<Byte>, b: seq<Byte>)
    requires |a| % 2 == 0
    ensures Pad(a + b) == a + Pad(b)
  {
  }

  /** The two bytes of a word in network order. */
  function BigEndian16(w: Word): (bytes: seq<Byte>)
    ensures |bytes| == 2
  {
    [w / 0x100, w % 0x100]
  }

  lemma WordSumOfWord(w: Word)
    ensures WordSum(BigEndian16(w)) == w
  {
    assert Words(BigEndian16(w)) == [w];
    assert Sum([w]) == w + Sum([]);
  }

  /** RFC 1071 section 1: storing the checksum where the zero word was makes the whole sum to all
      ones, so a receiver that runs the same algorithm over everything gets 0. */
  lemma StoredChecksumVerifies(before: seq<Byte>, after: seq<Byte>)
    requires |before| % 2 == 0
    ensures var c := Checksum(before + BigEndian16(0) + after);
            Checksum(before + BigEndian16(c) + after) == 0
  {
    var zeroed := before + BigEndian16(0) + after;
    var c := Checksum(zeroed);
    SplitAround(before, 0, after);
    SplitAround(before, c, after);
    var sum := WordSum(zeroed);
    ResidueIsModulo(sum);
    if sum > 0 {
      SameResidue(sum + c, MODULUS, (sum - 1) / MODULUS);
    }
  }

  lemma SplitAround(before: seq<Byte>, w: Word, after: seq<Byte>)
    requires |before| % 2 == 0
    ensures WordSum(before + BigEndian16(w) + after) == WordSum(before) + w + WordSum(after)
  {
    var front := before + BigEndian16(w);
    PadOfConcat(front, after);
    SumOfWordsConcat(front, Pad(after));
    SumOfWordsConcat(before, BigEndian16(w));
    WordSumOfWord(w);
  }

  // ---- RFC 1071 section 2 (A): the order of the words does not matter ----

  lemma SumOfFirst(w: Word, rest: seq<Word>)
    ensures Sum([w] + rest) == w + Sum(rest)
  {
    assert ([w] + rest)[1..] == rest;
  }

  lemma SumWithout(words: seq<Word>, i: nat)
    requires i < |words|
    ensures Sum(words) == words[i] + Sum(words[..i] + words[i + 1..])
  {
    var front, back := words[..i], words[i + 1..];
    assert words == front + ([words[i]] + back);
    SumOfConcat(front, [words[i]] + back);
    SumOfConcat(front, back);
    SumOfFirst(words[i], back);
  }

  lemma MultisetWithout(words: seq<Word>, i: nat)
    requires i < |words|
    ensures multiset(words[..i] + words[i + 1..]) == multiset(words) - multiset{words[i]}
  {
    assert words == words[..i] + [words[i]] + words[i + 1..];
  }

  lemma FirstOf(a: seq<Word>, b: seq<Word>) returns (i: nat)
    requires multiset(a) == multiset(b) && a != []
    ensures i < |b| && b[i] == a[0] && multiset(a[1..]) == multiset(b[..i] + b[i + 1..])
  {
    assert a[0] in multiset(b);
    i :| 0 <= i < |b| && b[i] == a[0];
    MultisetWithout(b, i);
    assert a == [a[0]] + a[1..];
  }

  lemma {:induction false} SumOfPermutation(a: seq<Word>, b: seq<Word>)
    requires multiset(a) == multiset(b)
    ensures Sum(a) == Sum(b)
  {
    assert |multiset(a)| == |a| && |multiset(b)| == |b|;
    if a != [] {
      var i := FirstOf(a, b);
      SumOfPermutation(a[1..], b[..i] + b[i + 1..]);
      SumWithout(b, i);
    }
  }

  lemma OrderOfWordsIsIrrelevant(a: seq<Byte>, b: seq<Byte>)
    requires multiset(Words(Pad(a))) == multiset(Words(Pad(b)))
    ensures Checksum(a) == Checksum(b)
  {
    SumOfPermutation(Words(Pad(a)), Words(Pad(b)));
  }

  // ---- RFC 1071 section 2 (B): swapping the bytes of every word swaps those of the checksum ----

  function SwapWord(w: Word): Word {
    w % 0x100 * 0x100 + w / 0x100
  }

  function SwapEach(data: seq<Byte>): (swapped: seq<Byte>)
    requires |data| % 2 == 0
    ensures |swapped| == |data|
  {
    seq(|data|, i requires 0 <= i < |data| => if i % 2 == 0 then data[i + 1] else data[i - 1])
  }

  function Swaps(words: seq<Word>): (swapped: seq<Word>)
    ensures |swapped| == |words|
  {
    seq(|words|, i requires 0 <= i < |words| => SwapWord(words[i]))
  }

  lemma BytesOfWord(high: Byte, low: Byte)
    ensures WordOf(high, low) / 0x100 == high && WordOf(high, low) % 0x100 == low
  {
  }

  lemma SwapOfComplement(w: Word)
    ensures SwapWord(MODULUS - w) == MODULUS - SwapWord(w)
  {
    var high, low := w / 0x100, w % 0x100;
    assert MODULUS - w == WordOf(0xFF - high, 0xFF - low);
    BytesOfWord(0xFF - high, 0xFF - low);
  }

  lemma SwappedAt(data: seq<Byte>, i: nat)
    requires |data| % 2 == 0 && i < |data| / 2
    ensures SwapEach(data)[2 * i] == data[2 * i + 1]
    ensures SwapEach(data)[2 * i + 1] == data[2 * i]
  {
    assert (2 * i) % 2 == 0;
  }

  lemma SwappedWordAt(data: seq<Byte>, i: nat)
    requires |data| % 2 == 0 && i < |data| / 2
    ensures Words(SwapEach(data))[i] == SwapWord(Words(data)[i])
  {
    var high, low := data[2 * i], data[2 * i + 1];
    SwappedAt(data, i);
    assert Words(SwapEach(data))[i] == WordOf(low, high);
    assert Words(data)[i] == WordOf(high, low);
    BytesOfWord(high, low);
  }

  lemma WordsOfSwapped(data: seq<Byte>)
    requires |data| % 2 == 0
    ensures Words(SwapEach(data)) == Swaps(Words(data))
  {
    forall i: nat | i < |data| / 2 ensures Words(SwapEach(data))[i] == SwapWord(Words(data)[i]) {
      SwappedWordAt(data, i);
    }
  }

  lemma SwapTimes256(w: Word)
    ensures SwapWord(w) == 0x100 * w - (w / 0x100) * MODULUS
    ensures SwapWord(w) == 0 <==> w == 0
  {
  }

  lemma StillMultiple(n: int, k: int)
    requires n % MODULUS == 0
    ensures (n - k * MODULUS) % MODULUS == 0
  {
    assert n == n / MODULUS * MODULUS;
    assert n - k * MODULUS == (n / MODULUS - k) * MODULUS;
  }

  // Swapping multiplies by 256 modulo 65535.
  lemma {:induction false} SumOfSwaps(words: seq<Word>)
    ensures (Sum(Swaps(words)) - 0x100 * Sum(words)) % MODULUS == 0
    ensures Sum(Swaps(words)) == 0 <==> Sum(words) == 0
  {
    if words != [] {
      SumOfSwaps(words[1..]);
      var w := words[0];
      var rest := Sum(Swaps(words[1..])) - 0x100 * Sum(words[1..]);
      SwapTimes256(w);
      assert Swaps(words)[1..] == Swaps(words[1..]);
      assert Sum(Swaps(words)) - 0x100 * Sum(words) == rest - (w / 0x100) * MODULUS;
      StillMultiple(rest, w / 0x100);
    }
  }

  lemma ResidueOfSwapped(sum: nat, swappedSum: nat)
    requires (swappedSum - 0x100 * sum) % MODULUS == 0
    requires swappedSum == 0 <==> sum == 0
    ensures Residue(swappedSum) == SwapWord(Residue(sum))
  {
    if sum > 0 {
      ResidueIsModulo(sum);
      var r := Residue(sum);
      var k := (swappedSum - 0x100 * sum) / MODULUS;
      var m := (sum - 1) / MODULUS;
      assert sum == r + m * MODULUS;
      SwapTimes256(r);
      SameResidue(swappedSum, SwapWord(r), k + 0x100 * m + r / 0x100);
    }
  }

  lemma ResidueOfSwaps(words: seq<Word>)
    ensures Residue(Sum(Swaps(words))) == SwapWord(Residue(Sum(words)))
  {
    SumOfSwaps(words);
    ResidueOfSwapped(Sum(words), Sum(Swaps(words)));
  }

  lemma WordSumOfSwapped(data: seq<Byte>)
    requires |data| % 2 == 0
    ensures WordSum(SwapEach(data)) == Sum(Swaps(Words(data)))
  {
    WordsOfSwapped(data);
  }

  lemma SwappingBytesSwapsChecksum(data: seq<Byte>)
    ensures Checksum(SwapEach(Pad(data))) == SwapWord(Checksum(data))
  {
    WordSumOfSwapped(Pad(data));
    ResidueOfSwaps(Words(Pad(data)));
    SwapOfComplement(Residue(WordSum(data)));
  }

  // ---- What the checksum can miss ----

  // Words a multiple of 65535 apart are equal or the two representations of zero.
  lemma WordsCongruent(w: Word, v: Word)
    requires w != v
    ensures (w - v) % MODULUS == 0 <==> (w == 0 && v == MODULUS) || (w == MODULUS && v == 0)
  {
  }

  /** Changing one word goes unnoticed exactly when 0x0000 and 0xFFFF are exchanged and some other
      word is not zero. */
  lemma OneWordCollisions(before: seq<Byte>, w: Word, v: Word, after: seq<Byte>)
    requires |before| % 2 == 0
    requires w != v
    ensures Checksum(before + BigEndian16(w) + after) == Checksum(before + BigEndian16(v) + after)
            <==> ((w == 0x0000 && v == 0xFFFF) || (w == 0xFFFF && v == 0x0000))
                 && WordSum(before) + WordSum(after) != 0
  {
    SplitAround(before, w, after);
    SplitAround(before, v, after);
    ResidueDecides(WordSum(before) + w + WordSum(after), WordSum(before) + v + WordSum(after));
    WordsCongruent(w, v);
  }
}
