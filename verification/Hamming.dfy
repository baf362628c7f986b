/**
 The code behind the payload buffers: an extended Hamming code over 64 data bits, seven
 check bits and one parity bit, as its encoder and its repair compute it.
 */
module Hamming {
  import opened Bytes
  import opened PayloadEcc
  import Relay

  // -- bits

  function BitsOf(x: nat, n: nat): (s: seq<bool>)
    ensures |s| == n
  {
    if n == 0 then [] else [x % 2 == 1] + BitsOf(x / 2, n - 1)
  }

  function ValueOf(s: seq<bool>): (v: nat)
    ensures v < Pow2(|s|)
  {
    if s == [] then 0 else (if s[0] then 1 else 0) + 2 * ValueOf(s[1..])
  }

  lemma {:induction false} BitsOfValue(s: seq<bool>)
    ensures BitsOf(ValueOf(s), |s|) == s
  {
    if s != [] {
      BitsOfValue(s[1..]);
      assert s == [s[0]] + s[1..];
    }
  }

  lemma {:induction false} ValueOfBits(x: nat, n: nat)
    requires x < Pow2(n)
    ensures ValueOf(BitsOf(x, n)) == x
  {
    if n > 0 {
      ValueOfBits(x / 2, n - 1);
      assert BitsOf(x, n)[1..] == BitsOf(x / 2, n - 1);
    }
  }

  function WordBits(w: seq<byte>): (s: seq<bool>)
    ensures |s| == 8 * |w|
  {
    if w == [] then [] else BitsOf(w[0], 8) + WordBits(w[1..])
  }

  /** All 72 bits: data, check bits, parity bit. */
  function CodeBits(c: Codeword): (s: seq<bool>)
    ensures |s| == 72
  {
    WordBits(c.word) + BitsOf(c.code, 8)
  }

  // -- distance

  function Ham(a: seq<bool>, b: seq<bool>): nat
    requires |a| == |b|
  {
    if a == [] then 0 else (if a[0] == b[0] then 0 else 1) + Ham(a[1..], b[1..])
  }

  lemma {:induction false} HamConcat(a: seq<bool>, b: seq<bool>, c: seq<bool>, d: seq<bool>)
    requires |a| == |c| && |b| == |d|
    ensures Ham(a + b, c + d) == Ham(a, c) + Ham(b, d)
  {
    if a == [] {
      assert a + b == b && c + d == d;
    } else {
      assert (a + b)[1..] == a[1..] + b && (c + d)[1..] == c[1..] + d;
      HamConcat(a[1..], b, c[1..], d);
    }
  }

  lemma {:induction false} BitDistanceIsHam(x: nat, y: nat, n: nat)
    ensures BitDistance(x, y, n) == Ham(BitsOf(x, n), BitsOf(y, n))
  {
    if n > 0 {
      BitDistanceIsHam(x / 2, y / 2, n - 1);
      assert BitsOf(x, n)[1..] == BitsOf(x / 2, n - 1) && BitsOf(y, n)[1..] == BitsOf(y / 2, n - 1);
    }
  }

  lemma {:induction false} WordDistanceIsHam(a: seq<byte>, b: seq<byte>)
    requires |a| == |b|
    ensures WordDistance(a, b) == Ham(WordBits(a), WordBits(b))
  {
    hide BitsOf, BitDistance, Ham;
    if a != [] {
      BitDistanceIsHam(a[0], b[0], 8);
      WordDistanceIsHam(a[1..], b[1..]);
      HamConcat(BitsOf(a[0], 8), WordBits(a[1..]), BitsOf(b[0], 8), WordBits(b[1..]));
    } else {
      NothingApart();
    }
  }

  lemma NothingApart()
    ensures Ham([], []) == 0
  {
  }

  lemma DistanceIsHam(c: Codeword, d: Codeword)
    ensures Distance(c, d) == Ham(CodeBits(c), CodeBits(d))
  {
    hide BitsOf, BitDistance, Ham, WordBits, WordDistance;
    WordDistanceIsHam(c.word, d.word);
    BitDistanceIsHam(c.code, d.code, 8);
    HamConcat(WordBits(c.word), BitsOf(c.code, 8), WordBits(d.word), BitsOf(d.code, 8));
  }

  lemma {:induction false} HamZero(a: seq<bool>, b: seq<bool>)
    requires |a| == |b|
    ensures Ham(a, b) == 0 <==> a == b
  {
    if a != [] {
      HamZero(a[1..], b[1..]);
      assert a == [a[0]] + a[1..] && b == [b[0]] + b[1..];
    }
  }

  lemma CodeBitsAreInjective(c: Codeword, d: Codeword)
    requires CodeBits(c) == CodeBits(d)
    ensures c == d
  {
    hide CodeBits, Ham, Distance;
    DistanceIsHam(c, d);
    HamZero(CodeBits(c), CodeBits(d));
    DistanceZero(c, d);
  }

  // -- flips

  function Flip(s: seq<bool>, p: nat): (r: seq<bool>)
    requires p < |s|
    ensures |r| == |s|
  {
    s[p := !s[p]]
  }

  lemma {:induction false} OneFlip(a: seq<bool>, b: seq<bool>) returns (p: nat)
    requires |a| == |b| && Ham(a, b) == 1
    ensures p < |a| && b == Flip(a, p)
  {
    assert a == [a[0]] + a[1..] && b == [b[0]] + b[1..];
    if a[0] != b[0] {
      HamZero(a[1..], b[1..]);
      p := 0;
    } else {
      var q := OneFlip(a[1..], b[1..]);
      p := q + 1;
      assert Flip(a, p) == [a[0]] + Flip(a[1..], q);
    }
  }

  lemma {:induction false} TwoFlips(a: seq<bool>, b: seq<bool>) returns (p: nat, q: nat)
    requires |a| == |b| && Ham(a, b) == 2
    ensures p < q < |a| && b == Flip(Flip(a, p), q)
  {
    assert a == [a[0]] + a[1..] && b == [b[0]] + b[1..];
    if a[0] != b[0] {
      var r := OneFlip(a[1..], b[1..]);
      p, q := 0, r + 1;
      assert Flip(a, 0) == [!a[0]] + a[1..];
      assert Flip(Flip(a, p), q) == [!a[0]] + Flip(a[1..], r);
    } else {
      var r, t := TwoFlips(a[1..], b[1..]);
      p, q := r + 1, t + 1;
      assert Flip(a, p) == [a[0]] + Flip(a[1..], r);
      assert Flip(Flip(a, p), q) == [a[0]] + Flip(Flip(a[1..], r), t);
    }
  }

  // -- parity under a selection of positions

  function Par(select: nat -> bool, s: seq<bool>, k: nat): bool {
    if s == [] then false else (select(k) && s[0]) != Par(select, s[1..], k + 1)
  }

  lemma {:induction false} ParFlip(select: nat -> bool, s: seq<bool>, k: nat, p: nat)
    requires p < |s|
    ensures Par(select, Flip(s, p), k) == (Par(select, s, k) != select(k + p))
  {
    if p == 0 {
      assert Flip(s, p)[1..] == s[1..];
    } else {
      assert Flip(s, p)[1..] == Flip(s[1..], p - 1);
      ParFlip(select, s[1..], k + 1, p - 1);
    }
  }

  lemma {:induction false} ParConcat(select: nat -> bool, a: seq<bool>, b: seq<bool>, k: nat)
    ensures Par(select, a + b, k) == (Par(select, a, k) != Par(select, b, k + |a|))
  {
    if a == [] {
      assert a + b == b;
    } else {
      assert (a + b)[1..] == a[1..] + b;
      ParConcat(select, a[1..], b, k + 1);
    }
  }

  lemma {:induction false} ParOfNone(select: nat -> bool, s: seq<bool>, k: nat)
    requires forall p: nat :: k <= p < k + |s| ==> !select(p)
    ensures !Par(select, s, k)
  {
    if s != [] {
      ParOfNone(select, s[1..], k + 1);
    }
  }

  /** A selection of one position reads that bit. */
  lemma {:induction false} ParOfOne(select: nat -> bool, s: seq<bool>, k: nat, t: nat)
    requires k <= t < k + |s| && forall p: nat :: k <= p < k + |s| ==> (select(p) <==> p == t)
    ensures Par(select, s, k) == s[t - k]
  {
    if t == k {
      ParOfNone(select, s[1..], k + 1);
    } else {
      ParOfOne(select, s[1..], k + 1, t);
    }
  }

  // -- positions

  predicate IsPower(p: nat) {
    p == 1 || p == 2 || p == 4 || p == 8 || p == 16 || p == 32 || p == 64
  }

  /** The Hamming position of a data bit: the next one that is not a power of two. */
  function Pos(i: nat): nat {
    i + (if i < 1 then 3 else if i < 4 then 4 else if i < 11 then 5 else if i < 26 then 6 else if i < 57 then 7 else 8)
  }

  function Next(pos: nat): nat {
    if IsPower(pos + 1) then pos + 2 else pos + 1
  }

  lemma PosFacts(i: nat)
    requires i < 64
    ensures 3 <= Pos(i) <= 71 && !IsPower(Pos(i))
    ensures i < 63 ==> Pos(i + 1) == Next(Pos(i))
    ensures forall j: nat :: i < j < 64 ==> Pos(i) < Pos(j)
  {
  }

  /** The counting loop of the repair: which data bit stands at a position. */
  function DataIndexFrom(target: nat, pos: nat, index: nat): Option<nat>
    decreases 72 - pos
  {
    if pos > 71 then None
    else if IsPower(pos) then DataIndexFrom(target, pos + 1, index)
    else if pos == target then Some(index)
    else DataIndexFrom(target, pos + 1, index + 1)
  }

  method FindDataIndex(target: nat) returns (found: Option<nat>)
    ensures found == DataIndexFrom(target, 1, 0)
  {
    var index := 0;
    for pos := 1 to 72
      invariant DataIndexFrom(target, 1, 0) == DataIndexFrom(target, pos, index)
    {
      if IsPower(pos) {
        continue;
      }
      if pos == target {
        return Some(index);
      }
      index := index + 1;
    }
    return None;
  }

  lemma {:induction false} DataIndexFinds(i: nat, k: nat)
    requires k <= i < 64
    ensures DataIndexFrom(Pos(i), Pos(k), k) == Some(i)
    decreases i - k
  {
    PosFacts(i);
    PosFacts(k);
    if k < i {
      DataIndexFinds(i, k + 1);
      assert Pos(k + 1) <= Pos(i);
    }
  }

  lemma DataIndexOfPosition(i: nat)
    requires i < 64
    ensures DataIndexFrom(Pos(i), 1, 0) == Some(i)
  {
    DataIndexFinds(i, 0);
    assert DataIndexFrom(Pos(i), 2, 0) == DataIndexFrom(Pos(i), 3, 0);
  }

  // -- the encoder

  function Mask(j: nat): bv64 {
    match j
    case 0 => 0xab55555556aaad5b
    case 1 => 0xcd9999999b33366d
    case 2 => 0xf1e1e1e1e3c3c78e
    case 3 => 0x01fe01fe03fc07f0
    case 4 => 0x01fffe0003fff800
    case 5 => 0x01fffffffc000000
    case _ => 0xfe00000000000000
  }

  predicate MaskBit(m: bv64, i: bv8)
    requires i < 64
  {
    (m >> i) & 1 == 1
  }

  /** The parity of `data & mask`, from bit `i` on. */
  function MaskedParity(s: seq<bool>, m: bv64, i: bv8): bool
    requires i as nat + |s| <= 64
  {
    if s == [] then false else (s[0] && MaskBit(m, i)) != MaskedParity(s[1..], m, i + 1)
  }

  function Parity(s: seq<bool>): bool {
    if s == [] then false else s[0] != Parity(s[1..])
  }

  function CheckBits(w: Word): (h: seq<bool>)
    ensures |h| == 7
  {
    seq(7, j requires 0 <= j < 7 => MaskedParity(WordBits(w), Mask(j), 0))
  }

  function CodeOf(w: Word): (e: seq<bool>)
    ensures |e| == 8
  {
    CheckBits(w) + [Parity(WordBits(w)) != Parity(CheckBits(w))]
  }

  function Encode(w: Word): byte {
    assert Pow2(8) == 256;
    ValueOf(CodeOf(w))
  }

  lemma EncodeBits(w: Word)
    ensures BitsOf(Encode(w), 8) == CodeOf(w)
  {
    BitsOfValue(CodeOf(w));
  }

  // -- the masks select Hamming positions

  /** The weight of a check bit in a position's number. */
  function Weight(j: nat): (w: nat)
    ensures w > 0
  {
    match j
    case 0 => 1
    case 1 => 2
    case 2 => 4
    case 3 => 8
    case 4 => 16
    case 5 => 32
    case _ => 64
  }

  /** `Pos` on eight bits. */
  function PosBits(i: bv8): bv8 {
    i + (if i < 1 then 3 else if i < 4 then 4 else if i < 11 then 5 else if i < 26 then 6 else if i < 57 then 7 else 8)
  }

  predicate HasWeight(x: bv8, j: nat) {
    match j
    case 0 => x & 1 != 0
    case 1 => x & 2 != 0
    case 2 => x & 4 != 0
    case 3 => x & 8 != 0
    case 4 => x & 16 != 0
    case 5 => x & 32 != 0
    case _ => x & 64 != 0
  }

  /** Each of the seven constants has the bits of exactly the data whose position has its weight. */
  lemma MasksArePositions(i: bv8, j: nat)
    requires i < 64 && j < 7
    ensures ((Mask(j) >> i) & 1 == 1) <==> HasWeight(PosBits(i), j)
  {
    match j
    case 0 =>
    case 1 =>
    case 2 =>
    case 3 =>
    case 4 =>
    case 5 =>
    case 6 =>
  }

  lemma PosOfBits(i: bv8)
    requires i < 64
    ensures PosBits(i) as nat == Pos(i as nat) && PosBits(i) < 128
  {
  }

  lemma Weight2(x: bv8)
    requires x < 128
    ensures x & 2 != 0 <==> ((x as nat) / 2) % 2 == 1
  {
  }

  lemma Weight4(x: bv8)
    requires x < 128
    ensures x & 4 != 0 <==> ((x as nat) / 4) % 2 == 1
  {
  }

  lemma Weight8(x: bv8)
    requires x < 128
    ensures x & 8 != 0 <==> ((x as nat) / 8) % 2 == 1
  {
  }

  lemma Weight16(x: bv8)
    requires x < 128
    ensures x & 16 != 0 <==> ((x as nat) / 16) % 2 == 1
  {
  }

  lemma Weight32(x: bv8)
    requires x < 128
    ensures x & 32 != 0 <==> ((x as nat) / 32) % 2 == 1
  {
  }

  lemma Weight64(x: bv8)
    requires x < 128
    ensures x & 64 != 0 <==> ((x as nat) / 64) % 2 == 1
  {
  }

  lemma WeightOfNumber(x: bv8, j: nat)
    requires x < 128 && j < 7
    ensures HasWeight(x, j) <==> ((x as nat) / Weight(j)) % 2 == 1
  {
    match j
    case 0 =>
    case 1 => Weight2(x);
    case 2 => Weight4(x);
    case 3 => Weight8(x);
    case 4 => Weight16(x);
    case 5 => Weight32(x);
    case 6 => Weight64(x);
  }

  lemma MaskSelects(j: nat, i: bv8)
    requires j < 7 && i < 64
    ensures MaskBit(Mask(j), i) == ((Pos(i as nat) / Weight(j)) % 2 == 1)
  {
    hide Pos, PosBits, Mask, HasWeight, Weight;
    PosOfBits(i);
    MasksArePositions(i, j);
    WeightOfNumber(PosBits(i), j);
  }

  lemma NextIndex(i: bv8)
    requires i < 64
    ensures (i + 1) as nat == i as nat + 1
  {
  }

  // -- checks over all 72 bits

  /** The bits that check `j` covers: data by position, and check bit `j` itself. */
  function Covers(j: nat): nat -> bool {
    (p: nat) => if p < 64 then (Pos(p) / Weight(j)) % 2 == 1 else p == 64 + j
  }

  function Every(): nat -> bool {
    (p: nat) => true
  }

  lemma {:induction false} MaskedIsPar(s: seq<bool>, j: nat, i: bv8)
    requires j < 7 && i as nat + |s| <= 64
    ensures MaskedParity(s, Mask(j), i) == Par(Covers(j), s, i as nat)
    decreases |s|
  {
    hide Mask, MaskBit, Pos, Weight;
    if s != [] {
      MaskSelects(j, i);
      NextIndex(i);
      MaskedIsPar(s[1..], j, i + 1);
    }
  }

  lemma {:induction false} ParityIsPar(s: seq<bool>, k: nat)
    ensures Parity(s) == Par(Every(), s, k)
  {
    if s != [] {
      ParityIsPar(s[1..], k + 1);
    }
  }

  /** A check over a codeword compares the check bit that the data asks for with the one there. */
  lemma CheckCompares(c: Codeword, j: nat)
    requires j < 7
    ensures Par(Covers(j), CodeBits(c), 0) == (CheckBits(c.word)[j] != BitsOf(c.code, 8)[j])
  {
    hide Par, MaskedParity, WordBits, BitsOf, Mask, Pos, Weight;
    var d, e := WordBits(c.word), BitsOf(c.code, 8);
    ParConcat(Covers(j), d, e, 0);
    MaskedIsPar(d, j, 0);
    ParOfOne(Covers(j), e, 64, 64 + j);
  }

  lemma ParityOfCode(c: Codeword)
    ensures Par(Every(), CodeBits(c), 0)
         == ((Parity(WordBits(c.word)) != Parity(BitsOf(c.code, 8)[..7])) != BitsOf(c.code, 8)[7])
  {
    hide Par, WordBits, BitsOf;
    var d, e := WordBits(c.word), BitsOf(c.code, 8);
    ParConcat(Every(), d, e, 0);
    assert e == e[..7] + [e[7]];
    ParConcat(Every(), e[..7], [e[7]], 64);
    ParityIsPar(d, 0);
    ParityIsPar(e[..7], 64);
    ParityIsPar([e[7]], 71);
    assert Parity([e[7]]) == e[7];
  }

  // -- the repair

  function Syndrome(c: Codeword): (s: seq<bool>)
    ensures |s| == 7
  {
    seq(7, j requires 0 <= j < 7 => BitsOf(Encode(c.word), 8)[j] != BitsOf(c.code, 8)[j])
  }

  function OverallError(c: Codeword): bool {
    var e := BitsOf(c.code, 8);
    (Parity(WordBits(c.word)) != Parity(e[..7])) != e[7]
  }

  function FlipWord(w: Word, i: nat): Word
    requires i < 64
  {
    assert Pow2(8) == 256;
    w[i / 8 := ValueOf(Flip(BitsOf(w[i / 8], 8), i % 8))]
  }

  function RepairWord(c: Codeword): Repaired {
    var s := ValueOf(Syndrome(c));
    if s == 0 && !OverallError(c) then Clean
    else if s == 0 then Corrected(c.(code := Encode(c.word)))
    else if !OverallError(c) then Uncorrectable
    else if s > 71 then Uncorrectable
    else if IsPower(s) then Corrected(c.(code := Encode(c.word)))
    else
      match DataIndexFrom(s, 1, 0)
      case None => Uncorrectable
      case Some(i) =>
        if i >= 64 then Uncorrectable
        else Corrected(Codeword(FlipWord(c.word, i), Encode(FlipWord(c.word, i))))
  }

  /** The code as the payload buffers use it. */
  function Llps(): Secded {
    Secded((w: Word) => Encode(w), (c: Codeword) => RepairWord(c))
  }

  lemma SyndromeIsChecks(c: Codeword, j: nat)
    requires j < 7
    ensures Syndrome(c)[j] == Par(Covers(j), CodeBits(c), 0)
  {
    hide Par, BitsOf, WordBits, Encode, CheckBits;
    EncodeBits(c.word);
    CheckCompares(c, j);
  }

  lemma OverallIsParity(c: Codeword)
    ensures OverallError(c) == Par(Every(), CodeBits(c), 0)
  {
    ParityOfCode(c);
  }

  /** A sealed word passes every check. */
  lemma SealedPasses(w: Word)
    ensures forall j :: 0 <= j < 7 ==> !Syndrome(Codeword(w, Encode(w)))[j]
    ensures !OverallError(Codeword(w, Encode(w)))
  {
    hide BitsOf, WordBits, Encode, CheckBits;
    EncodeBits(w);
    assert CodeOf(w)[..7] == CheckBits(w);
  }

  // -- columns

  /** What a flip of one bit adds to the syndrome. */
  function Column(p: nat): nat {
    if p < 64 then Pos(p) else if p < 71 then Weight(p - 64) else 0
  }

  lemma ColumnsDiffer(p: nat, q: nat)
    requires p < q < 72
    ensures Column(p) != Column(q)
  {
    if p < 64 {
      PosFacts(p);
      if q < 64 {
        PosFacts(q);
      }
    }
  }

  lemma BitsOfSeven(x: nat, j: nat)
    requires x < 128 && j < 7
    ensures BitsOf(x, 7)[j] == ((x / Weight(j)) % 2 == 1)
  {
    BitsShift(x, 7, j);
    HalvesDivide(x, j);
  }

  function Halve(x: nat, j: nat): nat {
    if j == 0 then x else Halve(x / 2, j - 1)
  }

  lemma {:induction false} HalveNext(x: nat, j: nat)
    ensures Halve(x, j + 1) == Halve(x, j) / 2
  {
    if j > 0 {
      HalveNext(x / 2, j - 1);
    }
  }

  lemma {:induction false} HalvesDivide(x: nat, j: nat)
    requires j < 7
    ensures Halve(x, j) == x / Weight(j)
  {
    if j > 0 {
      HalvesDivide(x, j - 1);
      HalveNext(x, j - 1);
      hide Halve;
      NextWeight(x, j);
    }
  }

  lemma NextWeight(x: nat, j: nat)
    requires 0 < j < 7
    ensures (x / Weight(j - 1)) / 2 == x / Weight(j)
  {
    match j
    case 1 =>
    case 2 =>
    case 3 =>
    case 4 =>
    case 5 =>
    case 6 =>
  }

  lemma {:induction false} BitsShift(x: nat, n: nat, j: nat)
    requires j < n
    ensures BitsOf(x, n)[j] == (Halve(x, j) % 2 == 1)
  {
    if j > 0 {
      BitsShift(x / 2, n - 1, j - 1);
    }
  }

  lemma WeightBits(t: nat, j: nat)
    requires t < 7 && j < 7
    ensures ((Weight(t) / Weight(j)) % 2 == 1) <==> t == j
  {
  }

  lemma ColumnBits(p: nat, j: nat)
    requires p < 72 && j < 7
    ensures Column(p) < 128 && BitsOf(Column(p), 7)[j] == Covers(j)(p)
  {
    if p < 64 {
      PosFacts(p);
    }
    BitsOfSeven(Column(p), j);
    if 64 <= p < 71 {
      WeightBits(p - 64, j);
    } else if p == 71 {
      assert (0 / Weight(j)) % 2 == 0;
    }
  }

  // -- the contract

  /** After one flip of a sealed word, the syndrome is the flipped bit's column. */
  lemma SyndromeOfFlip(w: Word, c: Codeword, p: nat)
    requires p < 72 && CodeBits(c) == Flip(CodeBits(Codeword(w, Encode(w))), p)
    ensures ValueOf(Syndrome(c)) == Column(p) && OverallError(c)
  {
    hide Par, CodeBits, Encode, Syndrome, OverallError, Covers, Column, BitsOf, Flip;
    var sealed := Codeword(w, Encode(w));
    SealedPasses(w);
    ColumnBits(p, 0);
    forall j | 0 <= j < 7 ensures Syndrome(c)[j] == BitsOf(Column(p), 7)[j] {
      SyndromeIsChecks(sealed, j);
      SyndromeIsChecks(c, j);
      ParFlip(Covers(j), CodeBits(sealed), 0, p);
      ColumnBits(p, j);
    }
    assert Syndrome(c) == BitsOf(Column(p), 7);
    assert Pow2(7) == 128;
    ValueOfBits(Column(p), 7);
    OverallIsParity(sealed);
    OverallIsParity(c);
    ParFlip(Every(), CodeBits(sealed), 0, p);
  }

  /** After two, it is not zero, and the overall parity is right again. */
  lemma SyndromeOfTwo(w: Word, c: Codeword, p: nat, q: nat)
    requires p < q < 72 && CodeBits(c) == Flip(Flip(CodeBits(Codeword(w, Encode(w))), p), q)
    ensures ValueOf(Syndrome(c)) != 0 && !OverallError(c)
  {
    hide Par, CodeBits, Encode, Syndrome, OverallError, Covers, Column, BitsOf, Flip, ValueOf;
    var sealed := Codeword(w, Encode(w));
    var once := Flip(CodeBits(sealed), p);
    SealedPasses(w);
    ColumnsDiffer(p, q);
    ColumnBits(p, 0);
    ColumnBits(q, 0);
    var j := DifferingBit(Column(p), Column(q));
    SyndromeIsChecks(sealed, j);
    SyndromeIsChecks(c, j);
    ParFlip(Covers(j), CodeBits(sealed), 0, p);
    ParFlip(Covers(j), once, 0, q);
    ColumnBits(p, j);
    ColumnBits(q, j);
    SetBitIsNotZero(Syndrome(c), j);
    OverallIsParity(sealed);
    OverallIsParity(c);
    ParFlip(Every(), CodeBits(sealed), 0, p);
    ParFlip(Every(), once, 0, q);
  }

  lemma DifferingBit(x: nat, y: nat) returns (j: nat)
    requires x < 128 && y < 128 && x != y
    ensures j < 7 && BitsOf(x, 7)[j] != BitsOf(y, 7)[j]
  {
    assert Pow2(7) == 128;
    ValueOfBits(x, 7);
    ValueOfBits(y, 7);
    hide BitsOf, ValueOf;
    assert BitsOf(x, 7) != BitsOf(y, 7);
    j :| 0 <= j < 7 && BitsOf(x, 7)[j] != BitsOf(y, 7)[j];
  }

  lemma {:induction false} SetBitIsNotZero(s: seq<bool>, j: nat)
    requires j < |s| && s[j]
    ensures ValueOf(s) != 0
  {
    if j > 0 {
      SetBitIsNotZero(s[1..], j - 1);
    }
  }

  lemma {:induction false} WordBitsUpdate(w: seq<byte>, k: nat, b: byte, t: nat)
    requires k < |w| && t < 8 && BitsOf(b, 8) == Flip(BitsOf(w[k], 8), t)
    ensures WordBits(w[k := b]) == Flip(WordBits(w), 8 * k + t)
  {
    hide BitsOf;
    if k == 0 {
      assert w[0 := b][1..] == w[1..];
    } else {
      assert w[k := b][1..] == w[1..][k - 1 := b];
      WordBitsUpdate(w[1..], k - 1, b, t);
    }
  }

  lemma FlipWordBits(w: Word, i: nat)
    requires i < 64
    ensures WordBits(FlipWord(w, i)) == Flip(WordBits(w), i)
  {
    hide BitsOf, WordBits, ValueOf;
    BitsOfValue(Flip(BitsOf(w[i / 8], 8), i % 8));
    WordBitsUpdate(w, i / 8, FlipWord(w, i)[i / 8], i % 8);
  }

  /** Flipping a flipped data bit back gives the word again. */
  lemma FlipBack(w: Word, c: Codeword, i: nat)
    requires i < 64 && CodeBits(c) == Flip(CodeBits(Codeword(w, Encode(w))), i)
    ensures FlipWord(c.word, i) == w
  {
    hide BitsOf, WordBits, Encode, FlipWord;
    var back := Codeword(FlipWord(c.word, i), c.code);
    FlipWordBits(c.word, i);
    var sealed := Codeword(w, Encode(w));
    assert CodeBits(c)[..64] == WordBits(c.word) && CodeBits(c)[64..] == BitsOf(c.code, 8);
    assert CodeBits(back) == Flip(CodeBits(c), i);
    assert CodeBits(back) == CodeBits(sealed);
    CodeBitsAreInjective(back, sealed);
  }

  /** Flipping a bit of the code leaves the data alone. */
  lemma CodeFlip(w: Word, c: Codeword, p: nat)
    requires 64 <= p < 72 && CodeBits(c) == Flip(CodeBits(Codeword(w, Encode(w))), p)
    ensures c.word == w
  {
    hide BitsOf, WordBits, Encode;
    var sealed := Codeword(w, Encode(w));
    assert CodeBits(c)[..64] == WordBits(c.word) && CodeBits(sealed)[..64] == WordBits(w);
    var same := Codeword(c.word, sealed.code);
    assert CodeBits(same) == CodeBits(sealed);
    CodeBitsAreInjective(same, sealed);
  }

  lemma RepairsNothing(w: Word)
    ensures RepairWord(Codeword(w, Encode(w))) == Clean
  {
    hide Encode, Syndrome, OverallError;
    SealedPasses(w);
    AllClear(Syndrome(Codeword(w, Encode(w))));
  }

  lemma {:induction false} AllClear(s: seq<bool>)
    requires forall j :: 0 <= j < |s| ==> !s[j]
    ensures ValueOf(s) == 0
  {
    if s != [] {
      AllClear(s[1..]);
    }
  }

  lemma RepairsOne(w: Word, c: Codeword)
    requires Distance(Codeword(w, Encode(w)), c) == 1
    ensures RepairWord(c) == Corrected(Codeword(w, Encode(w)))
  {
    hide Encode, Syndrome, OverallError, CodeBits, Distance, Ham, FlipWord, DataIndexFrom, Flip;
    var sealed := Codeword(w, Encode(w));
    DistanceIsHam(sealed, c);
    var p := OneFlip(CodeBits(sealed), CodeBits(c));
    SyndromeOfFlip(w, c, p);
    if p < 64 {
      PosFacts(p);
      DataIndexOfPosition(p);
      FlipBack(w, c, p);
    } else {
      CodeFlip(w, c, p);
    }
  }

  lemma ReportsTwo(w: Word, c: Codeword)
    requires Distance(Codeword(w, Encode(w)), c) == 2
    ensures RepairWord(c) == Uncorrectable
  {
    hide Encode, Syndrome, OverallError, CodeBits, Distance, Ham, FlipWord, DataIndexFrom, Flip;
    var sealed := Codeword(w, Encode(w));
    DistanceIsHam(sealed, c);
    var p, q := TwoFlips(CodeBits(sealed), CodeBits(c));
    SyndromeOfTwo(w, c, p, q);
  }

  /**
   The code of the repository meets the contract that sealing and repairing rely on: no flip
   is clean, one anywhere in data or code is corrected to the sealed word, two are reported.
   */
  lemma CodeIsSound()
    ensures Llps().Sound()
  {
    hide Encode, RepairWord, Distance;
    forall w: Word, c: Codeword
      ensures var sealed := Llps().Sealed(w);
              && (Distance(sealed, c) == 0 ==> Llps().repair(c) == Clean)
              && (Distance(sealed, c) == 1 ==> Llps().repair(c) == Corrected(sealed))
              && (Distance(sealed, c) == 2 ==> Llps().repair(c) == Uncorrectable)
    {
      var sealed := Codeword(w, Encode(w));
      assert Llps().Sealed(w) == sealed;
      if Distance(sealed, c) == 0 {
        DistanceZero(sealed, c);
        RepairsNothing(w);
      } else if Distance(sealed, c) == 1 {
        RepairsOne(w, c);
      } else if Distance(sealed, c) == 2 {
        ReportsTwo(w, c);
      }
    }
  }

  /** The relay with this code: nothing about it is taken on trust. */
  lemma RelayWithThisCode(ecc: bool, cap: nat, labels: seq<Relay.Label>, preface: bool, flips: nat)
    requires 0 < cap <= BUFFER_SIZE && flips <= 2
    requires Relay.Run(Relay.Config(Llps(), ecc, cap), labels, preface, flips).Some?
    ensures var s := Relay.Run(Relay.Config(Llps(), ecc, cap), labels, preface, flips).value;
            && Relay.Faithful(s.toServer) && Relay.Recorded(s.toServer, Relay.ActionsOf(labels, true))
            && Relay.Faithful(s.toClient) && Relay.Recorded(s.toClient, Relay.ActionsOf(labels, false))
  {
    CodeIsSound();
    Relay.StreamIsPreserved(Relay.Config(Llps(), ecc, cap), labels, preface, flips);
  }
}
