/**
 Shadow SECDED codes over a payload buffer: eight-byte words, one code byte each.
 The code itself is a parameter with the contract of its header: at most one flipped
 bit in data plus code is restored, two are reported.
 */
module PayloadEcc {
  import opened Bytes

  const WORD_COUNT_MAX: nat := 512

  /** A 64-bit word, written as its bytes, least significant first. */
  type Word = w: seq<byte> | |w| == 8 witness [0, 0, 0, 0, 0, 0, 0, 0]

  datatype Codeword = Codeword(word: Word, code: byte)

  // -- distance in bits

  /** The number of bits, among the low `n`, in which two numbers differ. */
  function BitDistance(x: nat, y: nat, n: nat): nat {
    if n == 0 then 0
    else (if x % 2 == y % 2 then 0 else 1) + BitDistance(x / 2, y / 2, n - 1)
  }

  function Pow2(n: nat): nat {
    if n == 0 then 1 else 2 * Pow2(n - 1)
  }

  lemma {:induction false} BitDistanceZero(x: nat, y: nat, n: nat)
    requires x < Pow2(n) && y < Pow2(n)
    ensures BitDistance(x, y, n) == 0 <==> x == y
  {
    if n > 0 {
      BitDistanceZero(x / 2, y / 2, n - 1);
    }
  }

  function ByteDistance(x: byte, y: byte): nat {
    BitDistance(x, y, 8)
  }

  lemma ByteDistanceZero(x: byte, y: byte)
    ensures ByteDistance(x, y) == 0 <==> x == y
  {
    BitDistanceZero(x, y, 8);
  }

  function WordDistance(a: seq<byte>, b: seq<byte>): nat
    requires |a| == |b|
  {
    if a == [] then 0 else ByteDistance(a[0], b[0]) + WordDistance(a[1..], b[1..])
  }

  lemma {:induction false} WordDistanceZero(a: seq<byte>, b: seq<byte>)
    requires |a| == |b|
    ensures WordDistance(a, b) == 0 <==> a == b
  {
    hide ByteDistance;
    if a != [] {
      ByteDistanceZero(a[0], b[0]);
      WordDistanceZero(a[1..], b[1..]);
      assert a == [a[0]] + a[1..] && b == [b[0]] + b[1..];
    }
  }

  /** The number of bits in which two codewords differ. */
  function Distance(a: Codeword, b: Codeword): nat {
    WordDistance(a.word, b.word) + ByteDistance(a.code, b.code)
  }

  lemma DistanceZero(a: Codeword, b: Codeword)
    ensures Distance(a, b) == 0 <==> a == b
  {
    hide WordDistance, ByteDistance;
    WordDistanceZero(a.word, b.word);
    ByteDistanceZero(a.code, b.code);
  }

  // -- the code

  datatype Repaired = Clean | Corrected(fixed: Codeword) | Uncorrectable

  datatype Secded = Secded(encode: Word -> byte, repair: Codeword -> Repaired) {

    function Sealed(w: Word): Codeword {
      Codeword(w, encode(w))
    }

    /** The contract: zero flips are clean, one is corrected, two are reported. */
    ghost predicate Sound() {
      forall w: Word, c: Codeword ::
        && (Distance(Sealed(w), c) == 0 ==> repair(c) == Clean)
        && (Distance(Sealed(w), c) == 1 ==> repair(c) == Corrected(Sealed(w)))
        && (Distance(Sealed(w), c) == 2 ==> repair(c) == Uncorrectable)
    }
  }

  // -- words of a buffer

  function WordCount(len: nat): nat {
    (len + 7) / 8
  }

  /** Whole words, cut off at the capacity when that is not a multiple of eight. */
  function ProtectedLen(len: nat, cap: nat): nat {
    if WordCount(len) * 8 > cap then cap else WordCount(len) * 8
  }

  function LoadWord(buf: seq<byte>, plen: nat, i: nat): Word
    requires plen <= |buf|
  {
    seq(8, j requires 0 <= j < 8 => if 8 * i + j < plen then buf[8 * i + j] else 0)
  }

  function StoreWord(buf: seq<byte>, plen: nat, i: nat, w: Word): (r: seq<byte>)
    requires plen <= |buf|
  {
    seq(|buf|, p requires 0 <= p < |buf| =>
      if 8 * i <= p < 8 * i + 8 && p < plen then w[p - 8 * i] else buf[p])
  }

  function ZeroPadded(buf: seq<byte>, len: nat, plen: nat): seq<byte> {
    seq(|buf|, p requires 0 <= p < |buf| => if len <= p < plen then 0 else buf[p])
  }

  // -- memory images

  /** One direction's buffer and its shadow codes. */
  datatype Image = Image(buf: seq<byte>, ecc: seq<byte>)

  /** The sizes under which sealing and repairing are defined. */
  predicate Fits(img: Image, len: nat, cap: nat) {
    len <= cap <= |img.buf| && cap <= BUFFER_SIZE
    && WordCount(len) <= |img.ecc| <= WORD_COUNT_MAX
  }

  function At(img: Image, len: nat, cap: nat, i: nat): Codeword
    requires Fits(img, len, cap) && i < WordCount(len)
  {
    Codeword(LoadWord(img.buf, ProtectedLen(len, cap), i), img.ecc[i])
  }

  function SealedCode(code: Secded, buf: seq<byte>, len: nat, plen: nat, i: nat): byte
    requires plen <= |buf|
  {
    if i < WordCount(len) then code.encode(LoadWord(buf, plen, i)) else 0
  }

  /** The image that sealing leaves. */
  function Seal(code: Secded, img: Image, len: nat, cap: nat): Image
    requires Fits(img, len, cap)
  {
    var buf := ZeroPadded(img.buf, len, ProtectedLen(len, cap));
    Image(buf, seq(|img.ecc|, i requires 0 <= i < |img.ecc| =>
      SealedCode(code, buf, len, ProtectedLen(len, cap), i)))
  }

  datatype RepairResult = RepairResult(ok: bool, img: Image)

  function Put(img: Image, len: nat, cap: nat, i: nat, fixed: Codeword): Image
    requires Fits(img, len, cap) && i < WordCount(len)
  {
    Image(StoreWord(img.buf, ProtectedLen(len, cap), i, fixed.word), img.ecc[i := fixed.code])
  }

  /** Repair of the words from `i` on; the first uncorrectable word ends it. */
  function RepairFrom(code: Secded, img: Image, len: nat, cap: nat, i: nat): (r: RepairResult)
    requires Fits(img, len, cap) && i <= WordCount(len)
    ensures |r.img.buf| == |img.buf| && |r.img.ecc| == |img.ecc|
    decreases WordCount(len) - i
  {
    if i == WordCount(len) then RepairResult(true, img)
    else
      match code.repair(At(img, len, cap, i))
      case Clean => RepairFrom(code, img, len, cap, i + 1)
      case Corrected(fixed) => RepairFrom(code, Put(img, len, cap, i, fixed), len, cap, i + 1)
      case Uncorrectable => RepairResult(false, img)
  }

  function Repair(code: Secded, img: Image, len: nat, cap: nat): (r: RepairResult)
    requires Fits(img, len, cap)
    ensures |r.img.buf| == |img.buf| && |r.img.ecc| == |img.ecc|
  {
    RepairFrom(code, img, len, cap, 0)
  }

  // -- the loops over the arrays

  method SealInPlace(code: Secded, buf: array<byte>, len: nat, cap: nat, ecc: array<byte>) returns (ok: bool)
    requires buf != ecc && cap <= buf.Length
    modifies buf, ecc
    ensures ok <==> len <= cap <= BUFFER_SIZE && WordCount(len) <= ecc.Length <= WORD_COUNT_MAX
    ensures ok ==> Image(buf[..], ecc[..]) == Seal(code, old(Image(buf[..], ecc[..])), len, cap)
    ensures !ok ==> buf[..] == old(buf[..]) && ecc[..] == old(ecc[..])
  {
    var words, plen := WordCount(len), ProtectedLen(len, cap);
    if len > cap || words > ecc.Length || ecc.Length > WORD_COUNT_MAX || cap > BUFFER_SIZE {
      return false;
    }
    for p := len to plen
      invariant buf[..] == ZeroPadded(old(buf[..]), len, p)
      invariant ecc[..] == old(ecc[..])
    {
      buf[p] := 0;
    }
    if plen <= len {
      assert buf[..] == ZeroPadded(old(buf[..]), len, plen);
    }
    ghost var padded := buf[..];
    for i := 0 to words
      invariant buf[..] == padded
      invariant forall j :: 0 <= j < i ==> ecc[j] == code.encode(LoadWord(padded, plen, j))
    {
      var word := LoadWord(buf[..], plen, i);
      ecc[i] := code.encode(word);
    }
    for i := words to ecc.Length
      invariant buf[..] == padded
      invariant forall j :: 0 <= j < words ==> ecc[j] == code.encode(LoadWord(padded, plen, j))
      invariant forall j :: words <= j < i ==> ecc[j] == 0
    {
      ecc[i] := 0;
    }
    ok := true;
  }

  method StoreInPlace(buf: array<byte>, plen: nat, i: nat, word: Word)
    requires plen <= buf.Length
    modifies buf
    ensures buf[..] == StoreWord(old(buf[..]), plen, i, word)
  {
    var j := 0;
    while j < 8 && 8 * i + j < plen
      invariant 0 <= j <= 8 && (8 * i + j <= plen || j == 0)
      invariant forall p :: 0 <= p < buf.Length ==>
        buf[p] == if 8 * i <= p < 8 * i + j && p < plen then word[p - 8 * i] else old(buf[p])
    {
      buf[8 * i + j] := word[j];
      j := j + 1;
    }
  }

  method RepairInPlace(code: Secded, buf: array<byte>, len: nat, cap: nat, ecc: array<byte>) returns (ok: bool)
    requires buf != ecc && cap <= buf.Length
    modifies buf, ecc
    ensures ok ==> len <= cap <= BUFFER_SIZE && WordCount(len) <= ecc.Length <= WORD_COUNT_MAX
    ensures if len <= cap <= BUFFER_SIZE && WordCount(len) <= ecc.Length <= WORD_COUNT_MAX
            then RepairResult(ok, Image(buf[..], ecc[..]))
              == Repair(code, old(Image(buf[..], ecc[..])), len, cap)
            else buf[..] == old(buf[..]) && ecc[..] == old(ecc[..])
  {
    hide StoreWord, LoadWord;
    var words, plen := WordCount(len), ProtectedLen(len, cap);
    if len > cap || cap > BUFFER_SIZE || words > ecc.Length || ecc.Length > WORD_COUNT_MAX {
      return false;
    }
    ghost var start := Image(buf[..], ecc[..]);
    for i := 0 to words
      invariant Repair(code, start, len, cap) == RepairFrom(code, Image(buf[..], ecc[..]), len, cap, i)
    {
      ghost var now := Image(buf[..], ecc[..]);
      match code.repair(Codeword(LoadWord(buf[..], plen, i), ecc[i]))
      case Clean =>
      case Corrected(fixed) =>
        StoreInPlace(buf, plen, i, fixed.word);
        ecc[i] := fixed.code;
        assert Image(buf[..], ecc[..]) == Put(now, len, cap, i, fixed);
      case Uncorrectable =>
        return false;
    }
    ok := true;
  }

  // -- what repair does

  /** Every codeword of `sealed` is the code of its word. */
  ghost predicate Consistent(code: Secded, sealed: Image, len: nat, cap: nat) {
    Fits(sealed, len, cap)
    && forall i {:trigger At(sealed, len, cap, i)} :: 0 <= i < WordCount(len) ==>
      At(sealed, len, cap, i) == code.Sealed(At(sealed, len, cap, i).word)
  }

  /** No codeword of `img` is more than `d` flips away from `sealed`. */
  ghost predicate Near(img: Image, sealed: Image, len: nat, cap: nat, d: nat) {
    Fits(img, len, cap) && Fits(sealed, len, cap)
    && |img.buf| == |sealed.buf| && |img.ecc| == |sealed.ecc|
    && forall i {:trigger At(img, len, cap, i)} :: 0 <= i < WordCount(len) ==>
      Distance(At(sealed, len, cap, i), At(img, len, cap, i)) <= d
  }

  /** The protected part: the words and their codes. */
  ghost predicate Agrees(img: Image, sealed: Image, len: nat, cap: nat) {
    Fits(img, len, cap) && Fits(sealed, len, cap)
    && forall i {:trigger At(img, len, cap, i)} :: 0 <= i < WordCount(len) ==>
      At(img, len, cap, i) == At(sealed, len, cap, i)
  }

  lemma SealIsConsistent(code: Secded, img: Image, len: nat, cap: nat)
    requires Fits(img, len, cap)
    ensures Consistent(code, Seal(code, img, len, cap), len, cap)
    ensures Seal(code, img, len, cap).buf[..len] == img.buf[..len]
  {
    hide LoadWord;
  }

  /** Storing a word of the sealed image changes exactly that codeword. */
  lemma PutReplacesOne(img: Image, sealed: Image, len: nat, cap: nat, i: nat, j: nat)
    requires Fits(img, len, cap) && Fits(sealed, len, cap) && |img.buf| == |sealed.buf|
    requires i < WordCount(len) && j < WordCount(len)
    ensures var put := Put(img, len, cap, i, At(sealed, len, cap, i));
            At(put, len, cap, j) == if j == i then At(sealed, len, cap, i) else At(img, len, cap, j)
  {
    var put := Put(img, len, cap, i, At(sealed, len, cap, i));
    var want := if j == i then At(sealed, len, cap, i) else At(img, len, cap, j);
    assert At(put, len, cap, j).word == want.word;
  }

  /** What repairing the words from `i` on leaves: they, and only they, are restored. */
  ghost predicate RestoredFrom(img: Image, r: RepairResult, sealed: Image, len: nat, cap: nat, i: nat) {
    && Near(img, sealed, len, cap, 2) && Near(r.img, sealed, len, cap, 2)
    && (r.ok <==> forall j {:trigger At(img, len, cap, j)} :: i <= j < WordCount(len) ==>
          Distance(At(sealed, len, cap, j), At(img, len, cap, j)) <= 1)
    && (forall j {:trigger At(r.img, len, cap, j)} :: 0 <= j < WordCount(len) ==>
          At(r.img, len, cap, j) == At(img, len, cap, j)
          || (i <= j && At(r.img, len, cap, j) == At(sealed, len, cap, j)))
    && (r.ok ==> forall j {:trigger At(r.img, len, cap, j)} :: i <= j < WordCount(len) ==>
          At(r.img, len, cap, j) == At(sealed, len, cap, j))
  }

  lemma {:induction false} RepairFromRestores(code: Secded, img: Image, sealed: Image, len: nat, cap: nat, i: nat)
    requires code.Sound() && Consistent(code, sealed, len, cap)
    requires Near(img, sealed, len, cap, 2) && i <= WordCount(len)
    ensures RestoredFrom(img, RepairFrom(code, img, len, cap, i), sealed, len, cap, i)
    decreases WordCount(len) - i
  {
    hide LoadWord, StoreWord, Distance, At, Put;
    if i < WordCount(len) {
      var want, have := At(sealed, len, cap, i), At(img, len, cap, i);
      assert code.Sealed(want.word) == want;
      DistanceZero(want, have);
      match code.repair(have) {
        case Clean =>
          RepairFromRestores(code, img, sealed, len, cap, i + 1);
        case Corrected(fixed) =>
          var put := Put(img, len, cap, i, fixed);
          DistanceZero(want, want);
          PutSizes(img, len, cap, i, fixed);
          forall j | 0 <= j < WordCount(len)
            ensures At(put, len, cap, j) == if j == i then want else At(img, len, cap, j)
          {
            PutReplacesOne(img, sealed, len, cap, i, j);
          }
          RepairFromRestores(code, put, sealed, len, cap, i + 1);
        case Uncorrectable =>
      }
    }
  }

  lemma PutSizes(img: Image, len: nat, cap: nat, i: nat, fixed: Codeword)
    requires Fits(img, len, cap) && i < WordCount(len)
    ensures |Put(img, len, cap, i, fixed).buf| == |img.buf|
    ensures |Put(img, len, cap, i, fixed).ecc| == |img.ecc|
  {
  }

  /**
   Seal, disturb, repair: with at most two flips a codeword, repair succeeds exactly
   when no codeword has two, and then every word and code is as it was sealed.  A
   failed repair corrupts nothing further.
   */
  lemma RepairRestores(code: Secded, img: Image, sealed: Image, len: nat, cap: nat)
    requires code.Sound() && Consistent(code, sealed, len, cap) && Near(img, sealed, len, cap, 2)
    ensures var r := Repair(code, img, len, cap);
            && (r.ok <==> Near(img, sealed, len, cap, 1))
            && (r.ok ==> Agrees(r.img, sealed, len, cap))
            && Near(r.img, sealed, len, cap, 2)
  {
    hide At, RepairFrom;
    RepairFromRestores(code, img, sealed, len, cap, 0);
  }

  /** Repair never takes a codeword further from its sealed form. */
  lemma RepairStaysNear(code: Secded, img: Image, sealed: Image, len: nat, cap: nat, d: nat)
    requires code.Sound() && Consistent(code, sealed, len, cap)
    requires d <= 2 && Near(img, sealed, len, cap, d)
    ensures Near(Repair(code, img, len, cap).img, sealed, len, cap, d)
  {
    hide At, RepairFrom, Distance;
    assert Near(img, sealed, len, cap, 2);
    RepairFromRestores(code, img, sealed, len, cap, 0);
    var r := Repair(code, img, len, cap);
    forall i | 0 <= i < WordCount(len)
      ensures Distance(At(sealed, len, cap, i), At(r.img, len, cap, i)) <= d
    {
      DistanceZero(At(sealed, len, cap, i), At(sealed, len, cap, i));
      assert At(r.img, len, cap, i) == At(img, len, cap, i) || At(r.img, len, cap, i) == At(sealed, len, cap, i);
    }
  }

  /** Agreement on codewords is agreement on the payload bytes. */
  lemma AgreesOnPayload(img: Image, sealed: Image, len: nat, cap: nat)
    requires Agrees(img, sealed, len, cap)
    ensures img.buf[..len] == sealed.buf[..len]
  {
    forall p | 0 <= p < len ensures img.buf[p] == sealed.buf[p] {
      assert At(img, len, cap, p / 8) == At(sealed, len, cap, p / 8);
      assert At(img, len, cap, p / 8).word[p % 8] == img.buf[p];
      assert At(sealed, len, cap, p / 8).word[p % 8] == sealed.buf[p];
    }
  }

  /** A fault-free image is repaired to itself, byte for byte. */
  lemma {:induction false} RepairOfConsistent(code: Secded, img: Image, len: nat, cap: nat, i: nat)
    requires code.Sound() && Consistent(code, img, len, cap) && i <= WordCount(len)
    ensures RepairFrom(code, img, len, cap, i) == RepairResult(true, img)
    decreases WordCount(len) - i
  {
    hide LoadWord, Distance, At;
    if i < WordCount(len) {
      var c := At(img, len, cap, i);
      assert code.Sealed(c.word) == c;
      DistanceZero(c, c);
      RepairOfConsistent(code, img, len, cap, i + 1);
    }
  }

  /** Storing into one word leaves the other codewords alone. */
  lemma PutLeavesOthers(img: Image, len: nat, cap: nat, i: nat, fixed: Codeword, j: nat)
    requires Fits(img, len, cap) && i < WordCount(len) && j < WordCount(len) && i != j
    ensures At(Put(img, len, cap, i, fixed), len, cap, j) == At(img, len, cap, j)
  {
    assert At(Put(img, len, cap, i, fixed), len, cap, j).word == At(img, len, cap, j).word;
  }

  /** A double flip in one codeword fails the repair, whatever happened to the others. */
  lemma {:induction false} DoubleFlipIsCaught(code: Secded, img: Image, w: Word, len: nat, cap: nat, i: nat, bad: nat)
    requires code.Sound() && Fits(img, len, cap) && i <= bad < WordCount(len)
    requires Distance(code.Sealed(w), At(img, len, cap, bad)) == 2
    ensures !RepairFrom(code, img, len, cap, i).ok
    decreases WordCount(len) - i
  {
    hide At, Put, Distance;
    if i < bad {
      match code.repair(At(img, len, cap, i)) {
        case Clean => DoubleFlipIsCaught(code, img, w, len, cap, i + 1, bad);
        case Corrected(fixed) =>
          PutSizes(img, len, cap, i, fixed);
          PutLeavesOthers(img, len, cap, i, fixed, bad);
          DoubleFlipIsCaught(code, Put(img, len, cap, i, fixed), w, len, cap, i + 1, bad);
        case Uncorrectable =>
      }
    }
  }

  /**
   The round trip of one buffer: seal, at most one flip a codeword, repair.  The
   payload and every code come back, for every length and capacity that fits.
   */
  lemma SealRepairRoundTrip(code: Secded, img: Image, hit: Image, len: nat, cap: nat)
    requires code.Sound() && Fits(img, len, cap)
    requires Near(hit, Seal(code, img, len, cap), len, cap, 1)
    ensures var r := Repair(code, hit, len, cap);
            r.ok && Agrees(r.img, Seal(code, img, len, cap), len, cap)
            && r.img.buf[..len] == img.buf[..len]
  {
    hide Seal, Repair, At;
    var sealed := Seal(code, img, len, cap);
    SealIsConsistent(code, img, len, cap);
    assert Near(hit, sealed, len, cap, 2);
    RepairRestores(code, hit, sealed, len, cap);
    AgreesOnPayload(Repair(code, hit, len, cap).img, sealed, len, cap);
  }
}
