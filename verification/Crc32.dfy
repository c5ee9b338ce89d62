/**
  CRC-32 as the seed's checksum computes it (section 8 of RFC 1952): reflected, with the register
  preset to all ones and complemented at the end. Its burst detection is proved for messages of any
  length.
*/
module Crc32 {
  import opened Bytes

  const POLYNOMIAL: bv32 := 0xEDB8_8320
  const ONES: bv32 := 0xFFFF_FFFF

  function Mix(x: bv32, y: bv32): bv32 {
    x ^ y
  }

  function Widen(b: byte): bv32 {
    b as bv32
  }

  /** A word moved one bit, or one byte, up. */
  function Up(w: bv32): bv32 {
    w << 1
  }

  function Up8(w: bv32): bv32 {
    w << 8
  }

  predicate Odd(r: bv32) {
    r & 1 == 1
  }

  function Half(r: bv32): bv32 {
    r >> 1
  }

  /** The register after one zero bit. */
  function Shift(r: bv32): bv32 {
    if Odd(r) then Mix(Half(r), POLYNOMIAL) else Half(r)
  }

  function Shifts(r: bv32, k: nat): bv32 {
    if k == 0 then r else Shift(Shifts(r, k - 1))
  }

  function Feed(r: bv32, data: seq<byte>): bv32
    decreases |data|
  {
    if data == [] then r else Feed(Shifts(Mix(r, Widen(data[0])), 8), data[1..])
  }

  function Crc(data: seq<byte>): bv32 {
    Mix(Feed(ONES, data), ONES)
  }

  /** The four bytes of a word, least significant first. */
  function LeBytes(w: bv32): seq<byte> {
    [(w & 0xFF) as byte, ((w >> 8) & 0xFF) as byte, ((w >> 16) & 0xFF) as byte, (w >> 24) as byte]
  }

  function Word(b0: byte, b1: byte, b2: byte, b3: byte): bv32 {
    Mix(Widen(b0), Up8(Mix(Widen(b1), Up8(Mix(Widen(b2), Up8(Widen(b3)))))))
  }

  // ---------------------------------------------------------------------------------------------
  // The register

  lemma MixLaws(x: bv32, y: bv32)
    ensures Mix(x, y) == Mix(y, x)
    ensures Mix(x, Mix(x, y)) == y
    ensures Mix(x, 0) == x
  {
  }

  lemma MixAssoc(x: bv32, y: bv32, z: bv32)
    ensures Mix(Mix(x, y), z) == Mix(x, Mix(y, z))
  {
  }

  lemma HalfMix(x: bv32, y: bv32)
    ensures Half(Mix(x, y)) == Mix(Half(x), Half(y))
  {
  }

  lemma OddMix(x: bv32, y: bv32)
    ensures Odd(Mix(x, y)) == (Odd(x) != Odd(y))
  {
  }

  lemma ShiftMix(x: bv32, y: bv32)
    ensures Shift(Mix(x, y)) == Mix(Shift(x), Shift(y))
  {
    hide Mix, Odd, Half;
    var a, b := Half(x), Half(y);
    HalfMix(x, y);
    OddMix(x, y);
    MixAssoc(a, b, POLYNOMIAL);
    MixAssoc(a, POLYNOMIAL, b);
    MixLaws(POLYNOMIAL, b);
    MixAssoc(a, POLYNOMIAL, Mix(b, POLYNOMIAL));
    MixLaws(b, POLYNOMIAL);
  }

  lemma ShiftInjective(x: bv32, y: bv32)
    requires Shift(x) == Shift(y)
    ensures x == y
  {
  }

  lemma {:induction false} ShiftsMix(x: bv32, y: bv32, k: nat)
    ensures Shifts(Mix(x, y), k) == Mix(Shifts(x, k), Shifts(y, k))
  {
    hide Mix, Shift;
    if k > 0 {
      ShiftsMix(x, y, k - 1);
      ShiftMix(Shifts(x, k - 1), Shifts(y, k - 1));
    }
  }

  lemma {:induction false} ShiftsInjective(x: bv32, y: bv32, k: nat)
    requires Shifts(x, k) == Shifts(y, k)
    ensures x == y
  {
    hide Shift;
    if k > 0 {
      ShiftInjective(Shifts(x, k - 1), Shifts(y, k - 1));
      ShiftsInjective(x, y, k - 1);
    }
  }

  lemma {:induction false} ShiftsTwice(r: bv32, a: nat, b: nat)
    ensures Shifts(Shifts(r, a), b) == Shifts(r, a + b)
  {
    hide Shift;
    if b > 0 {
      ShiftsTwice(r, a, b - 1);
    }
  }

  lemma ShiftUp(x: bv32)
    requires x < 0x8000_0000
    ensures Shift(Up(x)) == x
  {
  }

  function Ups(w: bv32, k: nat): bv32 {
    if k == 0 then w else Up(Ups(w, k - 1))
  }

  lemma {:induction false} ShiftsUps(w: bv32, k: nat)
    requires forall j :: 0 <= j < k ==> Ups(w, j) < 0x8000_0000
    ensures Shifts(Ups(w, k), k) == w
  {
    hide Up, Shift;
    if k > 0 {
      ShiftsUps(w, k - 1);
      ShiftUp(Ups(w, k - 1));
      ShiftsTwice(Ups(w, k), 1, k - 1);
      assert Shifts(Ups(w, k), 1) == Shift(Ups(w, k));
    }
  }

  /** A word below 2^24 keeps its bits through eight moves up. */
  lemma UpsFit(w: bv32)
    requires w < 0x100_0000
    ensures forall k :: 0 <= k < 8 ==> Ups(w, k) < 0x8000_0000
    ensures Ups(w, 8) == Up8(w)
  {
    hide Up8;
    assert Ups(w, 0) == w;
    assert Ups(w, 1) == Up(w) < 0x200_0000;
    assert Ups(w, 2) == Up(Ups(w, 1)) < 0x400_0000;
    assert Ups(w, 3) == Up(Ups(w, 2)) < 0x800_0000;
    assert Ups(w, 4) == Up(Ups(w, 3)) < 0x1000_0000;
    assert Ups(w, 5) == Up(Ups(w, 4)) < 0x2000_0000;
    assert Ups(w, 6) == Up(Ups(w, 5)) < 0x4000_0000;
    assert Ups(w, 7) == Up(Ups(w, 6)) < 0x8000_0000;
    Up8IsEightUps(w);
  }

  lemma Up8IsEightUps(w: bv32)
    ensures Up8(w) == Up(Up(Up(Up(Up(Up(Up(Up(w))))))))
  {
  }

  /** Eight shifts undo a move of one byte up when nothing falls off. */
  lemma ShiftsUp8(w: bv32)
    requires w < 0x100_0000
    ensures Shifts(Up8(w), 8) == w
  {
    UpsFit(w);
    ShiftsUps(w, 8);
  }

  /** Feeding one byte of a word leaves the others in the register, one byte further down. */
  lemma FeedByte(r: bv32, b: byte, w: bv32)
    requires w < 0x100_0000
    ensures Shifts(Mix(r, Mix(Widen(b), Up8(w))), 8) == Mix(Shifts(Mix(r, Widen(b)), 8), w)
  {
    hide Mix, Shifts, Up8, Widen;
    MixAssoc(r, Widen(b), Up8(w));
    ShiftsMix(Mix(r, Widen(b)), Up8(w), 8);
    ShiftsUp8(w);
  }

  lemma WordFits(b1: byte, b2: byte, b3: byte)
    ensures Widen(b3) < 0x100_0000
    ensures Mix(Widen(b2), Up8(Widen(b3))) < 0x100_0000
    ensures Mix(Widen(b1), Up8(Mix(Widen(b2), Up8(Widen(b3))))) < 0x100_0000
  {
  }

  lemma FeedFirst(r: bv32, b: byte, rest: seq<byte>)
    ensures Feed(r, [b] + rest) == Feed(Shifts(Mix(r, Widen(b)), 8), rest)
    ensures Feed(r, []) == r
  {
  }

  lemma Feed4(r: bv32, b0: byte, b1: byte, b2: byte, b3: byte)
    ensures Feed(r, [b0, b1, b2, b3]) == Shifts(Mix(r, Word(b0, b1, b2, b3)), 32)
  {
    hide Mix, Shifts, Feed, Up8, Widen;
    WordFits(b1, b2, b3);
    var w3 := Widen(b3);
    var w2 := Mix(Widen(b2), Up8(w3));
    var w1 := Mix(Widen(b1), Up8(w2));
    var r1 := Shifts(Mix(r, Widen(b0)), 8);
    var r2 := Shifts(Mix(r1, Widen(b1)), 8);
    var r3 := Shifts(Mix(r2, Widen(b2)), 8);
    FeedByte(r, b0, w1);
    FeedByte(r1, b1, w2);
    FeedByte(r2, b2, w3);
    var x := Mix(r, Word(b0, b1, b2, b3));
    ShiftsTwice(x, 8, 8);
    ShiftsTwice(x, 16, 8);
    ShiftsTwice(x, 24, 8);
    assert [b0, b1, b2, b3] == [b0] + [b1, b2, b3] && [b1, b2, b3] == [b1] + [b2, b3] && [b2, b3] == [b2] + [b3];
    FeedFirst(r, b0, [b1, b2, b3]);
    FeedFirst(r1, b1, [b2, b3]);
    FeedFirst(r2, b2, [b3]);
    FeedFirst(r3, b3, []);
    FeedFirst(Shifts(Mix(r3, w3), 8), 0, []);
    assert [b3] == [b3] + [];
  }

  lemma WordOfBytes(b0: byte, b1: byte, b2: byte, b3: byte)
    ensures LeBytes(Word(b0, b1, b2, b3)) == [b0, b1, b2, b3]
  {
  }

  lemma BytesOfWord(w: bv32)
    ensures var b := LeBytes(w); Word(b[0], b[1], b[2], b[3]) == w
  {
  }

  lemma {:induction false} FeedConcat(r: bv32, a: seq<byte>, b: seq<byte>)
    ensures Feed(r, a + b) == Feed(Feed(r, a), b)
    decreases |a|
  {
    hide Mix, Shifts;
    if a == [] {
      assert a + b == b;
    } else {
      assert (a + b)[1..] == a[1..] + b;
      FeedConcat(Shifts(Mix(r, Widen(a[0])), 8), a[1..], b);
    }
  }

  lemma {:induction false} FeedInjective(x: bv32, y: bv32, data: seq<byte>)
    requires Feed(x, data) == Feed(y, data)
    ensures x == y
    decreases |data|
  {
    hide Mix, Shifts;
    if data != [] {
      var b := Widen(data[0]);
      FeedInjective(Shifts(Mix(x, b), 8), Shifts(Mix(y, b), 8), data[1..]);
      ShiftsInjective(Mix(x, b), Mix(y, b), 8);
      MixLaws(b, x);
      MixLaws(b, y);
    }
  }

  // ---------------------------------------------------------------------------------------------
  // Messages that end with their own checksum

  predicate Intact(message: seq<byte>) {
    |message| >= 4 && message[|message| - 4..] == LeBytes(Crc(message[..|message| - 4]))
  }

  function Four(s: seq<byte>): bv32
    requires |s| == 4
  {
    Word(s[0], s[1], s[2], s[3])
  }

  lemma FeedFour(r: bv32, s: seq<byte>)
    requires |s| == 4
    ensures Feed(r, s) == Shifts(Mix(r, Four(s)), 32)
    ensures s == LeBytes(Four(s))
  {
    hide Feed, Mix, Shifts, Word, LeBytes;
    assert s == [s[0], s[1], s[2], s[3]];
    Feed4(r, s[0], s[1], s[2], s[3]);
    WordOfBytes(s[0], s[1], s[2], s[3]);
  }

  /** A message is intact exactly when the register ends on one fixed residue. */
  lemma IntactIffResidue(message: seq<byte>)
    requires |message| >= 4
    ensures Intact(message) <==> Feed(ONES, message) == Shifts(ONES, 32)
  {
    hide Feed, Mix, Shifts, Word, LeBytes;
    var n := |message| - 4;
    var data, tail := message[..n], message[n..];
    assert message == data + tail;
    var r := Feed(ONES, data);
    FeedConcat(ONES, data, tail);
    FeedFour(r, tail);
    MixLaws(r, ONES);
    MixLaws(r, Four(tail));
    if Feed(ONES, message) == Shifts(ONES, 32) {
      ShiftsInjective(Mix(r, Four(tail)), ONES, 32);
    }
    if Intact(message) {
      BytesOfWord(Crc(data));
    }
  }

  /** Two messages differ only inside the four bytes from i on. */
  predicate DifferWithin(m: seq<byte>, m': seq<byte>, i: nat) {
    && |m| == |m'| && i + 4 <= |m| && m != m'
    && m[..i] == m'[..i] && m[i + 4..] == m'[i + 4..]
  }

  /** No change confined to four consecutive bytes, checksum included, leaves a message intact. */
  lemma BurstDetected(m: seq<byte>, m': seq<byte>, i: nat)
    requires Intact(m) && DifferWithin(m, m', i)
    ensures !Intact(m')
  {
    hide Feed, Mix, Shifts, Word, LeBytes;
    var before, after := m[..i], m[i + 4..];
    var w, w' := m[i..i + 4], m'[i..i + 4];
    assert m == before + (w + after) && m' == before + (w' + after);
    var r := Feed(ONES, before);
    FeedConcat(ONES, before, w + after);
    FeedConcat(ONES, before, w' + after);
    FeedConcat(r, w, after);
    FeedConcat(r, w', after);
    IntactIffResidue(m);
    IntactIffResidue(m');
    if Intact(m') {
      FeedInjective(Feed(r, w), Feed(r, w'), after);
      FeedFour(r, w);
      FeedFour(r, w');
      ShiftsInjective(Mix(r, Four(w)), Mix(r, Four(w')), 32);
      MixLaws(r, Four(w));
      MixLaws(r, Four(w'));
    }
  }

  // ---------------------------------------------------------------------------------------------
  // The published check value

  function Shift8(r: bv32): bv32 {
    Shift(Shift(Shift(Shift(Shift(Shift(Shift(Shift(r))))))))
  }

  lemma ShiftsIs8(r: bv32)
    ensures Shifts(r, 8) == Shift8(r)
  {
    hide Shift;
    assert Shifts(r, 1) == Shift(r);
    assert Shifts(r, 2) == Shift(Shifts(r, 1));
    assert Shifts(r, 3) == Shift(Shifts(r, 2));
    assert Shifts(r, 4) == Shift(Shifts(r, 3));
    assert Shifts(r, 5) == Shift(Shifts(r, 4));
    assert Shifts(r, 6) == Shift(Shifts(r, 5));
    assert Shifts(r, 7) == Shift(Shifts(r, 6));
  }

  lemma CheckStep(r: bv32, b: byte, next: bv32, rest: seq<byte>)
    requires Shift8(Mix(r, Widen(b))) == next
    ensures Feed(r, [b] + rest) == Feed(next, rest)
  {
    hide Shift, Mix, Widen;
    FeedFirst(r, b, rest);
    ShiftsIs8(Mix(r, Widen(b)));
  }

  lemma CheckFirstHalf(rest: seq<byte>)
    ensures Feed(ONES, [0x31, 0x32, 0x33, 0x34, 0x35] + rest) == Feed(0x340A_C5E3, rest)
  {
    hide Feed;
    var s5 := [0x35] + rest;
    var s4 := [0x34] + s5;
    var s3 := [0x33] + s4;
    var s2 := [0x32] + s3;
    CheckStep(ONES, 0x31, 0x7C23_1048, s2);
    CheckStep(0x7C23_1048, 0x32, 0xB0AC_BB32, s3);
    CheckStep(0xB0AC_BB32, 0x33, 0x77B7_9C2D, s4);
    CheckStep(0x77B7_9C2D, 0x34, 0x641C_1F5C, s5);
    CheckStep(0x641C_1F5C, 0x35, 0x340A_C5E3, rest);
    assert [0x31, 0x32, 0x33, 0x34, 0x35] + rest == [0x31] + s2;
  }

  /** The CRC-32 of the ASCII digits 1 to 9 is 0xCBF43926, which fixes polynomial, preset and order. */
  lemma CheckValue()
    ensures Crc([0x31, 0x32, 0x33, 0x34, 0x35, 0x36, 0x37, 0x38, 0x39]) == 0xCBF4_3926
  {
    var rest: seq<byte> := [0x36, 0x37, 0x38, 0x39];
    CheckFirstHalf(rest);
    assert [0x31, 0x32, 0x33, 0x34, 0x35, 0x36, 0x37, 0x38, 0x39] == [0x31, 0x32, 0x33, 0x34, 0x35] + rest;
    CheckStep(0x340A_C5E3, 0x36, 0xF68D_2C9E, [0x37, 0x38, 0x39]);
    CheckStep(0xF68D_2C9E, 0x37, 0xAFFC_9660, [0x38, 0x39]);
    CheckStep(0xAFFC_9660, 0x38, 0x651F_2550, [0x39]);
    CheckStep(0x651F_2550, 0x39, 0x340B_C6D9, []);
  }
}
