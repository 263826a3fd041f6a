/** CRC-32 of debug/programs/checksum.c and CRC-16 of core_util.c. */
module Crc {

  // ---------------------------------------------------------------- words

  function Xor(x: bv32, y: bv32): bv32 { x ^ y }
  function Half(x: bv32): bv32 { x >> 1 }
  predicate Odd(x: bv32) { x & 1 == 1 }
  function Wide(b: bv8): bv32 { b as bv32 }

  lemma XorHalf(x: bv32, y: bv32)
    ensures Half(Xor(x, y)) == Xor(Half(x), Half(y)) && (Odd(Xor(x, y)) <==> Odd(x) != Odd(y))
  {
  }

  lemma XorAssoc(a: bv32, b: bv32, c: bv32)
    ensures Xor(a, Xor(b, c)) == Xor(Xor(a, b), c)
  {
  }

  lemma XorComm(a: bv32, b: bv32)
    ensures Xor(a, b) == Xor(b, a)
  {
  }

  lemma XorSelf(a: bv32, b: bv32)
    ensures Xor(a, Xor(a, b)) == b
  {
  }

  lemma XorZero(a: bv32)
    ensures Xor(a, 0) == a
  {
  }

  // ---------------------------------------------------------------- reverse

  /** reverse: exchange neighbouring bits, then pairs, then nibbles, then bytes. */
  function Reverse(x: bv32): bv32 {
    var x1 := ((x & 0x5555_5555) << 1) | ((x >> 1) & 0x5555_5555);
    var x2 := ((x1 & 0x3333_3333) << 2) | ((x1 >> 2) & 0x3333_3333);
    var x3 := ((x2 & 0x0F0F_0F0F) << 4) | ((x2 >> 4) & 0x0F0F_0F0F);
    (x3 << 24) | ((x3 & 0xFF00) << 8) | ((x3 >> 8) & 0xFF00) | (x3 >> 24)
  }

  /** Bit k of the result is bit 31 - k of the argument. */
  lemma ReverseBit(x: bv32, k: bv6)
    requires k < 32
    ensures (Reverse(x) >> k) & 1 == (x >> (31 - k)) & 1
  {
  }

  /** reverse is an involution. */
  lemma ReverseTwice(x: bv32)
    ensures Reverse(Reverse(x)) == x
  {
  }

  lemma ReverseXor(x: bv32, y: bv32)
    ensures Reverse(x ^ y) == Xor(Reverse(x), Reverse(y))
  {
  }

  lemma ReverseShift(x: bv32)
    ensures Reverse(x << 1) == Half(Reverse(x))
  {
  }

  /** It carries the step of a register shifted left to the step of the reflected register. */
  lemma ReverseStep(x: bv32)
    ensures Reverse((x << 1) ^ 0x04C1_1DB7) == Xor(Half(Reverse(x)), 0xEDB8_8320)
  {
  }

  lemma ReverseTop(x: bv32)
    ensures x >= 0x8000_0000 <==> Odd(Reverse(x))
  {
  }

  lemma ReverseNot(x: bv32)
    ensures Reverse(!x) == Xor(Reverse(x), 0xFFFF_FFFF)
    ensures Reverse(0xFFFF_FFFF) == 0xFFFF_FFFF
  {
  }

  // ---------------------------------------------------------------- the CRC of RFC 1952, section 8

  /** One bit of the reflected CRC-32 register. */
  function Step32(c: bv32): bv32 {
    if Odd(c) then Xor(0xEDB8_8320, Half(c)) else Half(c)
  }

  function Steps32(c: bv32, n: nat): bv32 {
    if n == 0 then c else Step32(Steps32(c, n - 1))
  }

  function LowByte(x: bv32): bv32 { x & 0xFF }
  function Rest(x: bv32): bv32 { x >> 8 }

  /** Entry n of the table of CRCs of all 8-bit messages. */
  function CrcTable(n: bv32): bv32 { Steps32(n, 8) }

  /** Feeding one byte to the running CRC by table look-up. */
  function UpdateByte(c: bv32, b: bv8): bv32 { Xor(CrcTable(LowByte(Xor(c, Wide(b)))), Rest(c)) }

  function UpdateCrc(c: bv32, msg: seq<bv8>): bv32 {
    if msg == [] then c else UpdateByte(UpdateCrc(c, msg[..|msg| - 1]), msg[|msg| - 1])
  }

  /** The CRC of a message. */
  function Crc32(msg: seq<bv8>): bv32 { Xor(UpdateCrc(0xFFFF_FFFF, msg), 0xFFFF_FFFF) }

  /** Moving a constant out of a sum, once or from both sides. */
  lemma XorPast(p: bv32, a: bv32, b: bv32)
    ensures Xor(Xor(p, a), b) == Xor(p, Xor(a, b)) == Xor(a, Xor(p, b)) == Xor(Xor(a, p), b)
    ensures Xor(Xor(p, a), Xor(p, b)) == Xor(a, b)
  {
    hide Xor;
    XorAssoc(p, a, b);
    XorComm(p, a);
    XorAssoc(a, p, b);
    XorAssoc(p, a, Xor(p, b));
    XorAssoc(a, p, Xor(p, b));
    XorSelf(p, b);
  }

  lemma {:induction false} Steps32Linear(x: bv32, y: bv32, n: nat)
    ensures Steps32(Xor(x, y), n) == Xor(Steps32(x, n), Steps32(y, n))
  {
    hide Xor, Half, Odd;
    if n > 0 {
      Steps32Linear(x, y, n - 1);
      var s, t := Steps32(x, n - 1), Steps32(y, n - 1);
      XorHalf(s, t);
      XorPast(0xEDB8_8320, Half(s), Half(t));
    }
  }

  lemma HighBits(c: bv32)
    requires LowByte(c) == 0
    ensures Steps32(c, 8) == Rest(c)
  {
    var c1, c2, c3, c4 := c >> 1, c >> 2, c >> 3, c >> 4;
    var c5, c6, c7 := c >> 5, c >> 6, c >> 7;
    assert c & 1 == 0 && c1 & 1 == 0 && c2 & 1 == 0 && c3 & 1 == 0;
    assert c4 & 1 == 0 && c5 & 1 == 0 && c6 & 1 == 0 && c7 & 1 == 0;
    assert Steps32(c, 1) == c1;
    assert Steps32(c, 2) == c2;
    assert Steps32(c, 3) == c3;
    assert Steps32(c, 4) == c4;
    assert Steps32(c, 5) == c5;
    assert Steps32(c, 6) == c6;
    assert Steps32(c, 7) == c7;
  }

  function HighPart(x: bv32): bv32 { x & 0xFFFF_FF00 }

  lemma SplitByte(x: bv32)
    ensures x == Xor(LowByte(x), HighPart(x)) && LowByte(HighPart(x)) == 0
  {
  }

  lemma RestOfSum(c: bv32, b: bv8)
    ensures Rest(HighPart(Xor(c, Wide(b)))) == Rest(c)
  {
  }

  /** The table look-up is eight single-bit steps of register xor byte. */
  lemma TableIsSteps(c: bv32, b: bv8)
    ensures UpdateByte(c, b) == Steps32(Xor(c, Wide(b)), 8)
  {
    hide Xor, LowByte, Rest, Wide, Steps32, HighPart;
    var x := Xor(c, Wide(b));
    SplitByte(x);
    Steps32Linear(LowByte(x), HighPart(x), 8);
    HighBits(HighPart(x));
    RestOfSum(c, b);
  }

  /** The published CRC of the message of one letter a. */
  lemma CheckValue()
    ensures Crc32([97]) == 0xE8B7_BE43
  {
    hide UpdateByte;
    UpdateOfA();
    assert [97][..0] == [];
  }

  lemma UpdateOfA()
    ensures UpdateByte(0xFFFF_FFFF, 97) == 0x1748_41BC
  {
  }

  // ---------------------------------------------------------------- crc32a

  /** After j of the eight rounds for a byte the register and what is left of the byte, both reflected,
      add up to j steps of where they started. */
  ghost predicate Mirrors(crc: bv32, byte: bv32, x: bv32, j: nat)
  {
    Steps32(x, j) == Xor(Reverse(crc), Reverse(byte))
  }

  /** The body of the inner loop. */
  method FeedBit(crc0: bv32, byte0: bv32, ghost x: bv32, ghost j: nat) returns (crc: bv32, byte: bv32)
    requires Mirrors(crc0, byte0, x, j)
    ensures Mirrors(crc, byte, x, j + 1) && Reverse(byte) == Half(Reverse(byte0))
  {
    hide Reverse, Xor, Half, Odd, Steps32;
    StepUnfold(x, j);
    ReverseXor(crc0, byte0);
    ReverseTop(crc0 ^ byte0);
    ReverseShift(crc0);
    ReverseStep(crc0);
    ReverseShift(byte0);
    ghost var r, s := Reverse(crc0), Reverse(byte0);
    XorHalf(r, s);
    XorPast(0xEDB8_8320, Half(r), Half(s));
    if crc0 ^ byte0 >= 0x8000_0000 {
      crc := (crc0 << 1) ^ 0x04C1_1DB7;
    } else {
      crc := crc0 << 1;
    }
    byte := byte0 << 1;
  }

  lemma StepUnfold(x: bv32, j: nat)
    ensures Steps32(x, j + 1) == Step32(Steps32(x, j)) && Steps32(x, 0) == x
  {
  }

  /** The inner loop of crc32a: one byte, most significant bit of the register first. */
  method FeedByte(crc0: bv32, data: bv8) returns (crc: bv32)
    ensures Reverse(crc) == UpdateByte(Reverse(crc0), data)
  {
    hide Reverse, UpdateByte, Steps32, Xor, Half, Wide;
    crc := crc0;
    var byte := Reverse(Wide(data));
    ghost var x := Xor(Reverse(crc0), Wide(data));
    ReverseTwice(Wide(data));
    StepUnfold(x, 0);
    var j := 0;
    while j <= 7
      invariant j <= 8 && Mirrors(crc, byte, x, j) && Reverse(byte) == Halves(Wide(data), j)
    {
      crc, byte := FeedBit(crc, byte, x, j);
      j := j + 1;
    }
    ByteGone(data);
    XorZero(Reverse(crc));
    TableIsSteps(Reverse(crc0), data);
  }

  ghost function Halves(b: bv32, j: nat): bv32 { if j == 0 then b else Half(Halves(b, j - 1)) }

  lemma ByteGone(b: bv8)
    ensures Halves(Wide(b), 8) == 0
  {
    var x := Wide(b);
    assert Halves(x, 1) == x >> 1;
    assert Halves(x, 2) == x >> 2;
    assert Halves(x, 3) == x >> 3;
    assert Halves(x, 4) == x >> 4;
    assert Halves(x, 5) == x >> 5;
    assert Halves(x, 6) == x >> 6;
    assert Halves(x, 7) == x >> 7;
    assert Halves(x, 8) == x >> 8;
  }

  /** crc32a. */
  method Crc32a(message: seq<bv8>) returns (r: bv32)
    ensures r == Crc32(message)
  {
    hide Reverse, UpdateByte, Xor;
    var i := 0;
    var crc := 0xFFFF_FFFF;
    ReverseNot(0);
    while i < |message|
      invariant i <= |message| && Reverse(crc) == UpdateCrc(0xFFFF_FFFF, message[..i])
    {
      crc := FeedByte(crc, message[i]);
      assert message[..i + 1][..i] == message[..i];
      i := i + 1;
    }
    assert message[..i] == message;
    ReverseNot(crc);
    r := Reverse(!crc);
  }

  // ---------------------------------------------------------------- crcu8, crcu16, crcu32

  function Xor16(x: bv16, y: bv16): bv16 { x ^ y }
  function Half16(x: bv16): bv16 { x >> 1 }
  predicate Odd16(x: bv16) { x & 1 == 1 }
  function Wide16(b: bv8): bv16 { b as bv16 }
  function Low(w: bv16): bv8 { (w & 0xFF) as bv8 }
  function High(w: bv16): bv8 { (w >> 8) as bv8 }

  lemma XorHalf16(x: bv16, y: bv16)
    ensures Half16(Xor16(x, y)) == Xor16(Half16(x), Half16(y)) && (Odd16(Xor16(x, y)) <==> Odd16(x) != Odd16(y))
  {
  }

  lemma XorAssoc16(a: bv16, b: bv16, c: bv16)
    ensures Xor16(a, Xor16(b, c)) == Xor16(Xor16(a, b), c)
  {
  }

  lemma XorComm16(a: bv16, b: bv16)
    ensures Xor16(a, b) == Xor16(b, a)
  {
  }

  lemma XorSelf16(a: bv16, b: bv16)
    ensures Xor16(a, Xor16(a, b)) == b
  {
  }

  lemma XorZero16(a: bv16)
    ensures Xor16(a, 0) == a
  {
  }

  lemma XorPast16(p: bv16, a: bv16, b: bv16)
    ensures Xor16(Xor16(a, p), b) == Xor16(Xor16(a, b), p) == Xor16(a, Xor16(b, p))
    ensures Xor16(Xor16(a, p), Xor16(b, p)) == Xor16(a, b)
  {
    hide Xor16;
    XorAssoc16(a, p, b);
    XorComm16(p, b);
    XorAssoc16(a, b, p);
    XorAssoc16(a, p, Xor16(b, p));
    XorSelf16(p, b);
  }

  lemma XorCancel16(p: bv16, a: bv16, b: bv16)
    ensures Xor16(a, p) == Xor16(b, p) ==> a == b
    ensures Xor16(p, a) == Xor16(p, b) ==> a == b
  {
    hide Xor16;
    XorComm16(a, p);
    XorComm16(b, p);
    XorSelf16(p, a);
    XorSelf16(p, b);
  }

  /** One bit of the reflected CRC-16 register with polynomial 0xA001. */
  function Step16(c: bv16): bv16 {
    if Odd16(c) then Xor16(Half16(c), 0xA001) else Half16(c)
  }

  function Steps16(c: bv16, n: nat): bv16 {
    if n == 0 then c else Step16(Steps16(c, n - 1))
  }

  /** The running CRC after a byte, and after a 16-bit word fed low byte first. */
  function Crc8Of(data: bv8, crc: bv16): bv16 { Steps16(Xor16(crc, Wide16(data)), 8) }
  function Crc16Of(w: bv16, crc: bv16): bv16 { Crc8Of(High(w), Crc8Of(Low(w), crc)) }

  /** The CRC of a stream of words. */
  function Stream(ws: seq<bv16>, crc: bv16): bv16 {
    if ws == [] then crc else Crc16Of(ws[|ws| - 1], Stream(ws[..|ws| - 1], crc))
  }

  lemma CarryIn(crc: bv16)
    ensures ((crc ^ 0x4002) >> 1) | 0x8000 == Xor16(Half16(crc), 0xA001)
    ensures (crc >> 1) & 0x7FFF == Half16(crc)
  {
  }

  lemma DataIn(data: bv8, crc: bv16)
    ensures (data & 1) ^ ((crc & 1) as bv8) == 1 <==> Odd16(Xor16(crc, Wide16(data)))
    ensures Wide16(data >> 1) == Half16(Wide16(data))
  {
  }

  /** The body of the loop of crcu8. */
  method CrcBit(data0: bv8, crc0: bv16) returns (data: bv8, crc: bv16)
    ensures Step16(Xor16(crc0, Wide16(data0))) == Xor16(crc, Wide16(data)) && data == data0 >> 1
  {
    CarryIn(crc0);
    DataIn(data0, crc0);
    XorHalf16(crc0, Wide16(data0));
    XorPast16(0xA001, Half16(crc0), Half16(Wide16(data0)));
    hide Xor16, Half16, Odd16, Wide16;
    var x16 := (data0 & 1) ^ ((crc0 & 1) as bv8);
    data := data0 >> 1;
    crc := crc0;
    var carry := false;
    if x16 == 1 {
      crc := crc ^ 0x4002;
      carry := true;
    }
    crc := crc >> 1;
    if carry {
      crc := crc | 0x8000;
    } else {
      crc := crc & 0x7FFF;
    }
  }

  /** crcu8: the register and the data byte are shifted side by side. */
  method CrcU8(data0: bv8, crc0: bv16) returns (crc: bv16)
    ensures crc == Crc8Of(data0, crc0)
  {
    hide Steps16, Xor16, Wide16, Step16;
    crc := crc0;
    var data := data0;
    ghost var x := Xor16(crc0, Wide16(data0));
    StepUnfold16(x, 0);
    var i := 0;
    while i < 8
      invariant i <= 8 && Steps16(x, i) == Xor16(crc, Wide16(data)) && data == ByteHalves(data0, i)
    {
      data, crc := CrcBit(data, crc);
      StepUnfold16(x, i);
      i := i + 1;
    }
    ByteGone16(data0);
    XorZero16(crc);
  }

  lemma StepUnfold16(x: bv16, j: nat)
    ensures Steps16(x, j + 1) == Step16(Steps16(x, j)) && Steps16(x, 0) == x
  {
  }

  ghost function ByteHalves(b: bv8, j: nat): bv8 { if j == 0 then b else ByteHalves(b, j - 1) >> 1 }

  lemma ByteGone16(b: bv8)
    ensures ByteHalves(b, 8) == 0 && Wide16(ByteHalves(b, 8)) == 0
  {
    assert ByteHalves(b, 1) == b >> 1;
    assert ByteHalves(b, 2) == b >> 2;
    assert ByteHalves(b, 3) == b >> 3;
    assert ByteHalves(b, 4) == b >> 4;
    assert ByteHalves(b, 5) == b >> 5;
    assert ByteHalves(b, 6) == b >> 6;
    assert ByteHalves(b, 7) == b >> 7;
  }

  /** crcu16. */
  method CrcU16(w: bv16, crc0: bv16) returns (crc: bv16)
    ensures crc == Crc16Of(w, crc0)
  {
    hide Crc8Of, Low, High;
    crc := CrcU8(Low(w), crc0);
    crc := CrcU8(High(w), crc);
  }

  function LowHalf(v: bv32): bv16 { (v & 0xFFFF) as bv16 }
  function HighHalf(v: bv32): bv16 { (v >> 16) as bv16 }

  /** They are the halves. */
  lemma TwoHalves(v: bv32)
    ensures (HighHalf(v) as bv32 << 16) | (LowHalf(v) as bv32) == v
  {
  }

  /** crcu32: the low half of the word, then the high half. */
  method CrcU32(v: bv32, crc0: bv16) returns (crc: bv16)
    ensures crc == Stream([LowHalf(v), HighHalf(v)], crc0)
  {
    hide Crc16Of, LowHalf, HighHalf;
    crc := CrcU16(LowHalf(v), crc0);
    assert Stream([LowHalf(v)], crc0) == crc;
    crc := CrcU16(HighHalf(v), crc);
    assert [LowHalf(v), HighHalf(v)][..1] == [LowHalf(v)];
  }

  // ---------------------------------------------------------------- what the 16-bit CRC detects

  lemma Step16Injective(x: bv16, y: bv16)
    requires Step16(x) == Step16(y)
    ensures x == y
  {
  }

  lemma {:induction false} Steps16Linear(x: bv16, y: bv16, n: nat)
    ensures Steps16(Xor16(x, y), n) == Xor16(Steps16(x, n), Steps16(y, n))
  {
    hide Xor16, Half16, Odd16;
    if n > 0 {
      Steps16Linear(x, y, n - 1);
      var s, t := Steps16(x, n - 1), Steps16(y, n - 1);
      XorHalf16(s, t);
      XorPast16(0xA001, Half16(s), Half16(t));
    }
  }

  lemma {:induction false} Steps16Injective(x: bv16, y: bv16, n: nat)
    requires Steps16(x, n) == Steps16(y, n)
    ensures x == y
  {
    hide Step16;
    if n > 0 {
      Step16Injective(Steps16(x, n - 1), Steps16(y, n - 1));
      Steps16Injective(x, y, n - 1);
    }
  }

  lemma {:induction false} Steps16Add(x: bv16, m: nat, n: nat)
    ensures Steps16(x, m + n) == Steps16(Steps16(x, m), n)
  {
    hide Step16;
    if n > 0 { Steps16Add(x, m, n - 1); }
  }

  /** crcu8 is linear over xor. */
  lemma Crc8Linear(d: bv8, e: bv8, x: bv16, y: bv16)
    ensures Crc8Of(d ^ e, Xor16(x, y)) == Xor16(Crc8Of(d, x), Crc8Of(e, y))
  {
    XorSwap(d, e, x, y);
    hide Steps16, Xor16, Wide16;
    Steps16Linear(Xor16(x, Wide16(d)), Xor16(y, Wide16(e)), 8);
  }

  lemma XorSwap(d: bv8, e: bv8, x: bv16, y: bv16)
    ensures Xor16(Xor16(x, y), Wide16(d ^ e)) == Xor16(Xor16(x, Wide16(d)), Xor16(y, Wide16(e)))
  {
  }

  /** crcu8 is injective in the CRC. */
  lemma Crc8Injective(d: bv8, x: bv16, y: bv16)
    requires Crc8Of(d, x) == Crc8Of(d, y)
    ensures x == y
  {
    hide Steps16, Xor16, Wide16;
    Steps16Injective(Xor16(x, Wide16(d)), Xor16(y, Wide16(d)), 8);
    XorCancel16(Wide16(d), x, y);
  }

  lemma HighSteps(h: bv16)
    requires h & 0xFF == 0
    ensures Steps16(h, 8) == h >> 8
  {
    var h1, h2, h3, h4, h5, h6, h7 := h >> 1, h >> 2, h >> 3, h >> 4, h >> 5, h >> 6, h >> 7;
    assert h & 1 == 0 && h1 & 1 == 0 && h2 & 1 == 0 && h3 & 1 == 0;
    assert h4 & 1 == 0 && h5 & 1 == 0 && h6 & 1 == 0 && h7 & 1 == 0;
    assert Steps16(h, 1) == h1;
    assert Steps16(h, 2) == h2;
    assert Steps16(h, 3) == h3;
    assert Steps16(h, 4) == h4;
    assert Steps16(h, 5) == h5;
    assert Steps16(h, 6) == h6;
    assert Steps16(h, 7) == h7;
  }

  function HighPart16(w: bv16): bv16 { w & 0xFF00 }

  lemma SplitWord(w: bv16)
    ensures w == Xor16(Wide16(Low(w)), HighPart16(w))
    ensures HighPart16(w) & 0xFF == 0 && HighPart16(w) >> 8 == Wide16(High(w))
  {
  }

  /** crcu16 is sixteen steps of register xor word, although the bytes go in one after the other. */
  lemma Crc16IsSteps(w: bv16, crc: bv16)
    ensures Crc16Of(w, crc) == Steps16(Xor16(crc, w), 16)
  {
    SplitWord(w);
    hide Steps16, Xor16, Wide16, Low, High, HighPart16;
    XorAssoc16(crc, Wide16(Low(w)), HighPart16(w));
    Steps16Add(Xor16(crc, w), 8, 8);
    Steps16Linear(Xor16(crc, Wide16(Low(w))), HighPart16(w), 8);
    HighSteps(HighPart16(w));
  }

  lemma Crc16Injective(v: bv16, w: bv16, x: bv16, y: bv16)
    requires Crc16Of(v, x) == Crc16Of(w, y)
    ensures Xor16(x, v) == Xor16(y, w)
  {
    hide Steps16, Crc16Of, Xor16;
    Crc16IsSteps(v, x);
    Crc16IsSteps(w, y);
    Steps16Injective(Xor16(x, v), Xor16(y, w), 16);
  }

  lemma {:induction false} StreamSplit(s: seq<bv16>, t: seq<bv16>, crc: bv16)
    ensures Stream(s + t, crc) == Stream(t, Stream(s, crc))
  {
    hide Crc16Of;
    if t == [] {
      assert s + t == s;
    } else {
      StreamSplit(s, t[..|t| - 1], crc);
      assert (s + t)[..|s + t| - 1] == s + t[..|t| - 1];
    }
  }

  lemma {:induction false} StreamInjective(s: seq<bv16>, x: bv16, y: bv16)
    requires Stream(s, x) == Stream(s, y)
    ensures x == y
  {
    hide Crc16Of, Xor16;
    if s != [] {
      var w, u := s[|s| - 1], s[..|s| - 1];
      Crc16Injective(w, w, Stream(u, x), Stream(u, y));
      XorCancel16(w, Stream(u, x), Stream(u, y));
      StreamInjective(u, x, y);
    }
  }

  /** Two streams of equal length that differ in one word have different CRCs, whatever the start value. */
  lemma OneWordDetected(s: seq<bv16>, v: bv16, w: bv16, t: seq<bv16>, crc: bv16)
    ensures Stream(s + [v] + t, crc) == Stream(s + [w] + t, crc) <==> v == w
  {
    hide Crc16Of, Xor16;
    if Stream(s + [v] + t, crc) == Stream(s + [w] + t, crc) {
      StreamSplit(s + [v], t, crc);
      StreamSplit(s + [w], t, crc);
      StreamInjective(t, Stream(s + [v], crc), Stream(s + [w], crc));
      var c := Stream(s, crc);
      assert (s + [v])[..|s|] == s && (s + [w])[..|s|] == s;
      Crc16Injective(v, w, c, c);
      XorCancel16(c, v, w);
    }
  }

  // ---------------------------------------------------------------- the 16-bit CRC is a remainder

  /** x^16 + x^15 + x^2 + 1, highest coefficient first. */
  function Divisor(): (p: seq<bool>)
    ensures |p| == 17
  {
    seq(17, k => k == 0 || k == 1 || k == 14 || k == 16)
  }

  predicate Has(w: bv16, mask: bv16) { w & mask != 0 }

  function Mask(k: nat): bv16 { if k == 0 then 1 else Mask(k - 1) << 1 }

  /** A word as coefficients: its lowest bit is the highest one. */
  function BitsOf(w: bv16): (b: seq<bool>)
    ensures |b| == 16
  {
    seq(16, k requires 0 <= k => Has(w, Mask(k)))
  }

  /** Sum of two polynomials over the field of two elements. */
  function Add(a: seq<bool>, b: seq<bool>): (c: seq<bool>)
    requires |a| == |b|
    ensures |c| == |a|
  {
    seq(|a|, k requires 0 <= k < |a| => a[k] != b[k])
  }

  function Zero(n: nat): (z: seq<bool>)
    ensures |z| == n
  {
    seq(n, _ => false)
  }

  /** Schoolbook long division: what is left of m when multiples of the divisor have been taken away. */
  function Remainder(m: seq<bool>): (r: seq<bool>)
    requires |m| >= 16
    ensures |r| == 16
    decreases |m|
  {
    if |m| == 16 then m
    else if m[0] then Remainder(Add(m[..17], Divisor())[1..] + m[17..])
    else Remainder(m[1..])
  }

  function Message(ws: seq<bv16>): (m: seq<bool>)
    ensures |m| == 16 * |ws|
  {
    if ws == [] then [] else BitsOf(ws[0]) + Message(ws[1..])
  }

  /** One step of the register, on coefficients. */
  function Shift(b: seq<bool>): (c: seq<bool>)
    requires |b| == 16
    ensures |c| == 16
  {
    var d := b[1..] + [false];
    if b[0] then Add(d, Divisor()[1..]) else d
  }

  function Shifts(b: seq<bool>, n: nat): (c: seq<bool>)
    requires |b| == 16
    ensures |c| == 16
  {
    if n == 0 then b else Shift(Shifts(b, n - 1))
  }

  lemma StepBits(x: bv16)
    ensures BitsOf(Step16(x)) == Shift(BitsOf(x))
  {
    StepHas(x);
    BitsAt(x);
    BitsAt(Step16(x));
    hide Has, Step16, Shift, BitsOf;
    ShiftAt(BitsOf(x), BitsOf(Step16(x)));
  }

  lemma BitsAt(w: bv16)
    ensures BitsOf(w)[0] == Has(w, 0x1)
    ensures BitsOf(w)[1] == Has(w, 0x2)
    ensures BitsOf(w)[2] == Has(w, 0x4)
    ensures BitsOf(w)[3] == Has(w, 0x8)
    ensures BitsOf(w)[4] == Has(w, 0x10)
    ensures BitsOf(w)[5] == Has(w, 0x20)
    ensures BitsOf(w)[6] == Has(w, 0x40)
    ensures BitsOf(w)[7] == Has(w, 0x80)
    ensures BitsOf(w)[8] == Has(w, 0x100)
    ensures BitsOf(w)[9] == Has(w, 0x200)
    ensures BitsOf(w)[10] == Has(w, 0x400)
    ensures BitsOf(w)[11] == Has(w, 0x800)
    ensures BitsOf(w)[12] == Has(w, 0x1000)
    ensures BitsOf(w)[13] == Has(w, 0x2000)
    ensures BitsOf(w)[14] == Has(w, 0x4000)
    ensures BitsOf(w)[15] == Has(w, 0x8000)
  {
    hide Has;
    Masks();
    hide Mask;
  }

  lemma Masks()
    ensures Mask(0) == 0x1 && Mask(1) == 0x2 && Mask(2) == 0x4 && Mask(3) == 0x8
    ensures Mask(4) == 0x10 && Mask(5) == 0x20 && Mask(6) == 0x40 && Mask(7) == 0x80
    ensures Mask(8) == 0x100 && Mask(9) == 0x200 && Mask(10) == 0x400 && Mask(11) == 0x800
    ensures Mask(12) == 0x1000 && Mask(13) == 0x2000 && Mask(14) == 0x4000 && Mask(15) == 0x8000
  {
    assert Mask(4) == 0x10;
    assert Mask(8) == 0x100;
    assert Mask(12) == 0x1000;
  }

  lemma ShiftAt(b: seq<bool>, c: seq<bool>)
    requires |b| == |c| == 16
    requires c[0] == (b[1] != b[0])
    requires c[1] == b[2]
    requires c[2] == b[3]
    requires c[3] == b[4]
    requires c[4] == b[5]
    requires c[5] == b[6]
    requires c[6] == b[7]
    requires c[7] == b[8]
    requires c[8] == b[9]
    requires c[9] == b[10]
    requires c[10] == b[11]
    requires c[11] == b[12]
    requires c[12] == b[13]
    requires c[13] == (b[14] != b[0])
    requires c[14] == b[15]
    requires c[15] == b[0]
    ensures c == Shift(b)
  {
  }

  lemma StepHas(x: bv16)
    ensures Has(Step16(x), 0x1) <==> Has(x, 0x2) != Has(x, 0x1)
    ensures Has(Step16(x), 0x2) <==> Has(x, 0x4)
    ensures Has(Step16(x), 0x4) <==> Has(x, 0x8)
    ensures Has(Step16(x), 0x8) <==> Has(x, 0x10)
    ensures Has(Step16(x), 0x10) <==> Has(x, 0x20)
    ensures Has(Step16(x), 0x20) <==> Has(x, 0x40)
    ensures Has(Step16(x), 0x40) <==> Has(x, 0x80)
    ensures Has(Step16(x), 0x80) <==> Has(x, 0x100)
    ensures Has(Step16(x), 0x100) <==> Has(x, 0x200)
    ensures Has(Step16(x), 0x200) <==> Has(x, 0x400)
    ensures Has(Step16(x), 0x400) <==> Has(x, 0x800)
    ensures Has(Step16(x), 0x800) <==> Has(x, 0x1000)
    ensures Has(Step16(x), 0x1000) <==> Has(x, 0x2000)
    ensures Has(Step16(x), 0x2000) <==> Has(x, 0x4000) != Has(x, 0x1)
    ensures Has(Step16(x), 0x4000) <==> Has(x, 0x8000)
    ensures Has(Step16(x), 0x8000) <==> Has(x, 0x1)
  {
  }

  lemma {:induction false} StepsBits(x: bv16, n: nat)
    ensures BitsOf(Steps16(x, n)) == Shifts(BitsOf(x), n)
  {
    hide Step16, BitsOf, Shift;
    if n > 0 {
      StepsBits(x, n - 1);
      StepBits(Steps16(x, n - 1));
    }
  }

  lemma XorBits(x: bv16, y: bv16)
    ensures BitsOf(Xor16(x, y)) == Add(BitsOf(x), BitsOf(y))
  {
    hide Has, Xor16, Mask;
    forall k | 0 <= k < 16 ensures BitsOf(Xor16(x, y))[k] == Add(BitsOf(x), BitsOf(y))[k] { XorHas(x, y, k); }
  }

  lemma XorHas(x: bv16, y: bv16, k: nat)
    requires k < 16
    ensures Has(Xor16(x, y), Mask(k)) <==> Has(x, Mask(k)) != Has(y, Mask(k))
  {
    hide Mask, Has, Xor16, AllOrNone;
    OneBit(x, k);
    OneBit(y, k);
    HasXor(x, y, Mask(k));
  }

  lemma HasXor(x: bv16, y: bv16, m: bv16)
    requires AllOrNone(x, m) && AllOrNone(y, m)
    ensures Has(Xor16(x, y), m) <==> Has(x, m) != Has(y, m)
  {
    AndXor(x, y, m);
    XorIsZero(x & m, y & m);
  }

  predicate AllOrNone(x: bv16, m: bv16) { x & m == 0 || x & m == m }

  lemma OneBit(x: bv16, k: nat)
    requires k < 16
    ensures AllOrNone(x, Mask(k))
  {
    Masks();
    SingleBit(x, Mask(k));
    hide Mask;
    assert k == 0 || k == 1 || k == 2 || k == 3 || k == 4 || k == 5 || k == 6 || k == 7 || k == 8 || k == 9 || k == 10
      || k == 11 || k == 12 || k == 13 || k == 14 || k == 15;
  }

  lemma SingleBit(x: bv16, m: bv16)
    ensures m & (m - 1) == 0 ==> AllOrNone(x, m)
  {
  }

  lemma AndXor(x: bv16, y: bv16, m: bv16)
    ensures Xor16(x, y) & m == (x & m) ^ (y & m)
  {
  }

  lemma XorIsZero(u: bv16, v: bv16)
    ensures u ^ v == 0 <==> u == v
  {
  }

  /** The window of the division after k steps: k steps of the register, plus the bits that have come in. */
  function Window(b: seq<bool>, t: seq<bool>, k: nat): (w: seq<bool>)
    requires |b| == 16 && k <= 16 && k <= |t|
    ensures |w| == 16
  {
    Add(Shifts(b, k), Zero(16 - k) + t[..k])
  }

  /** One step of the division moves the window by one. */
  lemma DivideOnce(b: seq<bool>, t: seq<bool>, k: nat)
    requires |b| == 16 && k < 16 && k < |t|
    ensures Remainder(Window(b, t, k) + t[k..]) == Remainder(Window(b, t, k + 1) + t[k + 1..])
  {
    hide Shifts;
    var w, v := Window(b, t, k), Window(b, t, k + 1);
    var c := Shifts(b, k);
    assert Shifts(b, k + 1) == Shift(c) by { ShiftsNext(b, k); }
    var m := w + t[k..];
    assert m[0] == w[0] == c[0];
    assert m[..17] == w + [t[k]] && m[17..] == t[k + 1..];
    NextWindow(c, t, k);
    if m[0] {
      assert Add(m[..17], Divisor())[1..] == v;
    } else {
      assert m[1..] == v + t[k + 1..];
    }
  }

  lemma ShiftsNext(b: seq<bool>, k: nat)
    requires |b| == 16
    ensures Shifts(b, k + 1) == Shift(Shifts(b, k))
  {
  }

  lemma NextWindow(c: seq<bool>, t: seq<bool>, k: nat)
    requires |c| == 16 && k < 16 && k < |t|
    ensures var w := Add(c, Zero(16 - k) + t[..k]);
      var v := Add(Shift(c), Zero(15 - k) + t[..k + 1]);
      forall x | 0 <= x < 16 ::
        v[x] == ((if x < 15 then w[x + 1] else t[k]) != (c[0] && Divisor()[x + 1]))
  {
  }

  lemma {:induction false} DivideWord(b: seq<bool>, t: seq<bool>, k: nat)
    requires |b| == 16 && k <= 16 <= |t|
    ensures Remainder(Window(b, t, k) + t[k..]) == Remainder(Add(Shifts(b, 16), t[..16]) + t[16..])
    decreases 16 - k
  {
    hide Shifts, Remainder;
    if k < 16 {
      DivideOnce(b, t, k);
      DivideWord(b, t, k + 1);
    } else {
      assert Zero(0) + t[..16] == t[..16];
    }
  }

  /** On every stream and from every start value, the running CRC is the remainder of the message, followed by
      sixteen zeros and with the start value added to its head, divided by x^16 + x^15 + x^2 + 1. */
  lemma {:induction false} StreamIsRemainder(ws: seq<bv16>, crc: bv16)
    ensures BitsOf(Stream(ws, crc)) == Remainder(Add(Message(ws) + Zero(16), BitsOf(crc) + Zero(16 * |ws|)))
  {
    hide BitsOf, Crc16Of, Remainder, Divisor;
    if ws == [] {
      NoMessage(crc);
    } else {
      var w, rest := ws[0], ws[1..];
      var x := Xor16(crc, w);
      var t := Message(rest) + Zero(16);
      var next := Crc16Of(w, crc);
      StreamSplit([w], rest, crc);
      assert ws == [w] + rest;
      assert Stream([w], crc) == next by { assert [w][..0] == []; }
      StreamIsRemainder(rest, next);
      Crc16IsSteps(w, crc);
      XorBits(crc, w);
      StepsBits(x, 16);
      DivideWord(BitsOf(x), t, 0);
      FirstWindow(BitsOf(x), t);
      Regrouped(BitsOf(crc), BitsOf(w), Message(rest));
      NextHead(BitsOf(next), t);
    }
  }

  lemma NoMessage(crc: bv16)
    ensures Remainder(Add(Message([]) + Zero(16), BitsOf(crc) + Zero(0))) == BitsOf(crc)
  {
    hide BitsOf;
    assert Add(Message([]) + Zero(16), BitsOf(crc) + Zero(0)) == BitsOf(crc);
  }

  lemma FirstWindow(b: seq<bool>, t: seq<bool>)
    requires |b| == 16
    ensures Window(b, t, 0) + t[0..] == b + t
  {
    assert Add(b, Zero(16) + t[..0]) == b;
  }

  lemma Regrouped(a: seq<bool>, b: seq<bool>, m: seq<bool>)
    requires |a| == |b| == 16
    ensures Add((b + m) + Zero(16), a + Zero(16 + |m|)) == Add(a, b) + (m + Zero(16))
  {
  }

  lemma NextHead(a: seq<bool>, t: seq<bool>)
    requires |a| == 16 <= |t|
    ensures Add(t, a + Zero(|t| - 16)) == Add(a, t[..16]) + t[16..]
  {
  }
}
