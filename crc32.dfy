/**
  The bitwise CRC-32 used to seal the fault record: MSB-first, no input or
  output reflection, no final XOR. With polynomial 0x04C11DB7 and initial
  value 0xFFFFFFFF this is the CRC-32/MPEG-2 parameter set of ISO/IEC 13818-1,
  Annex A.

  The specification is a left fold over the bytes (`Crc`); `CalcCRC32` is the
  nested-loop implementation, proved equal to it. The second half of the
  module proves that the CRC detects every single-byte change of its input
  whenever the polynomial is odd, which 0x04C11DB7 is.
*/
module Crc32 {

  /** One clock of the shift register: shift left by one and, when a 1 left
      bit 31, XOR in the polynomial. */
  function Step(c: bv32, poly: bv32): (r: bv32) {
    if c & 0x8000_0000 != 0 then (c << 1) ^ poly else c << 1
  }

  /** `n` clocks of the shift register. */
  function Shifts(c: bv32, n: nat, poly: bv32): (r: bv32)
    decreases n
  {
    if n == 0 then c else Shifts(Step(c, poly), n - 1, poly)
  }

  /** One input byte: XOR it into bits 31..24, then clock eight times. */
  function CrcByte(c: bv32, b: bv8, poly: bv32): (r: bv32) {
    Shifts(c ^ ((b as bv32) << 24), 8, poly)
  }

  /** The CRC of `data` started from register value `c`: a left fold of
      `CrcByte` over the bytes. */
  function Crc(c: bv32, data: seq<bv8>, poly: bv32): (r: bv32)
    decreases |data|
  {
    if |data| == 0 then c else Crc(CrcByte(c, data[0], poly), data[1..], poly)
  }

  /** Eight clocks of the shift register, one conditional shift at a time:
      the inner loop of both CRC loops of the source. */
  method ClockByte(c: bv32, polynom: bv32) returns (crc32: bv32)
    ensures crc32 == Shifts(c, 8, polynom)
  {
    crc32 := c;
    var i: nat := 8;
    while i != 0
      invariant i <= 8
      invariant Shifts(crc32, i, polynom) == Shifts(c, 8, polynom)
    {
      ShiftsUnfold(crc32, i, polynom);
      if crc32 & 0x8000_0000 != 0 {
        crc32 := crc32 << 1;
        crc32 := crc32 ^ polynom;
      } else {
        crc32 := crc32 << 1;
      }
      i := i - 1;
    }
  }

  /** The source's helper: an outer loop over the bytes, each XORed into
      bits 31..24 and then clocked eight times. */
  method CalcCRC32(initVal: bv32, data: seq<bv8>, polynom: bv32) returns (crc32: bv32)
    ensures crc32 == Crc(initVal, data, polynom)
    ensures |data| == 0 ==> crc32 == initVal
  {
    crc32 := initVal;
    var ptr := 0;
    var len := |data|;
    while len != 0
      invariant 0 <= ptr <= |data| && len == |data| - ptr
      invariant Crc(crc32, data[ptr..], polynom) == Crc(initVal, data, polynom)
    {
      CrcUnfold(crc32, data, ptr, polynom);
      crc32 := crc32 ^ ((data[ptr] as bv32) << 24);
      crc32 := ClockByte(crc32, polynom);
      ptr := ptr + 1;
      len := len - 1;
    }
  }

  /** One clock taken off the front of `n`. */
  lemma ShiftsUnfold(c: bv32, n: nat, poly: bv32)
    requires n > 0
    ensures Shifts(c, n, poly) == Shifts(Step(c, poly), n - 1, poly)
  {}

  /** One step of the fold, taken at position `ptr`. */
  lemma CrcUnfold(c: bv32, data: seq<bv8>, ptr: nat, poly: bv32)
    requires ptr < |data|
    ensures Crc(c, data[ptr..], poly) == Crc(CrcByte(c, data[ptr], poly), data[ptr + 1..], poly)
  {
    assert data[ptr..][1..] == data[ptr + 1..];
  }

  /** The fold can be split anywhere: feeding `a` and then `b` is feeding
      `a + b`. */
  lemma {:induction false} CrcAppend(c: bv32, a: seq<bv8>, b: seq<bv8>, poly: bv32)
    ensures Crc(c, a + b, poly) == Crc(Crc(c, a, poly), b, poly)
    decreases |a|
  {
    if |a| == 0 {
      assert a + b == b;
    } else {
      assert (a + b)[1..] == a[1..] + b;
      CrcAppend(CrcByte(c, a[0], poly), a[1..], b, poly);
    }
  }

  // ---------------------------------------------------------------------------
  // Error detection

  /** Inverse of `Step` for an odd polynomial: bit 0 of the result tells
      whether the polynomial was XORed in, and so what bit 31 was. */
  function Unstep(d: bv32, poly: bv32): (r: bv32) {
    if d & 1 != 0 then ((d ^ poly) >> 1) | 0x8000_0000 else d >> 1
  }

  lemma HighBitStepIsOdd(c: bv32, poly: bv32)
    requires poly & 1 == 1
    ensures ((c << 1) ^ poly) & 1 != 0
  {}

  lemma HighBitStepUndone(c: bv32, poly: bv32)
    requires c & 0x8000_0000 != 0
    ensures ((((c << 1) ^ poly) ^ poly) >> 1) | 0x8000_0000 == c
  {}

  lemma LowBitStepIsEven(c: bv32)
    ensures (c << 1) & 1 == 0
  {}

  lemma LowBitStepUndone(c: bv32)
    requires c & 0x8000_0000 == 0
    ensures (c << 1) >> 1 == c
  {}

  /** Round trip: with an odd polynomial no clock of the register loses
      information. */
  lemma StepRoundTrip(c: bv32, poly: bv32)
    requires poly & 1 == 1
    ensures Unstep(Step(c, poly), poly) == c
  {
    if c & 0x8000_0000 != 0 {
      HighBitStepIsOdd(c, poly);
      HighBitStepUndone(c, poly);
    } else {
      LowBitStepIsEven(c);
      LowBitStepUndone(c);
    }
  }

  /** Different register values stay different after any number of clocks. */
  lemma {:induction false} ShiftsInjective(a: bv32, b: bv32, n: nat, poly: bv32)
    requires poly & 1 == 1
    requires a != b
    ensures Shifts(a, n, poly) != Shifts(b, n, poly)
    decreases n
  {
    if n > 0 {
      StepRoundTrip(a, poly);
      StepRoundTrip(b, poly);
      ShiftsInjective(Step(a, poly), Step(b, poly), n - 1, poly);
    }
  }

  lemma ByteLaneKeepsDifference(c1: bv32, c2: bv32, b: bv8)
    requires c1 != c2
    ensures c1 ^ ((b as bv32) << 24) != c2 ^ ((b as bv32) << 24)
  {}

  /** Different register values stay different after one more byte. */
  lemma CrcByteInjectiveInRegister(c1: bv32, c2: bv32, b: bv8, poly: bv32)
    requires poly & 1 == 1
    requires c1 != c2
    ensures CrcByte(c1, b, poly) != CrcByte(c2, b, poly)
  {
    ByteLaneKeepsDifference(c1, c2, b);
    ShiftsInjective(c1 ^ ((b as bv32) << 24), c2 ^ ((b as bv32) << 24), 8, poly);
    assert CrcByte(c1, b, poly) == Shifts(c1 ^ ((b as bv32) << 24), 8, poly);
  }

  /** Two different register values stay different whatever bytes follow. */
  lemma {:induction false} CrcInjectiveInRegister(c1: bv32, c2: bv32, data: seq<bv8>, poly: bv32)
    requires poly & 1 == 1
    requires c1 != c2
    ensures Crc(c1, data, poly) != Crc(c2, data, poly)
    decreases |data|
  {
    if |data| > 0 {
      CrcByteInjectiveInRegister(c1, c2, data[0], poly);
      CrcInjectiveInRegister(CrcByte(c1, data[0], poly), CrcByte(c2, data[0], poly), data[1..], poly);
    }
  }

  lemma ByteLaneInjective(c: bv32, x: bv8, y: bv8)
    requires x != y
    ensures c ^ ((x as bv32) << 24) != c ^ ((y as bv32) << 24)
  {}

  /** From the same register value, two different bytes leave different
      register values. */
  lemma CrcByteInjectiveInByte(c: bv32, x: bv8, y: bv8, poly: bv32)
    requires poly & 1 == 1
    requires x != y
    ensures CrcByte(c, x, poly) != CrcByte(c, y, poly)
  {
    ByteLaneInjective(c, x, y);
    ShiftsInjective(c ^ ((x as bv32) << 24), c ^ ((y as bv32) << 24), 8, poly);
  }

  /** Replacing any one byte of the input by a different value changes the
      CRC. */
  lemma {:induction false} CrcDetectsByteChange(c: bv32, data: seq<bv8>, k: nat, v: bv8, poly: bv32)
    requires poly & 1 == 1
    requires k < |data| && v != data[k]
    ensures Crc(c, data[k := v], poly) != Crc(c, data, poly)
    decreases k
  {
    var bad := data[k := v];
    assert bad[0] == (if k == 0 then v else data[0]);
    assert bad[1..] == if k == 0 then data[1..] else data[1..][k - 1 := v];
    if k == 0 {
      CrcByteInjectiveInByte(c, v, data[0], poly);
      CrcInjectiveInRegister(CrcByte(c, v, poly), CrcByte(c, data[0], poly), data[1..], poly);
    } else {
      CrcDetectsByteChange(CrcByte(c, data[0], poly), data[1..], k - 1, v, poly);
    }
  }

  // ---------------------------------------------------------------------------
  // Known answer

  /** The register after `|t|` clocks is the last entry of a trace `t` whose
      every entry is one clock after the entry before it. */
  lemma {:induction false} ShiftsTrace(c: bv32, t: seq<bv32>, poly: bv32)
    requires |t| > 0 && t[0] == Step(c, poly)
    requires forall i :: 0 < i < |t| ==> t[i] == Step(t[i - 1], poly)
    ensures Shifts(c, |t|, poly) == t[|t| - 1]
    decreases |t|
  {
    if |t| > 1 {
      ShiftsTrace(t[0], t[1..], poly);
    }
  }

  /** The CRC of `data` is the last entry of a trace `t` that holds the
      register after each byte. */
  lemma {:induction false} CrcTrace(c: bv32, data: seq<bv8>, t: seq<bv32>, poly: bv32)
    requires |t| == |data| > 0 && t[0] == CrcByte(c, data[0], poly)
    requires forall i :: 0 < i < |t| ==> t[i] == CrcByte(t[i - 1], data[i], poly)
    ensures Crc(c, data, poly) == t[|t| - 1]
    decreases |t|
  {
    if |t| > 1 {
      CrcTrace(t[0], data[1..], t[1..], poly);
    }
  }

  /** Byte 1 of the check string, '1'. */
  lemma CheckByteOne()
    ensures CrcByte(0xFFFF_FFFF, 0x31, 0x04C1_1DB7) == 0x9EFB_CF93
  {
    ShiftsTrace(0xFFFF_FFFF ^ (0x31 as bv32 << 24),
                [0x993E_E249, 0x36BC_D925, 0x6D79_B24A, 0xDAF3_6494,
                 0xB127_D49F, 0x668E_B489, 0xCD1D_6912, 0x9EFB_CF93], 0x04C1_1DB7);
  }

  /** Byte 2 of the check string, '2'. */
  lemma CheckByteTwo()
    ensures CrcByte(0x9EFB_CF93, 0x32, 0x04C1_1DB7) == 0x3FEC_5E6A
  {
    ShiftsTrace(0x9EFB_CF93 ^ (0x32 as bv32 << 24),
                [0x5D36_8291, 0xBA6D_0522, 0x701B_17F3, 0xE036_2FE6,
                 0xC4AD_427B, 0x8D9B_9941, 0x1FF6_2F35, 0x3FEC_5E6A], 0x04C1_1DB7);
  }

  /** Byte 3 of the check string, '3'. */
  lemma CheckByteThree()
    ensures CrcByte(0x3FEC_5E6A, 0x33, 0x04C1_1DB7) == 0xD952_F164
  {
    ShiftsTrace(0x3FEC_5E6A ^ (0x33 as bv32 << 24),
                [0x19D8_BCD4, 0x33B1_79A8, 0x6762_F350, 0xCEC5_E6A0,
                 0x994A_D0F7, 0x3654_BC59, 0x6CA9_78B2, 0xD952_F164], 0x04C1_1DB7);
  }

  /** Byte 4 of the check string, '4'. */
  lemma CheckByteFour()
    ensures CrcByte(0xD952_F164, 0x34, 0x04C1_1DB7) == 0xA695_C4AA
  {
    ShiftsTrace(0xD952_F164 ^ (0x34 as bv32 << 24),
                [0xDE64_FF7F, 0xB808_E349, 0x74D0_DB25, 0xE9A1_B64A,
                 0xD782_7123, 0xABC5_FFF1, 0x534A_E255, 0xA695_C4AA], 0x04C1_1DB7);
  }

  /** Byte 5 of the check string, '5'. */
  lemma CheckByteFive()
    ensures CrcByte(0xA695_C4AA, 0x35, 0x04C1_1DB7) == 0xBD9A_B747
  {
    ShiftsTrace(0xA695_C4AA ^ (0x35 as bv32 << 24),
                [0x23EA_94E3, 0x47D5_29C6, 0x8FAA_538C, 0x1B95_BAAF,
                 0x372B_755E, 0x6E56_EABC, 0xDCAD_D578, 0xBD9A_B747], 0x04C1_1DB7);
  }

  /** Byte 6 of the check string, '6'. */
  lemma CheckByteSix()
    ensures CrcByte(0xBD9A_B747, 0x36, 0x04C1_1DB7) == 0xD8F0_6C8F
  {
    ShiftsTrace(0xBD9A_B747 ^ (0x36 as bv32 << 24),
                [0x13F4_7339, 0x27E8_E672, 0x4FD1_CCE4, 0x9FA3_99C8,
                 0x3B86_2E27, 0x770C_5C4E, 0xEE18_B89C, 0xD8F0_6C8F], 0x04C1_1DB7);
  }

  /** Byte 7 of the check string, '7'. */
  lemma CheckByteSeven()
    ensures CrcByte(0xD8F0_6C8F, 0x37, 0x04C1_1DB7) == 0x0D8A_14C4
  {
    ShiftsTrace(0xD8F0_6C8F ^ (0x37 as bv32 << 24),
                [0xDB21_C4A9, 0xB282_94E5, 0x61C4_347D, 0xC388_68FA,
                 0x83D1_CC43, 0x0362_8531, 0x06C5_0A62, 0x0D8A_14C4], 0x04C1_1DB7);
  }

  /** Byte 8 of the check string, '8'. */
  lemma CheckByteEight()
    ensures CrcByte(0x0D8A_14C4, 0x38, 0x04C1_1DB7) == 0x49E3_C2FB
  {
    ShiftsTrace(0x0D8A_14C4 ^ (0x38 as bv32 << 24),
                [0x6B14_2988, 0xD628_5310, 0xA891_BB97, 0x55E2_6A99,
                 0xABC4_D532, 0x5348_B7D3, 0xA691_6FA6, 0x49E3_C2FB], 0x04C1_1DB7);
  }

  /** Byte 9 of the check string, '9'. */
  lemma CheckByteNine()
    ensures CrcByte(0x49E3_C2FB, 0x39, 0x04C1_1DB7) == 0x0376_E6E7
  {
    ShiftsTrace(0x49E3_C2FB ^ (0x39 as bv32 << 24),
                [0xE1C7_85F6, 0xC74E_165B, 0x8A5D_3101, 0x107B_7FB5,
                 0x20F6_FF6A, 0x41ED_FED4, 0x83DB_FDA8, 0x0376_E6E7], 0x04C1_1DB7);
  }

  /** The check value of the CRC-32/MPEG-2 parameter set: the CRC of the
      ASCII string "123456789" from 0xFFFFFFFF under 0x04C11DB7 is
      0x0376E6E7. */
  lemma CheckValue()
    ensures Crc(0xFFFF_FFFF, [0x31, 0x32, 0x33, 0x34, 0x35, 0x36, 0x37, 0x38, 0x39], 0x04C1_1DB7) == 0x0376_E6E7
  {
    CheckByteOne();
    CheckByteTwo();
    CheckByteThree();
    CheckByteFour();
    CheckByteFive();
    CheckByteSix();
    CheckByteSeven();
    CheckByteEight();
    CheckByteNine();
    CrcTrace(0xFFFF_FFFF, [0x31, 0x32, 0x33, 0x34, 0x35, 0x36, 0x37, 0x38, 0x39],
             [0x9EFB_CF93, 0x3FEC_5E6A, 0xD952_F164, 0xA695_C4AA, 0xBD9A_B747,
              0xD8F0_6C8F, 0x0D8A_14C4, 0x49E3_C2FB, 0x0376_E6E7], 0x04C1_1DB7);
  }
}
