/**
  The persistent fault record `ARM_FaultInfo` as 36 little-endian 32-bit
  words (layout version 0.2), its byte image, and the validity check
  `ARM_FaultOccurred`.

  Word layout (byte offset = 4 * index):
    0 magic_number   1 crc32   2 count   3 info
    4..16  R0..R12   17 LR   18 ReturnAddress   19 xPSR
    20 IntegritySignature
    21 EXC_xPSR   22 EXC_RETURN   23 MSP   24 PSP   25 MSPLIM   26 PSPLIM
    27 CFSR  28 HFSR  29 DFSR  30 MMFAR  31 BFAR  32 AFSR
    33 SFSR  34 SFAR  35 RFSR
*/
module FaultRecord {
  import opened Crc32

  const MAGIC_NUMBER: bv32 := 0x5274_6C46     // ASCII "FltR"
  const CRC32_INIT_VAL: bv32 := 0xFFFF_FFFF
  const CRC32_POLYNOM: bv32 := 0x04C1_1DB7

  const MAGIC: nat := 0
  const CRC: nat := 1
  const COUNT: nat := 2
  const INFO: nat := 3
  const R0: nat := 4
  const R1: nat := 5
  const R2: nat := 6
  const R3: nat := 7
  const R4: nat := 8
  const R5: nat := 9
  const R6: nat := 10
  const R7: nat := 11
  const R8: nat := 12
  const R9: nat := 13
  const R10: nat := 14
  const R11: nat := 15
  const R12: nat := 16
  const LR: nat := 17
  const RETURN_ADDRESS: nat := 18
  const XPSR: nat := 19
  const INTEGRITY_SIGNATURE: nat := 20
  const EXC_XPSR: nat := 21
  const EXC_RETURN: nat := 22
  const MSP: nat := 23
  const PSP: nat := 24
  const MSPLIM: nat := 25
  const PSPLIM: nat := 26
  const CFSR: nat := 27
  const HFSR: nat := 28
  const DFSR: nat := 29
  const MMFAR: nat := 30
  const BFAR: nat := 31
  const AFSR: nat := 32
  const SFSR: nat := 33
  const SFAR: nat := 34
  const RFSR: nat := 35
  const RECORD_WORDS: nat := 36

  /** sizeof(ARM_FaultInfo) */
  const RECORD_BYTES: nat := 4 * RECORD_WORDS
  /** Byte offset of `count`, where the CRC starts. */
  const COUNT_OFFSET: nat := 4 * COUNT
  /** sizeof(ARM_FaultInfo) - (sizeof(magic_number) + sizeof(crc32)) */
  const COVERED_LEN: nat := RECORD_BYTES - (4 + 4)

  type Record = r: seq<bv32> | |r| == RECORD_WORDS witness ZeroRecord()

  function ZeroRecord(): (r: seq<bv32>)
    ensures |r| == RECORD_WORDS
    ensures forall i :: 0 <= i < |r| ==> r[i] == 0
  {
    seq(RECORD_WORDS, _ => 0)
  }

  /** Byte `j` of a word stored little-endian. */
  function ByteOf(w: bv32, j: nat): (r: bv8)
    requires j < 4
  {
    (match j
     case 0 => w & 0xFF
     case 1 => (w >> 8) & 0xFF
     case 2 => (w >> 16) & 0xFF
     case _ => w >> 24) as bv8
  }

  /** The memory image of a run of words, lowest address first. */
  function WordsBytes(ws: seq<bv32>): (bs: seq<bv8>)
    ensures |bs| == 4 * |ws|
  {
    seq(4 * |ws|, k requires 0 <= k < 4 * |ws| => ByteOf(ws[k / 4], k % 4))
  }

  /** The bytes the CRC is computed over: `COVERED_LEN` bytes from `&count`. */
  function CoveredBytes(rec: Record): (bs: seq<bv8>)
    ensures |bs| == COVERED_LEN
  {
    WordsBytes(rec)[COUNT_OFFSET .. COUNT_OFFSET + COVERED_LEN]
  }

  /** The CRC over a record's covered bytes with the record's parameters. */
  function RecordCrc(rec: Record): (r: bv32) {
    Crc(CRC32_INIT_VAL, CoveredBytes(rec), CRC32_POLYNOM)
  }

  /** ARM_FaultOccurred: 1 when the magic number is present and the stored
      CRC matches a recomputation, 0 otherwise. */
  function Validate(rec: Record): (r: bv32)
    ensures r == 0 || r == 1
    ensures r == 1 <==> rec[MAGIC] == MAGIC_NUMBER && rec[CRC] == RecordCrc(rec)
  {
    var magicOk := rec[MAGIC] == MAGIC_NUMBER;
    var crcOk := magicOk && rec[CRC] == RecordCrc(rec);
    if crcOk then 1 else 0
  }

  /** The last two stores of a capture: the CRC over the record as it stands,
      then the magic number. */
  function Seal(rec: Record): (r: Record) {
    rec[CRC := RecordCrc(rec)][MAGIC := MAGIC_NUMBER]
  }

  /** Byte `p` of the record's memory image, counted from `&magic_number`,
      as it appears in the covered bytes. */
  lemma CoveredByte(rec: Record, p: nat)
    requires COUNT_OFFSET <= p < RECORD_BYTES
    ensures CoveredBytes(rec)[p - COUNT_OFFSET] == ByteOf(rec[p / 4], p % 4)
  {}

  /** The CRC covers exactly the words from `count` to the end of the record:
      nothing of `magic_number` or `crc32`, and nothing beyond the record. */
  lemma CoveredBytesAreBody(rec: Record)
    ensures CoveredBytes(rec) == WordsBytes(rec[COUNT..])
  {
    var a := CoveredBytes(rec);
    var b := WordsBytes(rec[COUNT..]);
    forall k | 0 <= k < COVERED_LEN
      ensures a[k] == b[k]
    {
      assert (k + COUNT_OFFSET) / 4 == k / 4 + COUNT;
      assert (k + COUNT_OFFSET) % 4 == k % 4;
    }
  }

  /** Two records that agree from `count` on have the same CRC. */
  lemma RecordCrcIgnoresHeader(a: Record, b: Record)
    requires a[COUNT..] == b[COUNT..]
    ensures RecordCrc(a) == RecordCrc(b)
  {
    CoveredBytesAreBody(a);
    CoveredBytesAreBody(b);
  }

  /** Sealing any record makes it pass validation: the CRC is taken after
      every covered field is final, and the two words written afterwards lie
      outside the covered range. */
  lemma SealValidates(rec: Record)
    ensures Validate(Seal(rec)) == 1
  {
    RecordCrcIgnoresHeader(rec, Seal(rec));
  }

  /** Sealing writes only `magic_number` and `crc32`: a run of words from
      `count` on is left as it was. */
  lemma SealKeepsBody(rec: Record, lo: nat, hi: nat)
    requires COUNT <= lo <= hi <= RECORD_WORDS
    ensures Seal(rec)[lo..hi] == rec[lo..hi]
  {}

  lemma SealKeepsWord(rec: Record, i: nat)
    requires COUNT <= i < RECORD_WORDS
    ensures Seal(rec)[i] == rec[i]
  {}

  /** Until the magic number is stored, no record passes validation. */
  lemma UnsealedIsInvalid(rec: Record)
    requires rec[MAGIC] != MAGIC_NUMBER
    ensures Validate(rec) == 0
  {}

  /** A cleared record does not pass validation. */
  lemma ZeroRecordIsInvalid()
    ensures Validate(ZeroRecord()) == 0
  {}

  /** Any single-byte corruption of the covered range of a valid record is
      detected. */
  lemma SingleByteCorruptionDetected(rec: Record, bad: Record, k: nat, v: bv8)
    requires Validate(rec) == 1
    requires bad[MAGIC] == rec[MAGIC] && bad[CRC] == rec[CRC]
    requires k < COVERED_LEN && v != CoveredBytes(rec)[k]
    requires CoveredBytes(bad) == CoveredBytes(rec)[k := v]
    ensures Validate(bad) == 0
  {
    CrcDetectsByteChange(CRC32_INIT_VAL, CoveredBytes(rec), k, v, CRC32_POLYNOM);
  }
}
