/**
  The fault record as the program holds it: `ARM_FaultInfo`, a global of
  36 words in a section that start-up code does not initialise, so that it
  survives a reset. `FaultStore` owns that memory as an array of words and
  offers the three entry points of the store: `Clear` (ARM_FaultClear),
  `Occurred` (ARM_FaultOccurred) and `Save` (ARM_FaultSave).

  Every method is proved against the functions of `FaultRecord` and
  `FaultCapture`: `Save` leaves exactly `Captured(cfg, cpu, count)` behind,
  each of its steps leaves exactly the corresponding stage, and the
  properties proved about those functions then hold of the store.
*/
module FaultStorage {
  import opened Crc32
  import opened FaultRecord
  import opened FaultCapture

  /** Stack pointer selection: EXC_RETURN.SPSEL picks MSP or PSP; a Secure
      build picks the Non-secure alias when EXC_RETURN.S is 0 and notes
      that the Non-secure aliases are in use. */
  method SelectStack(cfg: Config, cpu: Cpu) returns (sp: bv32, ns: bool)
    ensures ns == NsAlias(cfg, cpu.excReturn)
    ensures sp == StackPointer(cfg, cpu)
    ensures sp == if cpu.excReturn & EXC_RETURN_SPSEL == 0
                  then (if ns then cpu.mspNs else cpu.msp)
                  else (if ns then cpu.pspNs else cpu.psp)
  {
    ns := false;
    if cpu.excReturn & EXC_RETURN_SPSEL != 0 {
      if cfg.tzSecure && cpu.excReturn & EXC_RETURN_S == 0 {
        sp := cpu.pspNs;
        ns := true;
      } else {
        sp := cpu.psp;
      }
    } else {
      if cfg.tzSecure && cpu.excReturn & EXC_RETURN_S == 0 {
        sp := cpu.mspNs;
        ns := true;
      } else {
        sp := cpu.msp;
      }
    }
  }

  /** Stack validity: a null stack pointer, or a stacking error in the CFSR
      of the alias in use, marks the stacked context as untrustworthy.
      Without fault registers only the null check is made. */
  method CheckStack(cfg: Config, cpu: Cpu, sp: bv32, ns: bool) returns (invalid: bool)
    requires sp == StackPointer(cfg, cpu) && ns == NsAlias(cfg, cpu.excReturn)
    ensures invalid == !StackValid(cfg, cpu)
    ensures sp == 0 ==> invalid
    ensures !cfg.faultRegsExist ==> (invalid <==> sp == 0)
  {
    invalid := false;
    if sp == 0 {
      invalid := true;
    } else if cfg.faultRegsExist {
      var scb := if ns then cpu.scbNs else cpu.scb;
      assert scb == ActiveScb(cfg, cpu);
      if scb.cfsr & StackErrMask(cfg) != 0 {
        invalid := true;
      }
    }
  }

  class FaultStore {
    /** ARM_FaultInfo, one array element per 32-bit field. */
    var words: array<bv32>

    ghost predicate Valid()
      reads this
    {
      words.Length == RECORD_WORDS
    }

    /** The record as it is found at power-up: whatever the memory held. */
    constructor (init: Record)
      ensures Valid() && fresh(words)
      ensures words[..] == init
    {
      words := new bv32[RECORD_WORDS](i requires 0 <= i < RECORD_WORDS => init[i]);
    }

    /** Zero every word of the record, lowest address first. */
    method ClearWords()
      requires Valid()
      modifies words
      ensures Valid()
      ensures words[..] == ZeroRecord()
    {
      var i := 0;
      while i < RECORD_WORDS
        invariant 0 <= i <= RECORD_WORDS
        invariant forall k :: 0 <= k < i ==> words[k] == 0
      {
        words[i] := 0;
        i := i + 1;
      }
    }

    /** ARM_FaultClear: the whole record becomes zero, and so no longer
        passes validation. */
    method Clear()
      requires Valid()
      modifies words
      ensures Valid()
      ensures words[..] == ZeroRecord()
      ensures Validate(words[..]) == 0
    {
      ClearWords();
      ZeroRecordIsInvalid();
    }

    /** The CRC of the covered bytes, read one byte at a time from `&count`
        upward and folded in with eight conditional shifts each. The third
        block runs this loop with `CRC32_INIT_VAL` and `CRC32_POLYNOM`. */
    method CoveredCrc(initVal: bv32, polynom: bv32) returns (crc: bv32)
      requires Valid()
      ensures crc == Crc(initVal, CoveredBytes(words[..]), polynom)
    {
      ghost var data := CoveredBytes(words[..]);
      crc := initVal;
      var ptr := COUNT_OFFSET;
      var len := COVERED_LEN;
      while len != 0
        invariant COUNT_OFFSET <= ptr <= RECORD_BYTES && len == RECORD_BYTES - ptr
        invariant Crc(crc, data[ptr - COUNT_OFFSET..], polynom) == Crc(initVal, data, polynom)
      {
        ghost var k := ptr - COUNT_OFFSET;
        CrcUnfold(crc, data, k, polynom);
        CoveredByte(words[..], ptr);
        var b := ByteOf(words[ptr / 4], ptr % 4);
        crc := crc ^ ((b as bv32) << 24);
        crc := ClockByte(crc, polynom);
        ptr := ptr + 1;
        len := len - 1;
      }
    }

    /** ARM_FaultOccurred: 1 exactly when the magic number is in place and
        the stored CRC equals a recomputation over the covered bytes. */
    method Occurred() returns (status: bv32)
      requires Valid()
      ensures status == Validate(words[..])
      ensures status == 0 || status == 1
      ensures status == 1 <==> words[MAGIC] == MAGIC_NUMBER && words[CRC] == RecordCrc(words[..])
    {
      status := 1;
      if words[MAGIC] != MAGIC_NUMBER {
        status := 0;
      }
      if status != 0 {
        var crc := CalcCRC32(CRC32_INIT_VAL, CoveredBytes(words[..]), CRC32_POLYNOM);
        if words[CRC] != crc {
          status := 0;
        }
      }
    }

    // -------------------------------------------------------------------------
    // ARM_FaultSave, step by step

    /** Clear the record, then store `count + 1` and the compile-time info. */
    method StoreHeader(cfg: Config)
      requires Valid()
      modifies words
      ensures Valid()
      ensures words[..] == Reset(cfg, old(words[COUNT]))
    {
      var count := words[COUNT];
      ClearWords();
      words[COUNT] := count + 1;
      words[INFO] := InfoValue(cfg);
    }

    method StoreLiveCalleeSaved(r: Regs8)
      requires Valid()
      modifies words
      ensures Valid()
      ensures words[..] == WithLiveCalleeSaved(r, old(words[..]))
    {
      words[R4] := r[0];
      words[R5] := r[1];
      words[R6] := r[2];
      words[R7] := r[3];
      words[R8] := r[4];
      words[R9] := r[5];
      words[R10] := r[6];
      words[R11] := r[7];
    }

    method StoreFaultMode(cfg: Config, cpu: Cpu, ns: bool)
      requires Valid() && ns == NsAlias(cfg, cpu.excReturn)
      modifies words
      ensures Valid()
      ensures words[..] == WithFaultMode(cfg, cpu, old(words[..]))
    {
      if cfg.tzSecure && !ns {
        words[INFO] := Or(words[INFO], INFO_TZ_FAULT_MODE);
      }
    }

    /** The additional state context at `sp`: IntegritySignature, the
        reserved word (skipped), then R4..R11. */
    method StoreAdditionalContext(m: bv32 -> bv32, sp: bv32)
      requires Valid()
      modifies words
      ensures Valid()
      ensures words[..] == WithAdditionalContext(m, sp, old(words[..]))
    {
      words[INTEGRITY_SIGNATURE] := m(sp);
      words[R4] := m(sp + 8);
      words[R5] := m(sp + 12);
      words[R6] := m(sp + 16);
      words[R7] := m(sp + 20);
      words[R8] := m(sp + 24);
      words[R9] := m(sp + 28);
      words[R10] := m(sp + 32);
      words[R11] := m(sp + 36);
    }

    /** The basic frame at `b`: R0..R3, then R12, LR, ReturnAddress, xPSR. */
    method StoreBasicFrame(m: bv32 -> bv32, b: bv32)
      requires Valid()
      modifies words
      ensures Valid()
      ensures words[..] == WithBasicFrame(m, b, old(words[..]))
    {
      words[R0] := m(b);
      words[R1] := m(b + 4);
      words[R2] := m(b + 8);
      words[R3] := m(b + 12);
      words[R12] := m(b + 16);
      words[LR] := m(b + 20);
      words[RETURN_ADDRESS] := m(b + 24);
      words[XPSR] := m(b + 28);
    }

    /** The stacked context, when the stack is valid: the additional state
        context first where it was stacked (Armv8-M with EXC_RETURN.DCRS 0),
        then the basic frame above it. */
    method StoreStateContext(cfg: Config, cpu: Cpu, sp: bv32, invalid: bool)
      requires Valid()
      requires sp == StackPointer(cfg, cpu) && invalid == !StackValid(cfg, cpu)
      modifies words
      ensures Valid()
      ensures words[..] == WithStateContext(cfg, cpu, old(words[..]))
    {
      if !invalid {
        var b := sp;
        if cfg.armv8xM && cpu.excReturn & EXC_RETURN_DCRS == 0 {
          StoreAdditionalContext(cpu.mem, sp);
          b := sp + 40;
        }
        StoreBasicFrame(cpu.mem, b);
        words[INFO] := Or(words[INFO], INFO_STATE_CONTEXT);
      }
    }

    /** EXC_xPSR, EXC_RETURN, then MSP and PSP of the alias in use. */
    method StoreExceptionContext(cfg: Config, cpu: Cpu, ns: bool)
      requires Valid() && ns == NsAlias(cfg, cpu.excReturn)
      modifies words
      ensures Valid()
      ensures words[..] == WithExceptionContext(cfg, cpu, old(words[..]))
    {
      words[EXC_XPSR] := cpu.xpsr;
      words[EXC_RETURN] := cpu.excReturn;
      words[MSP] := if ns then cpu.mspNs else cpu.msp;
      words[PSP] := if ns then cpu.pspNs else cpu.psp;
    }

    /** MSPLIM and PSPLIM on Armv8-M; a Baseline build using the Non-secure
        aliases skips them, since MSPLIM_NS and PSPLIM_NS do not exist. */
    method StoreLimits(cfg: Config, cpu: Cpu, ns: bool)
      requires Valid() && ns == NsAlias(cfg, cpu.excReturn)
      modifies words
      ensures Valid()
      ensures words[..] == WithLimits(cfg, cpu, old(words[..]))
    {
      if cfg.armv8xM && !(ns && cfg.armv8MBase) {
        words[MSPLIM] := if ns then cpu.msplimNs else cpu.msplim;
        words[PSPLIM] := if ns then cpu.psplimNs else cpu.psplim;
        words[INFO] := Or(words[INFO], INFO_LIMIT_REGS);
      }
    }

    /** CFSR, HFSR, DFSR, MMFAR, BFAR and AFSR from the SCB alias in use. */
    method StoreFaultStatus(cfg: Config, cpu: Cpu, ns: bool)
      requires Valid() && ns == NsAlias(cfg, cpu.excReturn)
      modifies words
      ensures Valid()
      ensures words[..] == WithFaultStatus(cfg, cpu, old(words[..]))
    {
      if cfg.faultRegsExist {
        var scb := if ns then cpu.scbNs else cpu.scb;
        words[CFSR] := scb.cfsr;
        words[HFSR] := scb.hfsr;
        words[DFSR] := scb.dfsr;
        words[MMFAR] := scb.mmfar;
        words[BFAR] := scb.bfar;
        words[AFSR] := scb.afsr;
        words[INFO] := Or(words[INFO], INFO_FAULT_REGS);
      }
    }

    /** RFSR on Armv8.1-M Mainline, from the same SCB alias. */
    method StoreRasFaultReg(cfg: Config, cpu: Cpu, ns: bool)
      requires Valid() && ns == NsAlias(cfg, cpu.excReturn)
      modifies words
      ensures Valid()
      ensures words[..] == WithRasFaultReg(cfg, cpu, old(words[..]))
    {
      if cfg.faultRegsExist && cfg.armv81MMain {
        var scb := if ns then cpu.scbNs else cpu.scb;
        words[RFSR] := scb.rfsr;
        words[INFO] := Or(words[INFO], INFO_RAS_FAULT_REG);
      }
    }

    /** SFSR and SFAR, from the Secure SCB, in a Secure Mainline build. */
    method StoreSecureFaultRegs(cfg: Config, cpu: Cpu)
      requires Valid()
      modifies words
      ensures Valid()
      ensures words[..] == WithSecureFaultRegs(cfg, cpu, old(words[..]))
    {
      if cfg.faultRegsExist && cfg.armv8xMMain && cfg.tzSecure {
        words[SFSR] := cpu.scb.sfsr;
        words[SFAR] := cpu.scb.sfar;
        words[INFO] := Or(words[INFO], INFO_SECURE_FAULT_REGS);
      }
    }

    /** The third block: the CRC over the finished record, then the magic
        number as the very last store. */
    method StoreSeal()
      requires Valid()
      modifies words
      ensures Valid()
      ensures words[..] == Seal(old(words[..]))
    {
      var crc := CoveredCrc(CRC32_INIT_VAL, CRC32_POLYNOM);
      words[CRC] := crc;
      words[MAGIC] := MAGIC_NUMBER;
    }

    /** The first assembly block: clear and count, the compile-time info and
        live R4..R11, then the stacked context, the exception context and the
        stack limits. */
    method StoreFirstBlock(cfg: Config, cpu: Cpu) returns (ns: bool)
      requires Valid()
      modifies words
      ensures Valid()
      ensures ns == NsAlias(cfg, cpu.excReturn)
      ensures words[..] == FirstBlock(cfg, cpu, old(words[COUNT]))
    {
      ghost var count := words[COUNT];
      StoreHeader(cfg);
      StoreLiveCalleeSaved(cpu.r4r11);
      var sp;
      sp, ns := SelectStack(cfg, cpu);
      StoreFaultMode(cfg, cpu, ns);
      var invalid := CheckStack(cfg, cpu, sp, ns);
      StoreStateContext(cfg, cpu, sp, invalid);
      StoreExceptionContext(cfg, cpu, ns);
      StoreLimits(cfg, cpu, ns);
    }

    /** The second assembly block, present only where fault registers exist. */
    method StoreFaultRegs(cfg: Config, cpu: Cpu, ns: bool)
      requires Valid() && ns == NsAlias(cfg, cpu.excReturn)
      modifies words
      ensures Valid()
      ensures words[..] == WithFaultRegs(cfg, cpu, old(words[..]))
    {
      if cfg.faultRegsExist {
        StoreFaultStatus(cfg, cpu, ns);
        StoreRasFaultReg(cfg, cpu, ns);
        StoreSecureFaultRegs(cfg, cpu);
      }
    }

    /** ARM_FaultSave: capture the fault into the record, count it, and seal
        the record so that `Occurred` accepts it. */
    method Save(cfg: Config, cpu: Cpu)
      requires Valid()
      modifies words
      ensures Valid()
      ensures words[..] == Captured(cfg, cpu, old(words[COUNT]))
      ensures words[COUNT] == old(words[COUNT]) + 1
      ensures Validate(words[..]) == 1
    {
      ghost var count := words[COUNT];
      var ns := StoreFirstBlock(cfg, cpu);
      StoreFaultRegs(cfg, cpu, ns);
      StoreSeal();
      CaptureCount(cfg, cpu, count);
      CaptureIsValid(cfg, cpu, count);
    }
  }
}
