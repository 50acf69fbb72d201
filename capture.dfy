/**
  What ARM_FaultSave writes, as a function of the build configuration, the
  processor state at fault entry and the previous `count`.

  The capture is a pipeline of stages, in the order of the source's three
  assembly blocks. `Preamble` clears the record, stores the new count and the
  compile-time `info` and saves the live R4..R11; `FirstBlock` adds the
  stacked context, EXC_xPSR, EXC_RETURN, the stack pointers and their limits;
  `Unsealed` adds the fault-status registers; `Captured` seals the result
  with the CRC and then the magic number. The lemmas at the end state what
  the finished record holds.
*/
module FaultCapture {
  import opened FaultRecord

  /** The preprocessor flags the capture routine is compiled under. */
  datatype Config = Config(
    faultRegsExist: bool,  // ARM_FAULT_FAULT_REGS_EXIST
    armv8xM: bool,         // ARM_FAULT_ARCH_ARMV8x_M
    armv8xMMain: bool,     // ARM_FAULT_ARCH_ARMV8x_M_MAIN
    armv8MBase: bool,      // ARM_FAULT_ARCH_ARMV8_M_BASE
    armv81MMain: bool,     // ARM_FAULT_ARCH_ARMV8_1M_MAIN
    tzEnabled: bool,       // ARM_FAULT_TZ_ENABLED
    tzSecure: bool,        // ARM_FAULT_TZ_SECURE
    stkofDefined: bool,    // the device header defines SCB_CFSR_STKOF_Msk
    versionMajor: bv8,     // ARM_FAULT_FAULT_INFO_VER_MAJOR
    versionMinor: bv8)     // ARM_FAULT_FAULT_INFO_VER_MINOR

  /** The flag combinations a build can have. The flags are derived in
      ARM_Fault.h, which is not part of this model; these are the relations
      between the architectures themselves. Armv8.1-M Mainline is an
      Armv8/8.1-M Mainline, and within Armv8/8.1-M, Mainline and Baseline
      exclude each other. Mainline has the fault-status registers and
      Baseline does not. A Secure build is a TrustZone build, and TrustZone
      exists only on Armv8/8.1-M. Every lemma of the model holds for every
      `Config`, well-formed or not. */
  predicate WellFormed(cfg: Config) {
    && (cfg.armv8xMMain ==> cfg.armv8xM && cfg.faultRegsExist)
    && (cfg.armv81MMain ==> cfg.armv8xMMain)
    && (cfg.armv8MBase ==> cfg.armv8xM && !cfg.armv8xMMain && !cfg.faultRegsExist)
    && (cfg.armv8xM ==> cfg.armv8xMMain || cfg.armv8MBase)
    && (cfg.tzSecure ==> cfg.tzEnabled)
    && (cfg.tzEnabled ==> cfg.armv8xM)
  }

  /** One bank of System Control Block fault registers. */
  datatype Scb = Scb(
    cfsr: bv32, hfsr: bv32, dfsr: bv32, mmfar: bv32, bfar: bv32, afsr: bv32,
    sfsr: bv32, sfar: bv32, rfsr: bv32)

  type Regs8 = s: seq<bv32> | |s| == 8 witness [0, 0, 0, 0, 0, 0, 0, 0]

  /** The processor state the handler finds on entry. `mem` reads the word at
      a byte address; `scbNs` is the Non-secure alias of the SCB. `xpsr` is
      the value the routine reads when it stores EXC_xPSR, after its own
      instructions have run, so its N, Z, C and V flags are whatever those
      instructions left there, not the flags at fault entry. */
  datatype Cpu = Cpu(
    excReturn: bv32,
    r4r11: Regs8,
    xpsr: bv32,
    msp: bv32, psp: bv32, mspNs: bv32, pspNs: bv32,
    msplim: bv32, psplim: bv32, msplimNs: bv32, psplimNs: bv32,
    scb: Scb, scbNs: Scb,
    mem: bv32 -> bv32)

  // EXC_RETURN fields (Armv8-M Architecture Reference Manual)
  const EXC_RETURN_SPSEL: bv32 := 0x04  // bit 2: 1 = PSP was used for stacking
  const EXC_RETURN_DCRS: bv32 := 0x20   // bit 5: 0 = additional state context stacked
  const EXC_RETURN_S: bv32 := 0x40      // bit 6: 1 = Secure stack was used

  // CFSR stacking-error bits
  const CFSR_MSTKERR: bv32 := 0x0000_0010
  const CFSR_STKERR: bv32 := 0x0000_1000
  const CFSR_STKOF: bv32 := 0x0010_0000

  // info word: configuration flags and content presence bits
  const INFO_FAULT_REGS_EXIST: bv32 := 0x0001_0000
  const INFO_ARMV8M_MAIN: bv32 := 0x0002_0000
  const INFO_TZ_ENABLED: bv32 := 0x0004_0000
  const INFO_TZ_SECURE: bv32 := 0x0008_0000
  const INFO_TZ_FAULT_MODE: bv32 := 0x0010_0000
  const INFO_STATE_CONTEXT: bv32 := 0x0020_0000
  const INFO_LIMIT_REGS: bv32 := 0x0040_0000
  const INFO_FAULT_REGS: bv32 := 0x0080_0000
  const INFO_SECURE_FAULT_REGS: bv32 := 0x0100_0000
  const INFO_RAS_FAULT_REG: bv32 := 0x0200_0000

  /** `a | b`. The record's `info` word is built up by ORs; naming the
      operation lets a fact about one operand carry over to the result. */
  function Or(a: bv32, b: bv32): (r: bv32) {
    a | b
  }

  function Flag(b: bool, mask: bv32): (r: bv32) {
    if b then mask else 0
  }

  /** The compile-time `info` value: version and configuration. */
  function InfoValue(cfg: Config): (r: bv32) {
    (cfg.versionMinor as bv32)
    | ((cfg.versionMajor as bv32) << 8)
    | Flag(cfg.faultRegsExist, INFO_FAULT_REGS_EXIST)
    | Flag(cfg.armv8xMMain, INFO_ARMV8M_MAIN)
    | Flag(cfg.tzEnabled, INFO_TZ_ENABLED)
    | Flag(cfg.tzSecure, INFO_TZ_SECURE)
  }

  /** A Secure build handling a fault stacked by Non-secure code reads the
      Non-secure aliases of the stack pointers and SCB. */
  predicate NsAlias(cfg: Config, excReturn: bv32) {
    cfg.tzSecure && excReturn & EXC_RETURN_S == 0
  }

  /** The stack pointer the exception frame was pushed on. */
  function StackPointer(cfg: Config, cpu: Cpu): (r: bv32) {
    var ns := NsAlias(cfg, cpu.excReturn);
    if cpu.excReturn & EXC_RETURN_SPSEL == 0 then
      (if ns then cpu.mspNs else cpu.msp)
    else
      (if ns then cpu.pspNs else cpu.psp)
  }

  function ActiveScb(cfg: Config, cpu: Cpu): (r: Scb) {
    if NsAlias(cfg, cpu.excReturn) then cpu.scbNs else cpu.scb
  }

  function StackErrMask(cfg: Config): (r: bv32) {
    CFSR_STKERR | CFSR_MSTKERR | Flag(cfg.stkofDefined, CFSR_STKOF)
  }

  /** The stacked context can be trusted: the stack pointer is not null and,
      where CFSR exists, it shows no stacking error. */
  predicate StackValid(cfg: Config, cpu: Cpu) {
    StackPointer(cfg, cpu) != 0 &&
    (cfg.faultRegsExist ==> ActiveScb(cfg, cpu).cfsr & StackErrMask(cfg) == 0)
  }

  /** The additional state context (IntegritySignature, Reserved, R4..R11)
      lies below the basic frame and is copied. */
  predicate AdditionalContext(cfg: Config, cpu: Cpu) {
    StackValid(cfg, cpu) && cfg.armv8xM && cpu.excReturn & EXC_RETURN_DCRS == 0
  }

  /** MSPLIM/PSPLIM are stored; Armv8-M Baseline has no Non-secure limit
      registers. */
  predicate LimitsStored(cfg: Config, cpu: Cpu) {
    cfg.armv8xM && !(NsAlias(cfg, cpu.excReturn) && cfg.armv8MBase)
  }

  /** Address of the basic frame (R0, R1, R2, R3, R12, LR, ReturnAddress, xPSR). */
  function FrameBase(cfg: Config, cpu: Cpu): (r: bv32) {
    if AdditionalContext(cfg, cpu) then StackPointer(cfg, cpu) + 40 else StackPointer(cfg, cpu)
  }


  /** The basic frame as it lies on the stack from address `b` upward: R0,
      R1, R2, R3, R12, LR, ReturnAddress, xPSR. */
  function BasicFrame(m: bv32 -> bv32, b: bv32): (f: seq<bv32>)
    ensures |f| == 8
  {
    [m(b), m(b + 4), m(b + 8), m(b + 12), m(b + 16), m(b + 20), m(b + 24), m(b + 28)]
  }

  /** The additional state context as it lies on the stack from `sp` upward:
      IntegritySignature, a reserved word, R4..R11. */
  function AdditionalStateContext(m: bv32 -> bv32, sp: bv32): (a: seq<bv32>)
    ensures |a| == 10
  {
    [m(sp), m(sp + 4), m(sp + 8), m(sp + 12), m(sp + 16), m(sp + 20), m(sp + 24), m(sp + 28), m(sp + 32), m(sp + 36)]
  }
  // ---------------------------------------------------------------------------
  // The capture, stage by stage. A stage that the source guards by a run-time
  // or build-time condition has the shape `if c then SetInfo(copy, bit) else
  // rec`: it copies its registers and ORs its presence bit into `info`.

  /** An OR into the `info` word. */
  function SetInfo(rec: Record, mask: bv32): (r: Record) {
    rec[INFO := Or(rec[INFO], mask)]
  }

  /** Clear every word, then store `count + 1` and the compile-time info. */
  function Reset(cfg: Config, count: bv32): (r: Record) {
    ZeroRecord()[COUNT := count + 1][INFO := InfoValue(cfg)]
  }

  /** R4..R11 as they are on entry to the handler. */
  function WithLiveCalleeSaved(r: Regs8, rec: Record): (w: Record) {
    rec[R4 := r[0]][R5 := r[1]][R6 := r[2]][R7 := r[3]]
       [R8 := r[4]][R9 := r[5]][R10 := r[6]][R11 := r[7]]
  }

  /** tz_fault_mode: a Secure build handles a fault stacked by Secure code. */
  predicate SecureFault(cfg: Config, cpu: Cpu) {
    cfg.tzSecure && !NsAlias(cfg, cpu.excReturn)
  }

  function WithFaultMode(cfg: Config, cpu: Cpu, rec: Record): (r: Record) {
    if SecureFault(cfg, cpu) then SetInfo(rec, INFO_TZ_FAULT_MODE) else rec
  }

  /** The additional state context at `sp`: IntegritySignature, then R4..R11
      after the reserved word, which is skipped. */
  function WithAdditionalContext(m: bv32 -> bv32, sp: bv32, rec: Record): (r: Record) {
    var a := AdditionalStateContext(m, sp);
    rec[INTEGRITY_SIGNATURE := a[0]]
       [R4 := a[2]][R5 := a[3]][R6 := a[4]][R7 := a[5]]
       [R8 := a[6]][R9 := a[7]][R10 := a[8]][R11 := a[9]]
  }

  /** The basic frame at `b`, copied word by word. */
  function WithBasicFrame(m: bv32 -> bv32, b: bv32, rec: Record): (r: Record) {
    var f := BasicFrame(m, b);
    rec[R0 := f[0]][R1 := f[1]][R2 := f[2]][R3 := f[3]]
       [R12 := f[4]][LR := f[5]][RETURN_ADDRESS := f[6]][XPSR := f[7]]
  }

  /** The additional state context, where it was stacked, then the basic
      frame. */
  function CopyStateContext(cfg: Config, cpu: Cpu, rec: Record): (r: Record) {
    var r1 := if AdditionalContext(cfg, cpu) then WithAdditionalContext(cpu.mem, StackPointer(cfg, cpu), rec) else rec;
    WithBasicFrame(cpu.mem, FrameBase(cfg, cpu), r1)
  }

  /** The stacked context, copied only when the stack can be trusted. */
  function WithStateContext(cfg: Config, cpu: Cpu, rec: Record): (r: Record) {
    if StackValid(cfg, cpu) then SetInfo(CopyStateContext(cfg, cpu, rec), INFO_STATE_CONTEXT) else rec
  }

  /** EXC_xPSR, EXC_RETURN and both stack pointers, from the alias in use. */
  function WithExceptionContext(cfg: Config, cpu: Cpu, rec: Record): (r: Record) {
    var ns := NsAlias(cfg, cpu.excReturn);
    rec[EXC_XPSR := cpu.xpsr][EXC_RETURN := cpu.excReturn]
       [MSP := if ns then cpu.mspNs else cpu.msp][PSP := if ns then cpu.pspNs else cpu.psp]
  }

  function CopyLimits(cfg: Config, cpu: Cpu, rec: Record): (r: Record) {
    var ns := NsAlias(cfg, cpu.excReturn);
    rec[MSPLIM := if ns then cpu.msplimNs else cpu.msplim][PSPLIM := if ns then cpu.psplimNs else cpu.psplim]
  }

  /** MSPLIM and PSPLIM, from the alias in use, where they exist. */
  function WithLimits(cfg: Config, cpu: Cpu, rec: Record): (r: Record) {
    if LimitsStored(cfg, cpu) then SetInfo(CopyLimits(cfg, cpu, rec), INFO_LIMIT_REGS) else rec
  }

  /** The record once the stack has been chosen, before anything is read
      from it. */
  function Preamble(cfg: Config, cpu: Cpu, count: bv32): (r: Record) {
    WithFaultMode(cfg, cpu, WithLiveCalleeSaved(cpu.r4r11, Reset(cfg, count)))
  }

  /** The record after the first assembly block. */
  function FirstBlock(cfg: Config, cpu: Cpu, count: bv32): (r: Record) {
    WithLimits(cfg, cpu, WithExceptionContext(cfg, cpu, WithStateContext(cfg, cpu, Preamble(cfg, cpu, count))))
  }

  function CopyFaultStatus(scb: Scb, rec: Record): (r: Record) {
    rec[CFSR := scb.cfsr][HFSR := scb.hfsr][DFSR := scb.dfsr]
       [MMFAR := scb.mmfar][BFAR := scb.bfar][AFSR := scb.afsr]
  }

  /** CFSR, HFSR, DFSR, MMFAR, BFAR and AFSR, from the SCB alias the stack
      was decoded with. */
  function WithFaultStatus(cfg: Config, cpu: Cpu, rec: Record): (r: Record) {
    if cfg.faultRegsExist then SetInfo(CopyFaultStatus(ActiveScb(cfg, cpu), rec), INFO_FAULT_REGS) else rec
  }

  /** RFSR exists on Armv8.1-M Mainline. */
  predicate RasStored(cfg: Config) {
    cfg.faultRegsExist && cfg.armv81MMain
  }

  /** RFSR, from the same SCB alias. */
  function WithRasFaultReg(cfg: Config, cpu: Cpu, rec: Record): (r: Record) {
    if RasStored(cfg) then SetInfo(rec[RFSR := ActiveScb(cfg, cpu).rfsr], INFO_RAS_FAULT_REG) else rec
  }

  /** SFSR and SFAR are visible to a Secure Mainline build. */
  predicate SecureRegsStored(cfg: Config) {
    cfg.faultRegsExist && cfg.armv8xMMain && cfg.tzSecure
  }

  /** SFSR and SFAR, always from the Secure SCB. */
  function WithSecureFaultRegs(cfg: Config, cpu: Cpu, rec: Record): (r: Record) {
    if SecureRegsStored(cfg) then SetInfo(rec[SFSR := cpu.scb.sfsr][SFAR := cpu.scb.sfar], INFO_SECURE_FAULT_REGS) else rec
  }

  /** In a well-formed build the guards of the second block reduce to the
      architecture flags that select them: RFSR is stored exactly on
      Armv8.1-M Mainline, and SFSR/SFAR exactly in a Secure Mainline build. */
  lemma WellFormedFaultRegGuards(cfg: Config)
    requires WellFormed(cfg)
    ensures RasStored(cfg) <==> cfg.armv81MMain
    ensures SecureRegsStored(cfg) <==> cfg.armv8xMMain && cfg.tzSecure
  {}

  /** The second assembly block. */
  function WithFaultRegs(cfg: Config, cpu: Cpu, rec: Record): (r: Record) {
    WithSecureFaultRegs(cfg, cpu, WithRasFaultReg(cfg, cpu, WithFaultStatus(cfg, cpu, rec)))
  }

  /** The record before the third block seals it. */
  function Unsealed(cfg: Config, cpu: Cpu, count: bv32): (r: Record) {
    WithFaultRegs(cfg, cpu, FirstBlock(cfg, cpu, count))
  }

  /** The record ARM_FaultSave leaves behind. */
  function Captured(cfg: Config, cpu: Cpu, count: bv32): (r: Record) {
    Seal(Unsealed(cfg, cpu, count))
  }

  // ---------------------------------------------------------------------------
  // What each stage leaves alone, and what it writes

  /** `a` and `b` hold the same words from `lo` up to, not including, `hi`. */
  predicate Agree(a: Record, b: Record, lo: nat, hi: nat) {
    forall i :: lo <= i < hi && i < RECORD_WORDS ==> a[i] == b[i]
  }

  lemma AgreeSlice(a: Record, b: Record, lo: nat, hi: nat)
    requires lo <= hi <= RECORD_WORDS && Agree(a, b, lo, hi)
    ensures a[lo..hi] == b[lo..hi]
  {
    assert forall k :: 0 <= k < hi - lo ==> a[lo..hi][k] == a[lo + k] && b[lo..hi][k] == b[lo + k];
  }

  /** A guarded stage, on a run of words away from `info`: the copy's words
      when the guard holds, the old ones otherwise. */
  lemma GuardedSlice(c: bool, rec: Record, copy: Record, bit: bv32, w: Record, lo: nat, hi: nat)
    requires w == (if c then SetInfo(copy, bit) else rec)
    requires lo <= hi <= RECORD_WORDS && (hi <= INFO || INFO < lo)
    ensures w[lo..hi] == if c then copy[lo..hi] else rec[lo..hi]
  {
    if c {
      assert forall k :: 0 <= k < hi - lo ==> w[lo..hi][k] == copy[lo..hi][k];
    }
  }

  lemma GuardedWord(c: bool, rec: Record, copy: Record, bit: bv32, w: Record, i: nat)
    requires w == (if c then SetInfo(copy, bit) else rec)
    requires i < RECORD_WORDS && i != INFO
    ensures w[i] == if c then copy[i] else rec[i]
  {}

  lemma GuardedAgree(c: bool, rec: Record, copy: Record, bit: bv32, w: Record, lo: nat, hi: nat)
    requires w == (if c then SetInfo(copy, bit) else rec)
    requires Agree(copy, rec, lo, hi) && (hi <= INFO || INFO < lo)
    ensures Agree(w, rec, lo, hi)
  {}

  /** The cleared record with `count` and `info` stored. */
  lemma ResetWords(cfg: Config, count: bv32)
    ensures var r := Reset(cfg, count);
      && r[MAGIC] == 0 && r[CRC] == 0 && r[COUNT] == count + 1 && r[INFO] == InfoValue(cfg)
      && Agree(r, ZeroRecord(), R0, RECORD_WORDS)
  {}

  lemma CalleeSavedWords(r: Regs8, rec: Record)
    ensures var w := WithLiveCalleeSaved(r, rec);
      w[R4..R12] == r && Agree(w, rec, 0, R4) && Agree(w, rec, R12, RECORD_WORDS)
  {}

  lemma FaultModeKeeps(cfg: Config, cpu: Cpu, rec: Record)
    ensures var w := WithFaultMode(cfg, cpu, rec);
      Agree(w, rec, 0, INFO) && Agree(w, rec, R0, RECORD_WORDS)
  {}

  lemma BasicFrameWords(m: bv32 -> bv32, b: bv32, rec: Record)
    ensures var w := WithBasicFrame(m, b, rec); var f := BasicFrame(m, b);
      && w[R0..R4] == f[..4] && w[R12..XPSR + 1] == f[4..]
      && Agree(w, rec, 0, R0) && Agree(w, rec, R4, R12) && Agree(w, rec, INTEGRITY_SIGNATURE, RECORD_WORDS)
  {}

  lemma AdditionalStateWords(m: bv32 -> bv32, sp: bv32, rec: Record)
    ensures var w := WithAdditionalContext(m, sp, rec); var a := AdditionalStateContext(m, sp);
      && w[INTEGRITY_SIGNATURE] == a[0] && w[R4..R12] == a[2..]
      && Agree(w, rec, 0, R4) && Agree(w, rec, R12, INTEGRITY_SIGNATURE) && Agree(w, rec, EXC_XPSR, RECORD_WORDS)
  {}

  lemma CopyStateContextWords(cfg: Config, cpu: Cpu, rec: Record)
    ensures var w := CopyStateContext(cfg, cpu, rec);
      var f := BasicFrame(cpu.mem, FrameBase(cfg, cpu)); var a := AdditionalStateContext(cpu.mem, StackPointer(cfg, cpu));
      && w[R0..R4] == f[..4] && w[R12..XPSR + 1] == f[4..]
      && (if AdditionalContext(cfg, cpu) then w[INTEGRITY_SIGNATURE] == a[0] && w[R4..R12] == a[2..]
          else w[INTEGRITY_SIGNATURE] == rec[INTEGRITY_SIGNATURE] && w[R4..R12] == rec[R4..R12])
      && Agree(w, rec, 0, R0) && Agree(w, rec, EXC_XPSR, RECORD_WORDS)
  {
    var sp := StackPointer(cfg, cpu);
    var r1 := if AdditionalContext(cfg, cpu) then WithAdditionalContext(cpu.mem, sp, rec) else rec;
    AdditionalStateWords(cpu.mem, sp, rec);
    BasicFrameWords(cpu.mem, FrameBase(cfg, cpu), r1);
  }

  /** What the state-context stage writes: the basic frame, and the
      additional state context where it was stacked. */
  lemma StateContextWords(cfg: Config, cpu: Cpu, rec: Record)
    ensures var w := WithStateContext(cfg, cpu, rec);
      var f := BasicFrame(cpu.mem, FrameBase(cfg, cpu)); var a := AdditionalStateContext(cpu.mem, StackPointer(cfg, cpu));
      && (if StackValid(cfg, cpu) then w[R0..R4] == f[..4] && w[R12..XPSR + 1] == f[4..]
          else w[R0..R4] == rec[R0..R4] && w[R12..XPSR + 1] == rec[R12..XPSR + 1])
      && (if AdditionalContext(cfg, cpu) then w[INTEGRITY_SIGNATURE] == a[0] && w[R4..R12] == a[2..]
          else w[INTEGRITY_SIGNATURE] == rec[INTEGRITY_SIGNATURE] && w[R4..R12] == rec[R4..R12])
  {
    var c := StackValid(cfg, cpu);
    var copy := CopyStateContext(cfg, cpu, rec);
    var w := WithStateContext(cfg, cpu, rec);
    CopyStateContextWords(cfg, cpu, rec);
    GuardedSlice(c, rec, copy, INFO_STATE_CONTEXT, w, R0, R4);
    GuardedSlice(c, rec, copy, INFO_STATE_CONTEXT, w, R4, R12);
    GuardedSlice(c, rec, copy, INFO_STATE_CONTEXT, w, R12, XPSR + 1);
    GuardedWord(c, rec, copy, INFO_STATE_CONTEXT, w, INTEGRITY_SIGNATURE);
  }

  lemma StateContextKeeps(cfg: Config, cpu: Cpu, rec: Record)
    ensures var w := WithStateContext(cfg, cpu, rec);
      Agree(w, rec, 0, INFO) && Agree(w, rec, EXC_XPSR, RECORD_WORDS)
  {
    var c := StackValid(cfg, cpu);
    var copy := CopyStateContext(cfg, cpu, rec);
    var w := WithStateContext(cfg, cpu, rec);
    CopyStateContextWords(cfg, cpu, rec);
    GuardedAgree(c, rec, copy, INFO_STATE_CONTEXT, w, 0, INFO);
    GuardedAgree(c, rec, copy, INFO_STATE_CONTEXT, w, EXC_XPSR, RECORD_WORDS);
  }

  lemma ExceptionContextWords(cfg: Config, cpu: Cpu, rec: Record)
    ensures var w := WithExceptionContext(cfg, cpu, rec); var ns := NsAlias(cfg, cpu.excReturn);
      && w[EXC_XPSR..MSPLIM] == [cpu.xpsr, cpu.excReturn, if ns then cpu.mspNs else cpu.msp, if ns then cpu.pspNs else cpu.psp]
      && Agree(w, rec, 0, EXC_XPSR) && Agree(w, rec, MSPLIM, RECORD_WORDS)
  {}

  lemma CopyLimitsWords(cfg: Config, cpu: Cpu, rec: Record)
    ensures var w := CopyLimits(cfg, cpu, rec); var ns := NsAlias(cfg, cpu.excReturn);
      && w[MSPLIM..CFSR] == [if ns then cpu.msplimNs else cpu.msplim, if ns then cpu.psplimNs else cpu.psplim]
      && Agree(w, rec, 0, MSPLIM) && Agree(w, rec, CFSR, RECORD_WORDS)
  {}

  lemma LimitsWords(cfg: Config, cpu: Cpu, rec: Record)
    ensures var w := WithLimits(cfg, cpu, rec); var ns := NsAlias(cfg, cpu.excReturn);
      && w[MSPLIM..CFSR] == (if LimitsStored(cfg, cpu) then [if ns then cpu.msplimNs else cpu.msplim, if ns then cpu.psplimNs else cpu.psplim]
                             else rec[MSPLIM..CFSR])
      && Agree(w, rec, 0, INFO) && Agree(w, rec, R0, MSPLIM) && Agree(w, rec, CFSR, RECORD_WORDS)
  {
    var c := LimitsStored(cfg, cpu);
    var copy := CopyLimits(cfg, cpu, rec);
    var w := WithLimits(cfg, cpu, rec);
    CopyLimitsWords(cfg, cpu, rec);
    GuardedSlice(c, rec, copy, INFO_LIMIT_REGS, w, MSPLIM, CFSR);
    GuardedAgree(c, rec, copy, INFO_LIMIT_REGS, w, 0, INFO);
    GuardedAgree(c, rec, copy, INFO_LIMIT_REGS, w, R0, MSPLIM);
    GuardedAgree(c, rec, copy, INFO_LIMIT_REGS, w, CFSR, RECORD_WORDS);
  }

  lemma CopyFaultStatusWords(scb: Scb, rec: Record)
    ensures var w := CopyFaultStatus(scb, rec);
      && w[CFSR..SFSR] == [scb.cfsr, scb.hfsr, scb.dfsr, scb.mmfar, scb.bfar, scb.afsr]
      && Agree(w, rec, 0, CFSR) && Agree(w, rec, SFSR, RECORD_WORDS)
  {}

  lemma FaultStatusWords(cfg: Config, cpu: Cpu, rec: Record)
    ensures var w := WithFaultStatus(cfg, cpu, rec); var scb := ActiveScb(cfg, cpu);
      && w[CFSR..SFSR] == (if cfg.faultRegsExist then [scb.cfsr, scb.hfsr, scb.dfsr, scb.mmfar, scb.bfar, scb.afsr] else rec[CFSR..SFSR])
      && Agree(w, rec, 0, INFO) && Agree(w, rec, R0, CFSR) && Agree(w, rec, SFSR, RECORD_WORDS)
  {
    var c := cfg.faultRegsExist;
    var copy := CopyFaultStatus(ActiveScb(cfg, cpu), rec);
    var w := WithFaultStatus(cfg, cpu, rec);
    CopyFaultStatusWords(ActiveScb(cfg, cpu), rec);
    GuardedSlice(c, rec, copy, INFO_FAULT_REGS, w, CFSR, SFSR);
    GuardedAgree(c, rec, copy, INFO_FAULT_REGS, w, 0, INFO);
    GuardedAgree(c, rec, copy, INFO_FAULT_REGS, w, R0, CFSR);
    GuardedAgree(c, rec, copy, INFO_FAULT_REGS, w, SFSR, RECORD_WORDS);
  }

  lemma RasFaultRegWords(cfg: Config, cpu: Cpu, rec: Record)
    ensures var w := WithRasFaultReg(cfg, cpu, rec);
      && w[RFSR] == (if RasStored(cfg) then ActiveScb(cfg, cpu).rfsr else rec[RFSR])
      && Agree(w, rec, 0, INFO) && Agree(w, rec, R0, RFSR)
  {}

  lemma SecureFaultRegsWords(cfg: Config, cpu: Cpu, rec: Record)
    ensures var w := WithSecureFaultRegs(cfg, cpu, rec);
      && w[SFSR..RFSR] == (if SecureRegsStored(cfg) then [cpu.scb.sfsr, cpu.scb.sfar] else rec[SFSR..RFSR])
      && Agree(w, rec, 0, INFO) && Agree(w, rec, R0, SFSR) && Agree(w, rec, RFSR, RECORD_WORDS)
  {
    var copy := rec[SFSR := cpu.scb.sfsr][SFAR := cpu.scb.sfar];
    GuardedSlice(SecureRegsStored(cfg), rec, copy, INFO_SECURE_FAULT_REGS, WithSecureFaultRegs(cfg, cpu, rec), SFSR, RFSR);
  }


  lemma FaultRegsKeeps(cfg: Config, cpu: Cpu, rec: Record)
    ensures var w := WithFaultRegs(cfg, cpu, rec);
      Agree(w, rec, 0, INFO) && Agree(w, rec, R0, CFSR)
  {
    var r1 := WithFaultStatus(cfg, cpu, rec);
    var r2 := WithRasFaultReg(cfg, cpu, r1);
    FaultStatusWords(cfg, cpu, rec);
    RasFaultRegWords(cfg, cpu, r1);
    SecureFaultRegsWords(cfg, cpu, r2);
  }

  lemma SealKeeps(rec: Record)
    ensures Agree(Seal(rec), rec, COUNT, RECORD_WORDS)
  {}

  /** The runs of a cleared record that the capture may leave alone. */
  lemma ZeroRuns()
    ensures var z := ZeroRecord();
      && z[R0..R4] == [0, 0, 0, 0] && z[R12..XPSR + 1] == [0, 0, 0, 0] && z[MSPLIM..CFSR] == [0, 0]
      && z[CFSR..SFSR] == [0, 0, 0, 0, 0, 0] && z[SFSR..RFSR] == [0, 0]
  {}

  // ---------------------------------------------------------------------------
  // The presence bits each stage ORs into `info`

  /** Every presence bit the capture sets, in the order it sets them. */
  function Presence(cfg: Config, cpu: Cpu): (r: bv32) {
    Or(Or(Or(Or(Or(Flag(SecureFault(cfg, cpu), INFO_TZ_FAULT_MODE), Flag(StackValid(cfg, cpu), INFO_STATE_CONTEXT)),
                Flag(LimitsStored(cfg, cpu), INFO_LIMIT_REGS)),
             Flag(cfg.faultRegsExist, INFO_FAULT_REGS)),
          Flag(RasStored(cfg), INFO_RAS_FAULT_REG)),
       Flag(SecureRegsStored(cfg), INFO_SECURE_FAULT_REGS))
  }

  lemma OrNoFlag(x: bv32, m: bv32)
    ensures Or(x, Flag(false, m)) == x
  {}

  lemma OrFlag(x: bv32, m: bv32)
    ensures Or(x, Flag(true, m)) == Or(x, m)
  {}

  /** A guarded stage whose copy leaves `info` alone sets exactly its bit. */
  lemma GuardedInfo(c: bool, rec: Record, copy: Record, bit: bv32, w: Record)
    requires w == (if c then SetInfo(copy, bit) else rec)
    requires copy[INFO] == rec[INFO]
    ensures w[INFO] == Or(rec[INFO], Flag(c, bit))
  {
    if c {
      OrFlag(rec[INFO], bit);
    } else {
      OrNoFlag(rec[INFO], bit);
    }
  }

  lemma FaultModeInfo(cfg: Config, cpu: Cpu, rec: Record)
    ensures WithFaultMode(cfg, cpu, rec)[INFO] == Or(rec[INFO], Flag(SecureFault(cfg, cpu), INFO_TZ_FAULT_MODE))
  {
    GuardedInfo(SecureFault(cfg, cpu), rec, rec, INFO_TZ_FAULT_MODE, WithFaultMode(cfg, cpu, rec));
  }

  lemma PreambleInfo(cfg: Config, cpu: Cpu, count: bv32)
    ensures Preamble(cfg, cpu, count)[INFO] == Or(InfoValue(cfg), Flag(SecureFault(cfg, cpu), INFO_TZ_FAULT_MODE))
  {
    var r0 := Reset(cfg, count);
    ResetWords(cfg, count);
    CalleeSavedWords(cpu.r4r11, r0);
    FaultModeInfo(cfg, cpu, WithLiveCalleeSaved(cpu.r4r11, r0));
  }

  lemma StateContextInfo(cfg: Config, cpu: Cpu, rec: Record)
    ensures WithStateContext(cfg, cpu, rec)[INFO] == Or(rec[INFO], Flag(StackValid(cfg, cpu), INFO_STATE_CONTEXT))
  {
    var copy := CopyStateContext(cfg, cpu, rec);
    CopyStateContextWords(cfg, cpu, rec);
    GuardedInfo(StackValid(cfg, cpu), rec, copy, INFO_STATE_CONTEXT, WithStateContext(cfg, cpu, rec));
  }

  lemma LimitsInfo(cfg: Config, cpu: Cpu, rec: Record)
    ensures WithLimits(cfg, cpu, rec)[INFO] == Or(rec[INFO], Flag(LimitsStored(cfg, cpu), INFO_LIMIT_REGS))
  {
    var copy := CopyLimits(cfg, cpu, rec);
    CopyLimitsWords(cfg, cpu, rec);
    GuardedInfo(LimitsStored(cfg, cpu), rec, copy, INFO_LIMIT_REGS, WithLimits(cfg, cpu, rec));
  }

  lemma FirstBlockInfo(cfg: Config, cpu: Cpu, count: bv32)
    ensures FirstBlock(cfg, cpu, count)[INFO]
            == Or(Or(Or(InfoValue(cfg), Flag(SecureFault(cfg, cpu), INFO_TZ_FAULT_MODE)),
                     Flag(StackValid(cfg, cpu), INFO_STATE_CONTEXT)),
                  Flag(LimitsStored(cfg, cpu), INFO_LIMIT_REGS))
  {
    var p := Preamble(cfg, cpu, count);
    var r3 := WithStateContext(cfg, cpu, p);
    PreambleInfo(cfg, cpu, count);
    StateContextInfo(cfg, cpu, p);
    ExceptionContextWords(cfg, cpu, r3);
    LimitsInfo(cfg, cpu, WithExceptionContext(cfg, cpu, r3));
  }

  lemma FaultStatusInfo(cfg: Config, cpu: Cpu, rec: Record)
    ensures WithFaultStatus(cfg, cpu, rec)[INFO] == Or(rec[INFO], Flag(cfg.faultRegsExist, INFO_FAULT_REGS))
  {
    var copy := CopyFaultStatus(ActiveScb(cfg, cpu), rec);
    CopyFaultStatusWords(ActiveScb(cfg, cpu), rec);
    GuardedInfo(cfg.faultRegsExist, rec, copy, INFO_FAULT_REGS, WithFaultStatus(cfg, cpu, rec));
  }

  lemma RasFaultRegInfo(cfg: Config, cpu: Cpu, rec: Record)
    ensures WithRasFaultReg(cfg, cpu, rec)[INFO] == Or(rec[INFO], Flag(RasStored(cfg), INFO_RAS_FAULT_REG))
  {
    GuardedInfo(RasStored(cfg), rec, rec[RFSR := ActiveScb(cfg, cpu).rfsr], INFO_RAS_FAULT_REG, WithRasFaultReg(cfg, cpu, rec));
  }

  lemma SecureFaultRegsInfo(cfg: Config, cpu: Cpu, rec: Record)
    ensures WithSecureFaultRegs(cfg, cpu, rec)[INFO] == Or(rec[INFO], Flag(SecureRegsStored(cfg), INFO_SECURE_FAULT_REGS))
  {
    GuardedInfo(SecureRegsStored(cfg), rec, rec[SFSR := cpu.scb.sfsr][SFAR := cpu.scb.sfar], INFO_SECURE_FAULT_REGS,
                WithSecureFaultRegs(cfg, cpu, rec));
  }

  lemma FaultRegsInfo(cfg: Config, cpu: Cpu, rec: Record)
    ensures WithFaultRegs(cfg, cpu, rec)[INFO]
            == Or(Or(Or(rec[INFO], Flag(cfg.faultRegsExist, INFO_FAULT_REGS)),
                     Flag(RasStored(cfg), INFO_RAS_FAULT_REG)),
                  Flag(SecureRegsStored(cfg), INFO_SECURE_FAULT_REGS))
  {
    var r1 := WithFaultStatus(cfg, cpu, rec);
    FaultStatusInfo(cfg, cpu, rec);
    RasFaultRegInfo(cfg, cpu, r1);
    SecureFaultRegsInfo(cfg, cpu, WithRasFaultReg(cfg, cpu, r1));
  }

  lemma OrAssoc(x: bv32, y: bv32, z: bv32)
    ensures Or(Or(x, y), z) == Or(x, Or(y, z))
  {}

  /** Six ORs into `v`, one after the other, are one OR of their union. */
  lemma OrRegroup(v: bv32, a: bv32, b: bv32, c: bv32, d: bv32, e: bv32, f: bv32)
    ensures Or(Or(Or(Or(Or(Or(v, a), b), c), d), e), f) == Or(v, Or(Or(Or(Or(Or(a, b), c), d), e), f))
  {
    OrAssoc(v, a, b);
    OrAssoc(v, Or(a, b), c);
    OrAssoc(v, Or(Or(a, b), c), d);
    OrAssoc(v, Or(Or(Or(a, b), c), d), e);
    OrAssoc(v, Or(Or(Or(Or(a, b), c), d), e), f);
  }

  // ---------------------------------------------------------------------------
  // The record as the stages build it up

  /** Before the stack is read, the header holds 0, 0 and the new count,
      R4..R11 the live registers, and every other context word 0. */
  lemma PreambleWords(cfg: Config, cpu: Cpu, count: bv32)
    ensures var p := Preamble(cfg, cpu, count);
      && p[MAGIC] == 0 && p[CRC] == 0 && p[COUNT] == count + 1
      && p[R4..R12] == cpu.r4r11
      && Agree(p, ZeroRecord(), R0, R4) && Agree(p, ZeroRecord(), R12, RECORD_WORDS)
  {
    var r0 := Reset(cfg, count);
    var r1 := WithLiveCalleeSaved(cpu.r4r11, r0);
    ResetWords(cfg, count);
    CalleeSavedWords(cpu.r4r11, r0);
    FaultModeKeeps(cfg, cpu, r1);
    AgreeSlice(Preamble(cfg, cpu, count), r1, R4, R12);
  }

  /** The stages after the state context leave the header and R0 up to
      IntegritySignature alone. */
  lemma LaterStagesKeepStateContext(cfg: Config, cpu: Cpu, count: bv32)
    ensures var r3 := WithStateContext(cfg, cpu, Preamble(cfg, cpu, count)); var u := Unsealed(cfg, cpu, count);
      Agree(u, r3, 0, INFO) && Agree(u, r3, R0, EXC_XPSR)
  {
    var r3 := WithStateContext(cfg, cpu, Preamble(cfg, cpu, count));
    var r4 := WithExceptionContext(cfg, cpu, r3);
    ExceptionContextWords(cfg, cpu, r3);
    LimitsWords(cfg, cpu, r4);
    FaultRegsKeeps(cfg, cpu, WithLimits(cfg, cpu, r4));
  }

  /** No stage of the first block writes the fault registers. */
  lemma FirstBlockLeavesFaultRegs(cfg: Config, cpu: Cpu, count: bv32)
    ensures Agree(FirstBlock(cfg, cpu, count), ZeroRecord(), CFSR, RECORD_WORDS)
  {
    var p := Preamble(cfg, cpu, count);
    var r3 := WithStateContext(cfg, cpu, p);
    var r4 := WithExceptionContext(cfg, cpu, r3);
    PreambleWords(cfg, cpu, count);
    StateContextKeeps(cfg, cpu, p);
    ExceptionContextWords(cfg, cpu, r3);
    LimitsWords(cfg, cpu, r4);
  }

  // ---------------------------------------------------------------------------
  // Properties of a captured record

  /** Round trip: what the capture writes passes validation. */
  lemma CaptureIsValid(cfg: Config, cpu: Cpu, count: bv32)
    ensures Validate(Captured(cfg, cpu, count)) == 1
  {
    SealValidates(Unsealed(cfg, cpu, count));
  }

  /** `magic_number` and `crc32` stay 0, and `count` is one more than before,
      until the third block. */
  lemma UnsealedHeader(cfg: Config, cpu: Cpu, count: bv32)
    ensures var f := FirstBlock(cfg, cpu, count);
      f[MAGIC] == 0 && f[CRC] == 0 && f[COUNT] == count + 1
    ensures var u := Unsealed(cfg, cpu, count);
      u[MAGIC] == 0 && u[CRC] == 0 && u[COUNT] == count + 1
  {
    var p := Preamble(cfg, cpu, count);
    var r3 := WithStateContext(cfg, cpu, p);
    var r4 := WithExceptionContext(cfg, cpu, r3);
    PreambleWords(cfg, cpu, count);
    StateContextKeeps(cfg, cpu, p);
    ExceptionContextWords(cfg, cpu, r3);
    LimitsWords(cfg, cpu, r4);
    FaultRegsKeeps(cfg, cpu, FirstBlock(cfg, cpu, count));
  }

  /** Magic number last: interrupted at any point before its final store,
      the capture leaves a record that fails validation, even once the CRC is
      in place. */
  lemma InterruptedCaptureIsInvalid(cfg: Config, cpu: Cpu, count: bv32)
    ensures Validate(FirstBlock(cfg, cpu, count)) == 0
    ensures Validate(Unsealed(cfg, cpu, count)) == 0
    ensures var u := Unsealed(cfg, cpu, count); Validate(u[CRC := RecordCrc(u)]) == 0
  {
    UnsealedHeader(cfg, cpu, count);
  }

  /** Magic number last, stage by stage: every stage of the first two blocks
      leaves `magic_number` 0, so a capture interrupted at any stage boundary
      leaves a record that fails validation. */
  lemma EveryStageInvalid(cfg: Config, cpu: Cpu, count: bv32)
    ensures Validate(Reset(cfg, count)) == 0
    ensures Validate(WithLiveCalleeSaved(cpu.r4r11, Reset(cfg, count))) == 0
    ensures Validate(Preamble(cfg, cpu, count)) == 0
    ensures Validate(WithStateContext(cfg, cpu, Preamble(cfg, cpu, count))) == 0
    ensures Validate(WithExceptionContext(cfg, cpu, WithStateContext(cfg, cpu, Preamble(cfg, cpu, count)))) == 0
    ensures Validate(FirstBlock(cfg, cpu, count)) == 0
    ensures Validate(WithFaultStatus(cfg, cpu, FirstBlock(cfg, cpu, count))) == 0
    ensures Validate(WithRasFaultReg(cfg, cpu, WithFaultStatus(cfg, cpu, FirstBlock(cfg, cpu, count)))) == 0
    ensures Validate(Unsealed(cfg, cpu, count)) == 0
  {
    var r1 := Reset(cfg, count);
    ResetWords(cfg, count);
    UnsealedIsInvalid(r1);
    var r2 := WithLiveCalleeSaved(cpu.r4r11, r1);
    CalleeSavedWords(cpu.r4r11, r1);
    UnsealedIsInvalid(r2);
    var r3 := WithFaultMode(cfg, cpu, r2);
    FaultModeKeeps(cfg, cpu, r2);
    UnsealedIsInvalid(r3);
    var r4 := WithStateContext(cfg, cpu, r3);
    StateContextKeeps(cfg, cpu, r3);
    UnsealedIsInvalid(r4);
    var r5 := WithExceptionContext(cfg, cpu, r4);
    ExceptionContextWords(cfg, cpu, r4);
    UnsealedIsInvalid(r5);
    var r6 := WithLimits(cfg, cpu, r5);
    LimitsWords(cfg, cpu, r5);
    UnsealedIsInvalid(r6);
    var r7 := WithFaultStatus(cfg, cpu, r6);
    FaultStatusWords(cfg, cpu, r6);
    UnsealedIsInvalid(r7);
    var r8 := WithRasFaultReg(cfg, cpu, r7);
    RasFaultRegWords(cfg, cpu, r7);
    UnsealedIsInvalid(r8);
    var r9 := WithSecureFaultRegs(cfg, cpu, r8);
    SecureFaultRegsWords(cfg, cpu, r8);
    UnsealedIsInvalid(r9);
  }

  /** The occurrence count goes up by one, wrapping at 2^32. */
  lemma CaptureCount(cfg: Config, cpu: Cpu, count: bv32)
    ensures Captured(cfg, cpu, count)[COUNT] == count + 1
  {
    UnsealedHeader(cfg, cpu, count);
    SealKeeps(Unsealed(cfg, cpu, count));
  }

  /** Two captures with no clear in between count two faults; a capture
      after a clear counts one. */
  lemma SuccessiveCaptures(cfg1: Config, cpu1: Cpu, cfg2: Config, cpu2: Cpu, count: bv32)
    ensures Captured(cfg2, cpu2, Captured(cfg1, cpu1, count)[COUNT])[COUNT] == count + 2
    ensures Captured(cfg1, cpu1, ZeroRecord()[COUNT])[COUNT] == 1
  {
    CaptureCount(cfg1, cpu1, count);
    CaptureCount(cfg2, cpu2, count + 1);
    CaptureCount(cfg1, cpu1, 0);
  }

  /** Before the stack is read, R0..R3 and R12..xPSR hold the zeros of the
      clear. */
  lemma PreambleFrameZeros(cfg: Config, cpu: Cpu, count: bv32)
    ensures var p := Preamble(cfg, cpu, count);
      p[R0..R4] == [0, 0, 0, 0] && p[R12..XPSR + 1] == [0, 0, 0, 0]
  {
    var p := Preamble(cfg, cpu, count);
    PreambleWords(cfg, cpu, count);
    AgreeSlice(p, ZeroRecord(), R0, R4);
    AgreeSlice(p, ZeroRecord(), R12, XPSR + 1);
    ZeroRuns();
  }

  lemma UnsealedStateContext(cfg: Config, cpu: Cpu, count: bv32)
    ensures var u := Unsealed(cfg, cpu, count); var f := BasicFrame(cpu.mem, FrameBase(cfg, cpu));
      if StackValid(cfg, cpu) then u[R0..R4] == f[..4] && u[R12..XPSR + 1] == f[4..]
      else u[R0..R4] == [0, 0, 0, 0] && u[R12..XPSR + 1] == [0, 0, 0, 0]
  {
    var p := Preamble(cfg, cpu, count);
    var r3 := WithStateContext(cfg, cpu, p);
    var u := Unsealed(cfg, cpu, count);
    PreambleFrameZeros(cfg, cpu, count);
    StateContextWords(cfg, cpu, p);
    LaterStagesKeepStateContext(cfg, cpu, count);
    AgreeSlice(u, r3, R0, R4);
    AgreeSlice(u, r3, R12, XPSR + 1);
  }

  /** The basic frame is copied to R0..R3 and R12..xPSR when the stack is
      trusted; otherwise those fields keep the zeros of the clear. */
  lemma CapturedStateContext(cfg: Config, cpu: Cpu, count: bv32)
    ensures var rec := Captured(cfg, cpu, count); var f := BasicFrame(cpu.mem, FrameBase(cfg, cpu));
      if StackValid(cfg, cpu) then rec[R0..R4] == f[..4] && rec[R12..XPSR + 1] == f[4..]
      else rec[R0..R4] == [0, 0, 0, 0] && rec[R12..XPSR + 1] == [0, 0, 0, 0]
  {
    var u := Unsealed(cfg, cpu, count);
    UnsealedStateContext(cfg, cpu, count);
    SealKeepsBody(u, R0, R4);
    SealKeepsBody(u, R12, XPSR + 1);
  }

  /** IntegritySignature and R4..R11 come from the additional state context,
      skipping its reserved word, when it was stacked and the stack is
      trusted; otherwise R4..R11 are the live registers and the signature
      stays 0. */
  lemma CapturedCalleeSaved(cfg: Config, cpu: Cpu, count: bv32)
    ensures var rec := Captured(cfg, cpu, count); var a := AdditionalStateContext(cpu.mem, StackPointer(cfg, cpu));
      if AdditionalContext(cfg, cpu) then rec[INTEGRITY_SIGNATURE] == a[0] && rec[R4..R12] == a[2..]
      else rec[INTEGRITY_SIGNATURE] == 0 && rec[R4..R12] == cpu.r4r11
  {
    var p := Preamble(cfg, cpu, count);
    var r3 := WithStateContext(cfg, cpu, p);
    var u := Unsealed(cfg, cpu, count);
    PreambleWords(cfg, cpu, count);
    StateContextWords(cfg, cpu, p);
    LaterStagesKeepStateContext(cfg, cpu, count);
    SealKeeps(u);
    AgreeSlice(Captured(cfg, cpu, count), r3, R4, R12);
  }

  /** EXC_xPSR and EXC_RETURN are always stored, MSP and PSP from the alias
      the stack was decoded with; the limit registers likewise where they
      are stored, else 0. */
  lemma CapturedExceptionContext(cfg: Config, cpu: Cpu, count: bv32)
    ensures var rec := Captured(cfg, cpu, count); var ns := NsAlias(cfg, cpu.excReturn);
      && rec[EXC_XPSR..MSPLIM] == [cpu.xpsr, cpu.excReturn, if ns then cpu.mspNs else cpu.msp, if ns then cpu.pspNs else cpu.psp]
      && rec[MSPLIM..CFSR] == (if LimitsStored(cfg, cpu) then [if ns then cpu.msplimNs else cpu.msplim, if ns then cpu.psplimNs else cpu.psplim]
                               else [0, 0])
  {
    var p := Preamble(cfg, cpu, count);
    var r3 := WithStateContext(cfg, cpu, p);
    var r4 := WithExceptionContext(cfg, cpu, r3);
    var r5 := WithLimits(cfg, cpu, r4);
    var u := Unsealed(cfg, cpu, count);
    var c := Captured(cfg, cpu, count);
    PreambleWords(cfg, cpu, count);
    StateContextKeeps(cfg, cpu, p);
    ExceptionContextWords(cfg, cpu, r3);
    LimitsWords(cfg, cpu, r4);
    FaultRegsKeeps(cfg, cpu, r5);
    SealKeeps(u);
    AgreeSlice(c, r4, EXC_XPSR, MSPLIM);
    AgreeSlice(c, r5, MSPLIM, CFSR);
    AgreeSlice(r4, ZeroRecord(), MSPLIM, CFSR);
    ZeroRuns();
  }

  /** CFSR, HFSR, DFSR, MMFAR, BFAR and AFSR are stored where fault registers
      exist, SFSR and SFAR on a Secure Mainline build (always from the Secure
      SCB), RFSR on Armv8.1-M Mainline; a field not stored stays 0. */
  lemma CapturedFaultRegs(cfg: Config, cpu: Cpu, count: bv32)
    ensures var rec := Captured(cfg, cpu, count); var scb := ActiveScb(cfg, cpu);
      && rec[CFSR..SFSR] == (if cfg.faultRegsExist then [scb.cfsr, scb.hfsr, scb.dfsr, scb.mmfar, scb.bfar, scb.afsr]
                             else [0, 0, 0, 0, 0, 0])
      && rec[SFSR..RFSR] == (if SecureRegsStored(cfg) then [cpu.scb.sfsr, cpu.scb.sfar] else [0, 0])
      && rec[RFSR] == (if RasStored(cfg) then scb.rfsr else 0)
  {
    var r5 := FirstBlock(cfg, cpu, count);
    var r6 := WithFaultStatus(cfg, cpu, r5);
    var r7 := WithRasFaultReg(cfg, cpu, r6);
    var u := Unsealed(cfg, cpu, count);
    var c := Captured(cfg, cpu, count);
    FirstBlockLeavesFaultRegs(cfg, cpu, count);
    FaultStatusWords(cfg, cpu, r5);
    RasFaultRegWords(cfg, cpu, r6);
    SecureFaultRegsWords(cfg, cpu, r7);
    SealKeeps(u);
    AgreeSlice(c, r6, CFSR, SFSR);
    AgreeSlice(c, u, SFSR, RFSR);
    AgreeSlice(r5, ZeroRecord(), CFSR, SFSR);
    AgreeSlice(r7, ZeroRecord(), SFSR, RFSR);
    ZeroRuns();
  }

  lemma UnsealedInfo(cfg: Config, cpu: Cpu, count: bv32)
    ensures Unsealed(cfg, cpu, count)[INFO]
            == Or(InfoValue(cfg), Or(Or(Or(Or(Or(Flag(SecureFault(cfg, cpu), INFO_TZ_FAULT_MODE), Flag(StackValid(cfg, cpu), INFO_STATE_CONTEXT)),
                                                 Flag(LimitsStored(cfg, cpu), INFO_LIMIT_REGS)),
                                              Flag(cfg.faultRegsExist, INFO_FAULT_REGS)),
                                           Flag(RasStored(cfg), INFO_RAS_FAULT_REG)),
                                        Flag(SecureRegsStored(cfg), INFO_SECURE_FAULT_REGS)))
  {
    FirstBlockInfo(cfg, cpu, count);
    FaultRegsInfo(cfg, cpu, FirstBlock(cfg, cpu, count));
    OrRegroup(InfoValue(cfg), Flag(SecureFault(cfg, cpu), INFO_TZ_FAULT_MODE), Flag(StackValid(cfg, cpu), INFO_STATE_CONTEXT), Flag(LimitsStored(cfg, cpu), INFO_LIMIT_REGS),
              Flag(cfg.faultRegsExist, INFO_FAULT_REGS), Flag(RasStored(cfg), INFO_RAS_FAULT_REG), Flag(SecureRegsStored(cfg), INFO_SECURE_FAULT_REGS));
  }

  /** The `info` word of a captured record: the compile-time value with the
      presence bit of every section that was written ORed in. */
  lemma CapturedInfo(cfg: Config, cpu: Cpu, count: bv32)
    ensures Captured(cfg, cpu, count)[INFO] == Or(InfoValue(cfg), Presence(cfg, cpu))
  {
    UnsealedInfo(cfg, cpu, count);
    SealKeepsWord(Unsealed(cfg, cpu, count), INFO);
  }

  /** The compile-time part of `info`: minor version in bits 0..7, major in
      8..15, the four configuration flags in 16..19, nothing above. */
  lemma InfoValueBits(cfg: Config)
    ensures var v := InfoValue(cfg);
      && v & 0xFF == cfg.versionMinor as bv32
      && (v >> 8) & 0xFF == cfg.versionMajor as bv32
      && (v & INFO_FAULT_REGS_EXIST != 0 <==> cfg.faultRegsExist)
      && (v & INFO_ARMV8M_MAIN != 0 <==> cfg.armv8xMMain)
      && (v & INFO_TZ_ENABLED != 0 <==> cfg.tzEnabled)
      && (v & INFO_TZ_SECURE != 0 <==> cfg.tzSecure)
      && v >> 20 == 0
  {}

  lemma PresenceWord(a: bool, b: bool, c: bool, d: bool, e: bool, f: bool)
    ensures var p := Or(Or(Or(Or(Or(Flag(a, INFO_TZ_FAULT_MODE), Flag(b, INFO_STATE_CONTEXT)), Flag(c, INFO_LIMIT_REGS)),
                           Flag(d, INFO_FAULT_REGS)), Flag(e, INFO_RAS_FAULT_REG)), Flag(f, INFO_SECURE_FAULT_REGS));
      && p & 0xF_FFFF == 0 && p >> 26 == 0
      && (p & INFO_TZ_FAULT_MODE != 0 <==> a)
      && (p & INFO_STATE_CONTEXT != 0 <==> b)
      && (p & INFO_LIMIT_REGS != 0 <==> c)
      && (p & INFO_FAULT_REGS != 0 <==> d)
      && (p & INFO_RAS_FAULT_REG != 0 <==> e)
      && (p & INFO_SECURE_FAULT_REGS != 0 <==> f)
  {}

  /** An OR of a value below bit 20 and one with nothing below bit 20 keeps
      both apart. */
  lemma InfoWordSplit(v: bv32, p: bv32)
    requires v >> 20 == 0 && p & 0xF_FFFF == 0
    ensures var w := Or(v, p);
      && w & 0xFF == v & 0xFF && (w >> 8) & 0xFF == (v >> 8) & 0xFF
      && w & INFO_FAULT_REGS_EXIST == v & INFO_FAULT_REGS_EXIST
      && w & INFO_ARMV8M_MAIN == v & INFO_ARMV8M_MAIN
      && w & INFO_TZ_ENABLED == v & INFO_TZ_ENABLED
      && w & INFO_TZ_SECURE == v & INFO_TZ_SECURE
      && w & INFO_TZ_FAULT_MODE == p & INFO_TZ_FAULT_MODE
      && w & INFO_STATE_CONTEXT == p & INFO_STATE_CONTEXT
      && w & INFO_LIMIT_REGS == p & INFO_LIMIT_REGS
      && w & INFO_FAULT_REGS == p & INFO_FAULT_REGS
      && w & INFO_RAS_FAULT_REG == p & INFO_RAS_FAULT_REG
      && w & INFO_SECURE_FAULT_REGS == p & INFO_SECURE_FAULT_REGS
      && w >> 26 == p >> 26
  {}

  /** Bit by bit, the `info` word of a captured record is the version, the
      configuration, and one presence flag per section that was written, and
      nothing else. */
  lemma CapturedInfoBits(cfg: Config, cpu: Cpu, count: bv32)
    ensures var info := Captured(cfg, cpu, count)[INFO];
      && info & 0xFF == cfg.versionMinor as bv32
      && (info >> 8) & 0xFF == cfg.versionMajor as bv32
      && (info & INFO_FAULT_REGS_EXIST != 0 <==> cfg.faultRegsExist)
      && (info & INFO_ARMV8M_MAIN != 0 <==> cfg.armv8xMMain)
      && (info & INFO_TZ_ENABLED != 0 <==> cfg.tzEnabled)
      && (info & INFO_TZ_SECURE != 0 <==> cfg.tzSecure)
      && (info & INFO_TZ_FAULT_MODE != 0 <==> cfg.tzSecure && cpu.excReturn & EXC_RETURN_S != 0)
      && (info & INFO_STATE_CONTEXT != 0 <==> StackValid(cfg, cpu))
      && (info & INFO_LIMIT_REGS != 0 <==> LimitsStored(cfg, cpu))
      && (info & INFO_FAULT_REGS != 0 <==> cfg.faultRegsExist)
      && (info & INFO_RAS_FAULT_REG != 0 <==> cfg.faultRegsExist && cfg.armv81MMain)
      && (info & INFO_SECURE_FAULT_REGS != 0 <==> cfg.faultRegsExist && cfg.armv8xMMain && cfg.tzSecure)
      && info >> 26 == 0
  {
    CapturedInfo(cfg, cpu, count);
    InfoValueBits(cfg);
    PresenceWord(SecureFault(cfg, cpu), StackValid(cfg, cpu), LimitsStored(cfg, cpu),
                 cfg.faultRegsExist, RasStored(cfg), SecureRegsStored(cfg));
    InfoWordSplit(InfoValue(cfg), Presence(cfg, cpu));
  }
}
