# ARM fault record store, modelled in Dafny

This project models the fault-record store of CMSIS-View's Fault component
(`Fault/Source/ARM_FaultStorage.c`). The store keeps one record,
`ARM_FaultInfo`, in memory that start-up code does not initialise. It has
three entry points:

- `ARM_FaultSave` runs inside a fault handler and captures the fault:
  - it reads the old `count`, clears the record, and stores `count + 1`
    and a version/configuration `info` word;
  - it saves the live R4..R11;
  - it decodes EXC_RETURN to find the stack and the Secure or Non-secure
    register aliases;
  - if the stack can be trusted, it copies the stacked context;
  - it stores EXC_xPSR, EXC_RETURN, MSP, PSP, the stack limits and the
    fault-status registers that the build has, and ORs a presence bit into
    `info` for each section it writes;
  - it seals the record: first a CRC-32 over everything from `count` on,
    then the magic number `0x52746C46` ("FltR").
- `ARM_FaultOccurred` accepts a record when the magic number is present and
  the stored CRC matches a recomputation.
- `ARM_FaultClear` zeroes the record.

The CRC is the bitwise CRC-32/MPEG-2 of ISO/IEC 13818-1, Annex A:
polynomial 0x04C11DB7, initial value 0xFFFFFFFF, MSB-first, no reflection
and no final XOR.

The project has four modules.

- `Crc32` (`crc32.dfy`):
  - `Crc`, the CRC as a left fold over the bytes;
  - `CalcCRC32`, the source's nested loop, proved equal to `Crc`;
  - a proof that the CRC detects every single-byte change, because the
    polynomial is odd.
- `FaultRecord` (`record.dfy`):
  - the 36-word layout and its constants;
  - the little-endian byte image that the CRC covers;
  - `Validate`, ARM_FaultOccurred's validity test as a pure function;
  - `Seal`, the last two stores of a capture.
- `FaultCapture` (`capture.dfy`):
  - `Captured(cfg, cpu, count)`, the record a capture leaves. It is written
    as a pipeline of stages in the order of the routine's three assembly
    blocks;
  - lemmas stating what every field and every `info` bit holds afterwards.
- `FaultStorage` (`storage.dfy`):
  - the class `FaultStore`, which owns the record as an array of words;
  - the methods `Clear`, `Occurred` and `Save`. `Save` works step by step
    like the assembly: a clear loop, sequential stores, read-modify-write
    ORs into `info`, and the inline CRC loop, which reads the record byte by
    byte. Each step is proved to leave exactly the corresponding stage of
    `Captured`.

The capture routine reads processor state: LR (EXC_RETURN), the special
registers, the SCB registers and the stacked words. The model takes all of
these as an input value `Cpu`. The preprocessor flags it is compiled under
are a `Config` value.

Assumptions, where the record's declaration is not part of this model:

- `ARM_Fault.h`, which declares `ARM_FaultInfo_t`, is not part of this model.
- The record is taken to be 36 consecutive 32-bit words, in this order:
  - `magic_number`, `crc32`, `count`, `info`;
  - R0..R12, LR, ReturnAddress, xPSR, IntegritySignature;
  - EXC_xPSR, EXC_RETURN, MSP, PSP, MSPLIM, PSPLIM;
  - CFSR, HFSR, DFSR, MMFAR, BFAR, AFSR, SFSR, SFAR, RFSR.
- The routine's stores fix parts of this order, because each run of words
  is written through one write-back pointer:
  - `info` right after `count` (`stm r2!` at :156, then `str` at :160);
  - R4..R11 (:164-170);
  - R0..R3 (:312-314) and R12, LR, ReturnAddress, xPSR (:315-317);
  - EXC_xPSR, EXC_RETURN, MSP, PSP (:343-344), then MSPLIM and PSPLIM
    through the same pointer (:365);
  - CFSR, HFSR, DFSR, MMFAR, BFAR, AFSR (:425-433);
  - SFSR, SFAR (:460-464).
- The rest is assumed from the declaration: where IntegritySignature sits,
  the order of the groups above relative to each other, and RFSR after
  SFAR.
- Words are serialised little-endian for the CRC.
- The CMSIS bit masks are taken at their architectural positions:
  - CFSR.MSTKERR bit 4, CFSR.STKERR bit 12, CFSR.STKOF bit 20;
  - EXC_RETURN.SPSEL bit 2, DCRS bit 5, S bit 6.

Two points about what the code does:

- The code copies IntegritySignature and R4..R11 from the additional state
  context whenever EXC_RETURN.DCRS is 0 on Armv8/8.1-M and the stack is
  valid (:286-287, :293-305); an invalid stack skips the copy. No
  comparison of the stacked signature with 0xFEFA125A guards the copy. The
  stored signature is compared only after sealing, where a match clears
  the restored R4..R7 (:551-566).
- SFSR and SFAR are stored only in Secure builds for a Mainline
  architecture (:458-473); a Secure Baseline build does not store them.

## Model

| member | source | states |
|---|---|---|
| Crc32.Step | Fault/Source/ARM_FaultStorage.c:652-657 | Definition: one clock of the register, a left shift with the polynomial XORed in when bit 31 was set |
| Crc32.Shifts | Fault/Source/ARM_FaultStorage.c:651-658 | Definition: `n` clocks of the register in a row |
| Crc32.CrcByte | Fault/Source/ARM_FaultStorage.c:650-658 | Definition: the byte XORed into bits 31..24, then eight clocks |
| Crc32.Crc | Fault/Source/ARM_FaultStorage.c:649-662 | Definition: the CRC is a left fold of `CrcByte` over the bytes, from the initial value |
| Crc32.CheckValue | Fault/Source/ARM_FaultStorage.c:72-73 | Known answer: the CRC of "123456789" from 0xFFFFFFFF under 0x04C11DB7 is 0x0376E6E7, the CRC-32/MPEG-2 check value |
| Crc32.CalcCRC32 | Fault/Source/ARM_FaultStorage.c:643-665 | The loop returns the left fold `Crc` of the bytes from `init_val`, and `init_val` itself for zero length |
| Crc32.ClockByte | Fault/Source/ARM_FaultStorage.c:651-658 | Eight conditional shift/XOR steps compute eight clocks of the shift register |
| Crc32.CrcAppend | Fault/Source/ARM_FaultStorage.c:649-662 | The CRC of `a + b` is the CRC of `b` continued from the CRC of `a`, so the loop can stop and resume anywhere |
| Crc32.StepRoundTrip | Fault/Source/ARM_FaultStorage.c:652-657 | With an odd polynomial, one clock of the register can be undone, so no two register values clock to the same value |
| Crc32.CrcInjectiveInRegister | Fault/Source/ARM_FaultStorage.c:649-662 | With an odd polynomial, different starting registers give different CRCs of the same bytes |
| Crc32.CrcDetectsByteChange | Fault/Source/ARM_FaultStorage.c:649-662 | With an odd polynomial, changing any single byte of the input changes the CRC |
| FaultRecord.CoveredBytes | Fault/Source/ARM_FaultStorage.c:111-114 | Definition: the little-endian bytes of the words from `count` to the end of the record, 136 of them |
| FaultRecord.RecordCrc | Fault/Source/ARM_FaultStorage.c:583-586 | Definition: the CRC of the covered bytes from 0xFFFFFFFF under 0x04C11DB7 |
| FaultRecord.Seal | Fault/Source/ARM_FaultStorage.c:541-547 | Definition: the record with `crc32` set to its CRC and then `magic_number` set to 0x52746C46 |
| FaultRecord.ByteOf | Fault/Source/ARM_FaultStorage.c:111-113 | Definition: byte `j` of a word, least significant byte first, as a little-endian word lies in memory |
| FaultRecord.WordsBytes | Fault/Source/ARM_FaultStorage.c:111-113 | Definition: the memory image of a run of words, four bytes per word, lowest address first |
| FaultRecord.ZeroRecord | Fault/Source/ARM_FaultStorage.c:92-94 | The cleared record has all 36 words zero |
| FaultRecord.Validate | Fault/Source/ARM_FaultStorage.c:101-120 | The result is 1 exactly when the magic number is present and the stored CRC equals the CRC over the covered bytes, and 0 otherwise |
| FaultRecord.CoveredByte | Fault/Source/ARM_FaultStorage.c:523-525 | The byte the loop reads at address offset `p` is covered byte `p - 8` |
| FaultRecord.CoveredBytesAreBody | Fault/Source/ARM_FaultStorage.c:111-114 | The covered bytes are exactly the image of the words from `count` to the end of the record |
| FaultRecord.RecordCrcIgnoresHeader | Fault/Source/ARM_FaultStorage.c:111-114 | Two records that agree from `count` on have the same CRC, whatever `magic_number` and `crc32` hold |
| FaultRecord.SealValidates | Fault/Source/ARM_FaultStorage.c:513-547 | Storing the CRC and then the magic number makes any record pass validation |
| FaultRecord.SealKeepsBody | Fault/Source/ARM_FaultStorage.c:541-547 | Sealing changes only `magic_number` and `crc32` |
| FaultRecord.UnsealedIsInvalid | Fault/Source/ARM_FaultStorage.c:104-107 | A record without the magic number fails validation |
| FaultRecord.ZeroRecordIsInvalid | Fault/Source/ARM_FaultStorage.c:104-107 | A cleared record fails validation |
| FaultRecord.SingleByteCorruptionDetected | Fault/Source/ARM_FaultStorage.c:109-117 | A valid record with any one covered byte changed fails validation |
| FaultCapture.InfoValue | Fault/Source/ARM_FaultStorage.c:384-389 | Definition: the minor and major version ORed with the four configuration bits 16-19 |
| FaultCapture.NsAlias | Fault/Source/ARM_FaultStorage.c:197-230 | Definition: a Secure build handling a fault whose EXC_RETURN.S is 0 reads the Non-secure aliases |
| FaultCapture.StackPointer | Fault/Source/ARM_FaultStorage.c:197-230 | Definition: EXC_RETURN.SPSEL chooses PSP or MSP, from the alias `NsAlias` picks |
| FaultCapture.StackErrMask | Fault/Source/ARM_FaultStorage.c:61-67 | Definition: STKERR or MSTKERR, and STKOF where that bit is defined |
| FaultCapture.StackValid | Fault/Source/ARM_FaultStorage.c:247-280 | Definition: the stack pointer is not null and, where fault registers exist, the active CFSR has no stacking-error bit |
| FaultCapture.AdditionalContext | Fault/Source/ARM_FaultStorage.c:286-295 | Definition: the stack is valid, the architecture is Armv8/8.1-M and EXC_RETURN.DCRS is 0 |
| FaultCapture.LimitsStored | Fault/Source/ARM_FaultStorage.c:348-360 | Definition: Armv8/8.1-M, except a Baseline build reading the Non-secure alias |
| FaultCapture.SetInfo | Fault/Source/ARM_FaultStorage.c:239-243 | Definition: the presence mask ORed into `info` by a load, an OR and a store; every other word unchanged |
| FaultCapture.Reset | Fault/Source/ARM_FaultStorage.c:138-160 | Definition: all words zero, then `count` one more than before and `info` the compile-time value |
| FaultCapture.WithLiveCalleeSaved | Fault/Source/ARM_FaultStorage.c:162-170 | Definition: R4..R11 set to the registers live on entry |
| FaultCapture.WithFaultMode | Fault/Source/ARM_FaultStorage.c:234-244 | Definition: bit 20 of `info` ORed in for a Secure build on a Secure fault |
| FaultCapture.WithStateContext | Fault/Source/ARM_FaultStorage.c:282-326 | Definition: for a valid stack, the additional state context where it was stacked, then the basic frame, and bit 21 of `info`; otherwise nothing |
| FaultCapture.WithExceptionContext | Fault/Source/ARM_FaultStorage.c:328-344 | Definition: EXC_xPSR, EXC_RETURN, and MSP and PSP from the alias in use |
| FaultCapture.WithLimits | Fault/Source/ARM_FaultStorage.c:346-374 | Definition: where `LimitsStored`, MSPLIM and PSPLIM from the alias in use and bit 22 of `info`; otherwise nothing |
| FaultCapture.FirstBlock | Fault/Source/ARM_FaultStorage.c:133-403 | Definition: the stages of the first assembly block in source order, from `Reset` to `WithLimits` |
| FaultCapture.WithFaultStatus | Fault/Source/ARM_FaultStorage.c:414-440 | Definition: where fault registers exist, CFSR..AFSR from the active SCB alias and bit 23 of `info`; otherwise nothing |
| FaultCapture.WithRasFaultReg | Fault/Source/ARM_FaultStorage.c:442-454 | Definition: on Armv8.1-M Mainline with fault registers, RFSR from the active SCB alias and bit 25 of `info`; otherwise nothing |
| FaultCapture.WithSecureFaultRegs | Fault/Source/ARM_FaultStorage.c:456-473 | Definition: in a Secure Mainline build with fault registers, SFSR and SFAR from the Secure SCB and bit 24 of `info`; otherwise nothing |
| FaultCapture.Unsealed | Fault/Source/ARM_FaultStorage.c:133-506 | Definition: the first block followed by the three fault-register stages |
| FaultCapture.Captured | Fault/Source/ARM_FaultStorage.c:127-590 | Definition: the unsealed record, sealed |
| FaultCapture.ActiveScb | Fault/Source/ARM_FaultStorage.c:261-272 | Definition: the Non-secure SCB alias when `NsAlias` holds, the SCB otherwise |
| FaultCapture.SecureFault | Fault/Source/ARM_FaultStorage.c:234-244 | Definition: a Secure build that does not read the Non-secure alias, that is, EXC_RETURN.S is 1 |
| FaultCapture.FrameBase | Fault/Source/ARM_FaultStorage.c:298-313 | Definition: the stack pointer, plus 40 bytes when the additional state context lies below the basic frame |
| FaultCapture.BasicFrame | Fault/Source/ARM_FaultStorage.c:310-317 | Definition: the eight words at `b`, `b + 4`, ..., `b + 28`: R0..R3, R12, LR, ReturnAddress, xPSR |
| FaultCapture.AdditionalStateContext | Fault/Source/ARM_FaultStorage.c:291-304 | Definition: the ten words at `sp`, `sp + 4`, ..., `sp + 36`: IntegritySignature, Reserved, R4..R11 |
| FaultCapture.Preamble | Fault/Source/ARM_FaultStorage.c:138-244 | Definition: `Reset`, then the live R4..R11, then the fault-mode bit |
| FaultCapture.WithAdditionalContext | Fault/Source/ARM_FaultStorage.c:293-305 | Definition: IntegritySignature from the first stacked word and R4..R11 from the third to the tenth; the reserved word is skipped |
| FaultCapture.WithBasicFrame | Fault/Source/ARM_FaultStorage.c:309-317 | Definition: the eight stacked words go to R0..R3 and to R12, LR, ReturnAddress, xPSR |
| FaultCapture.CopyStateContext | Fault/Source/ARM_FaultStorage.c:289-317 | Definition: the additional state context where it was stacked, then the basic frame from `FrameBase` |
| FaultCapture.CopyLimits | Fault/Source/ARM_FaultStorage.c:355-365 | Definition: MSPLIM and PSPLIM from the alias in use |
| FaultCapture.CopyFaultStatus | Fault/Source/ARM_FaultStorage.c:425-433 | Definition: CFSR, HFSR, DFSR, MMFAR, BFAR and AFSR from the given SCB bank |
| FaultCapture.RasStored | Fault/Source/ARM_FaultStorage.c:443 | Definition: fault registers exist and the architecture is Armv8.1-M Mainline |
| FaultCapture.SecureRegsStored | Fault/Source/ARM_FaultStorage.c:458-459 | Definition: fault registers exist, the architecture is Armv8/8.1-M Mainline and the build is Secure |
| FaultCapture.WithFaultRegs | Fault/Source/ARM_FaultStorage.c:408-506 | Definition: the fault-status, RFSR and SFSR/SFAR stages, in source order |
| FaultCapture.Presence | Fault/Source/ARM_FaultStorage.c:390-392 | Definition: the six presence bits 20-25, each set by its own stage's condition, ORed in the order the capture sets them; the masks for bits 20-22 are at :390-392, those for bits 23-25 at :479-481 |
| FaultCapture.WellFormedFaultRegGuards | Fault/Source/ARM_FaultStorage.c:443-459 | In a build whose flags are consistent, RFSR is stored exactly on Armv8.1-M Mainline and SFSR/SFAR exactly in a Secure Mainline build |
| FaultCapture.EveryStageInvalid | Fault/Source/ARM_FaultStorage.c:138-506 | Magic last: after each of the nine stages of the first two blocks, `magic_number` is still 0 and the record fails validation |
| FaultCapture.CaptureIsValid | Fault/Source/ARM_FaultStorage.c:513-547 | Round trip: every captured record passes validation |
| FaultCapture.UnsealedHeader | Fault/Source/ARM_FaultStorage.c:138-161 | Until the third block, `magic_number` and `crc32` are 0 and `count` is one more than before |
| FaultCapture.InterruptedCaptureIsInvalid | Fault/Source/ARM_FaultStorage.c:541-547 | Magic last: a capture stopped after either block, or after the CRC store, leaves a record that fails validation |
| FaultCapture.CaptureCount | Fault/Source/ARM_FaultStorage.c:138-156 | The new `count` is the old one plus 1, modulo 2^32 |
| FaultCapture.SuccessiveCaptures | Fault/Source/ARM_FaultStorage.c:138-156 | Two captures count 2 more; a capture after a clear gives `count == 1` |
| FaultCapture.PreambleFrameZeros | Fault/Source/ARM_FaultStorage.c:142-151 | Before the stack is read, the basic-frame fields hold the zeros of the clear |
| FaultCapture.CapturedStateContext | Fault/Source/ARM_FaultStorage.c:247-326 | When the stack is valid, R0..R3 and R12..xPSR are the stacked basic frame, above the additional context if one was stacked. Otherwise they stay 0 |
| FaultCapture.CapturedCalleeSaved | Fault/Source/ARM_FaultStorage.c:162-305 | IntegritySignature and R4..R11 come from the additional state context, skipping the reserved word, when it was stacked and the stack is valid. Otherwise R4..R11 are the live registers and the signature is 0 |
| FaultCapture.CapturedExceptionContext | Fault/Source/ARM_FaultStorage.c:328-375 | EXC_xPSR and EXC_RETURN are always stored, and MSP/PSP come from the alias in use. MSPLIM/PSPLIM are stored where limit registers exist for that alias, and are 0 otherwise |
| FaultCapture.CapturedFaultRegs | Fault/Source/ARM_FaultStorage.c:414-473 | The six fault-status registers come from the active SCB alias where fault registers exist. RFSR is stored on Armv8.1-M Mainline. SFSR/SFAR come from the Secure SCB in Secure Mainline builds. Each field not stored is 0 |
| FaultCapture.CapturedInfo | Fault/Source/ARM_FaultStorage.c:384-392 | `info` is the compile-time value ORed with one presence bit per section written |
| FaultCapture.InfoValueBits | Fault/Source/ARM_FaultStorage.c:384-389 | The compile-time `info` holds the minor version in bits 0-7, the major version in 8-15, the four configuration flags in 16-19, and nothing above |
| FaultCapture.PresenceWord | Fault/Source/ARM_FaultStorage.c:390-392 | Each presence bit 20-25 is set exactly when its condition holds, and the word has nothing outside bits 20-25 |
| FaultCapture.CapturedInfoBits | Fault/Source/ARM_FaultStorage.c:384-392 | Bit by bit, the final `info` is the version, the configuration flags, and bits 20-25 each set exactly when their section was written (tz_fault_mode iff Secure build and EXC_RETURN.S is 1), with nothing above bit 25 |
| FaultCapture.StateContextWords | Fault/Source/ARM_FaultStorage.c:282-326 | The state-context step writes the basic frame only for a valid stack, and the additional context only when it was stacked |
| FaultCapture.LimitsWords | Fault/Source/ARM_FaultStorage.c:346-374 | The limit step writes MSPLIM/PSPLIM of the alias in use exactly when the limits exist, and nothing else besides `info` |
| FaultCapture.FaultStatusWords | Fault/Source/ARM_FaultStorage.c:414-440 | The fault-register step writes the six registers of the active alias exactly where fault registers exist |
| FaultCapture.RasFaultRegWords | Fault/Source/ARM_FaultStorage.c:442-454 | RFSR is written exactly on Armv8.1-M Mainline |
| FaultCapture.SecureFaultRegsWords | Fault/Source/ARM_FaultStorage.c:456-473 | SFSR/SFAR are written from the Secure SCB exactly in Secure Mainline builds |
| FaultStorage.SelectStack | Fault/Source/ARM_FaultStorage.c:197-230 | EXC_RETURN.SPSEL chooses MSP or PSP. A Secure build uses the Non-secure alias exactly when EXC_RETURN.S is 0 |
| FaultStorage.CheckStack | Fault/Source/ARM_FaultStorage.c:247-280 | The stack is invalid exactly when its pointer is null or, where fault registers exist, the CFSR of the alias in use shows a stacking error |
| FaultStorage.FaultStore.constructor | Fault/Source/ARM_FaultStorage.c:79 | The record starts with whatever the memory held |
| FaultStorage.FaultStore.ClearWords | Fault/Source/ARM_FaultStorage.c:142-151 | The word loop leaves every word zero |
| FaultStorage.FaultStore.Clear | Fault/Source/ARM_FaultStorage.c:92-94 | The record becomes all zeros and then fails validation |
| FaultStorage.FaultStore.CoveredCrc | Fault/Source/ARM_FaultStorage.c:516-539 | The inline loop, reading the record byte by byte from `&count`, computes the same CRC as `CalcCRC32` over the covered bytes |
| FaultStorage.FaultStore.Occurred | Fault/Source/ARM_FaultStorage.c:101-120 | The result is 1 exactly when the magic number is present and the stored CRC matches the recomputation, and 0 otherwise |
| FaultStorage.FaultStore.StoreHeader | Fault/Source/ARM_FaultStorage.c:138-161 | The record is cleared, then holds the old `count` plus 1 and the compile-time `info` |
| FaultStorage.FaultStore.StoreLiveCalleeSaved | Fault/Source/ARM_FaultStorage.c:162-170 | R4..R11 hold the live registers, and nothing else changes |
| FaultStorage.FaultStore.StoreFaultMode | Fault/Source/ARM_FaultStorage.c:234-244 | Bit 20 is ORed in exactly for a Secure build on the Secure stack |
| FaultStorage.FaultStore.StoreAdditionalContext | Fault/Source/ARM_FaultStorage.c:293-305 | IntegritySignature and R4..R11 are taken from the additional state context, and the reserved word is skipped |
| FaultStorage.FaultStore.StoreBasicFrame | Fault/Source/ARM_FaultStorage.c:307-317 | R0..R3, R12, LR, ReturnAddress and xPSR are the eight stacked words |
| FaultStorage.FaultStore.StoreStateContext | Fault/Source/ARM_FaultStorage.c:282-326 | The record becomes the state-context stage of the old one |
| FaultStorage.FaultStore.StoreExceptionContext | Fault/Source/ARM_FaultStorage.c:328-344 | EXC_xPSR, EXC_RETURN, MSP and PSP of the alias in use are stored |
| FaultStorage.FaultStore.StoreLimits | Fault/Source/ARM_FaultStorage.c:346-374 | The record becomes the limit-register stage of the old one |
| FaultStorage.FaultStore.StoreFaultStatus | Fault/Source/ARM_FaultStorage.c:414-440 | The record becomes the fault-status stage of the old one |
| FaultStorage.FaultStore.StoreRasFaultReg | Fault/Source/ARM_FaultStorage.c:442-454 | The record becomes the RFSR stage of the old one |
| FaultStorage.FaultStore.StoreSecureFaultRegs | Fault/Source/ARM_FaultStorage.c:456-473 | The record becomes the SFSR/SFAR stage of the old one |
| FaultStorage.FaultStore.StoreFirstBlock | Fault/Source/ARM_FaultStorage.c:133-403 | After the first assembly block, the record is `FirstBlock` of the old `count` |
| FaultStorage.FaultStore.StoreFaultRegs | Fault/Source/ARM_FaultStorage.c:408-506 | The second assembly block is skipped entirely without fault registers, and otherwise applies its three stages |
| FaultStorage.FaultStore.StoreSeal | Fault/Source/ARM_FaultStorage.c:513-547 | The CRC is computed and stored, then the magic number is stored last |
| FaultStorage.FaultStore.Save | Fault/Source/ARM_FaultStorage.c:127-590 | The record becomes `Captured` of the old `count`, the count goes up by one, and the record then passes validation |

## Left out

- `ARM_FaultExit` (:600-630) is left out. It resets the system through an AIRCR write and then loops forever.
- After sealing, the routine restores R4..R7 and clears them when IntegritySignature is 0xFEFA125A (:551-566). This is register hygiene that does not touch the record, so it is left out. So is the jump to `ARM_FaultExit` (:569-570).
- The `dsb` barrier (:549) is left out, along with the ordering of stores as other bus masters see them. The model's stores happen in program order.
- The MRS/MSR special-register reads, the loads from SCB addresses and the loads from the stack are all reads from `Cpu`. The stack is a total function from addresses to words. The model assumes the stack does not overlap the record and that reading it cannot fault again.
- The inline-assembly mechanics are left out: naked-function attributes, clobber lists, literal pools, and the use of R4..R7 as scratch registers.
- Section placement and compiler macros are left out: `__NO_INIT`, `__WEAK`, `__NAKED` and `__USED` (:29-52, :79), and the `ARM_FaultVersion` string (:76).
- A device header may predefine `SCB_CFSR_Stack_Err_Msk` (:61-67). The model does not cover that case: it uses the file's own definition, with STKOF included exactly when `stkofDefined` holds.
- RFSR: the `rfsr_reg_addr` and `rfsr_ofs` operands of the second block are declared only for a Secure Mainline build (:491-499). The RFSR store that uses them is compiled on every Armv8.1-M Mainline build (:443-445). A Non-secure Armv8.1-M build would therefore not compile. The model stores RFSR on every Armv8.1-M Mainline build with fault registers, as the code evidently intends.
- CalcCRC32: the model reads the input as a sequence of bytes, not through a pointer. An input of 2^32 bytes or more, which the 32-bit `data_len` cannot express, is not excluded.
- Validate: `Validate` and `FaultStore.Occurred` read the CRC input as the little-endian image of the record's words. This assumes the C compiler lays `ARM_FaultInfo_t` out without padding, which its declaration (not part of this model) is taken to guarantee.
