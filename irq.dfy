/**
 * Exception and interrupt decoding (src/irq.rs): the register frame stacked by
 * the trap handler, the decode of mcause into a portable description, and the
 * acknowledgement that clears an interrupt's pending bit in mip.
 *
 * mcause follows section 3.1.15 of the RISC-V Privileged Architecture v1.11:
 * its top bit says interrupt (set) or exception (clear), the remaining bits
 * hold the exception code of table 3.6. Bit i of mip is the pending bit of
 * interrupt code i (section 3.1.9).
 */
module Irq {
  import opened Wrappers
  import opened Machine
  import opened Cpu

  datatype IrqType = Exception | Interrupt

  datatype IrqSeverity = Fatal | NonFatal

  datatype IrqCause =
    | UserSWI | SupervisorSWI | HypervisorSWI
    | UserTimer | SupervisorTimer | HypervisorTimer
    | UserInterrupt | SupervisorInterrupt | HypervisorInterrupt
    | InstructionAlignment | InstructionAccess | IllegalInstruction | InstructionPageFault
    | LoadAlignment | LoadAccess | LoadPageFault
    | StoreAlignment | StoreAccess | StorePageFault
    | Breakpoint
    | UserEnvironmentCall | SupervisorEnvironmentCall | HypervisorEnvironmentCall
    | Unknown

  /** `IRQ`: the portable description of a trap handed to the hypervisor. */
  datatype Irq = Irq(
    severity: IrqSeverity,
    privilegeMode: PrivilegeMode,
    irqType: IrqType,
    cause: IrqCause,
    pc: Word,
    sp: Word)

  /** Number of register slots stacked by the low-level trap handler (x0..x31). */
  const FRAME_SLOTS: nat := 32
  /** Frame slots of the stack pointer and of the argument registers (standard ABI: x2, x10, x11, x16, x17). */
  const REG_SP: nat := 2
  const REG_A0: nat := 10
  const REG_A1: nat := 11
  const REG_A6: nat := 16
  const REG_A7: nat := 17

  /**
   * `IRQContext`: the registers stacked on trap entry. The trap exit path loads
   * them back, so writing a slot changes the interrupted code's register.
   */
  class IrqContext {
    const registers: array<Word>

    ghost predicate Valid()
      reads this
    {
      registers.Length == FRAME_SLOTS
    }

    constructor (init: seq<Word>)
      requires |init| == FRAME_SLOTS
      ensures Valid() && fresh(registers) && registers[..] == init
    {
      registers := new Word[FRAME_SLOTS](i requires 0 <= i < FRAME_SLOTS => init[i]);
    }
  }

  /**
   * The top bit of an mcause of `isaWidth` bits, `1 << (isaWidth - 1)`, written
   * out for the two widths the hypervisor runs on.
   */
  function TopBit(isaWidth: Word): Word
    requires isaWidth == 32 || isaWidth == 64
  {
    if isaWidth == 32 then 1 << 31 else 1 << 63
  }

  /** The exception-code mask of an ISA of `isaWidth` bits: every bit below the top one. */
  function CodeMask(isaWidth: Word): Word
    requires isaWidth == 32 || isaWidth == 64
  {
    TopBit(isaWidth) - 1
  }

  /** The `cause_type` match of `dispatch`: mcause shifted right by `isaWidth - 1` is zero for an exception. */
  function TypeOf(mcause: Word, isaWidth: Word): IrqType
    requires isaWidth == 32 || isaWidth == 64
  {
    var top := if isaWidth == 32 then mcause >> 31 else mcause >> 63;
    if top == 0 then Exception else Interrupt
  }

  /** The exception or interrupt code of mcause: mcause without its top bit. */
  function CauseCode(mcause: Word, isaWidth: Word): Word
    requires isaWidth == 32 || isaWidth == 64
  {
    mcause & CodeMask(isaWidth)
  }

  /**
   * The (type, code) pair that the Privileged Architecture (table 3.6) assigns
   * to each cause; Unknown has none.
   */
  function Encoding(c: IrqCause): Option<(IrqType, Word)>
  {
    match c
    case UserSWI => Some((Interrupt, 0))
    case SupervisorSWI => Some((Interrupt, 1))
    case HypervisorSWI => Some((Interrupt, 3))
    case UserTimer => Some((Interrupt, 4))
    case SupervisorTimer => Some((Interrupt, 5))
    case HypervisorTimer => Some((Interrupt, 7))
    case UserInterrupt => Some((Interrupt, 8))
    case SupervisorInterrupt => Some((Interrupt, 9))
    case HypervisorInterrupt => Some((Interrupt, 11))
    case InstructionAlignment => Some((Exception, 0))
    case InstructionAccess => Some((Exception, 1))
    case IllegalInstruction => Some((Exception, 2))
    case Breakpoint => Some((Exception, 3))
    case LoadAlignment => Some((Exception, 4))
    case LoadAccess => Some((Exception, 5))
    case StoreAlignment => Some((Exception, 6))
    case StoreAccess => Some((Exception, 7))
    case UserEnvironmentCall => Some((Exception, 8))
    case SupervisorEnvironmentCall => Some((Exception, 9))
    case HypervisorEnvironmentCall => Some((Exception, 11))
    case InstructionPageFault => Some((Exception, 12))
    case LoadPageFault => Some((Exception, 13))
    case StorePageFault => Some((Exception, 15))
    case Unknown => None
  }

  /** The match of `dispatch` that turns a (type, code) pair into a severity and a cause. */
  function Decode(t: IrqType, code: Word): (r: (IrqSeverity, IrqCause))
    ensures r.1 != Unknown ==> Encoding(r.1) == Some((t, code))
  {
    match t
    case Exception =>
      if code == 0 then (Fatal, InstructionAlignment)
      else if code == 1 then (Fatal, InstructionAccess)
      else if code == 2 then (Fatal, IllegalInstruction)
      else if code == 3 then (Fatal, Breakpoint)
      else if code == 4 then (Fatal, LoadAlignment)
      else if code == 5 then (Fatal, LoadAccess)
      else if code == 6 then (Fatal, StoreAlignment)
      else if code == 7 then (Fatal, StoreAccess)
      else if code == 8 then (NonFatal, UserEnvironmentCall)
      else if code == 9 then (NonFatal, SupervisorEnvironmentCall)
      else if code == 11 then (NonFatal, HypervisorEnvironmentCall)
      else if code == 12 then (NonFatal, InstructionPageFault)
      else if code == 13 then (NonFatal, LoadPageFault)
      else if code == 15 then (NonFatal, StorePageFault)
      else (NonFatal, Unknown)
    case Interrupt =>
      if code == 0 then (NonFatal, UserSWI)
      else if code == 1 then (NonFatal, SupervisorSWI)
      else if code == 3 then (NonFatal, HypervisorSWI)
      else if code == 4 then (NonFatal, UserTimer)
      else if code == 5 then (NonFatal, SupervisorTimer)
      else if code == 7 then (NonFatal, HypervisorTimer)
      else if code == 8 then (NonFatal, UserInterrupt)
      else if code == 9 then (NonFatal, SupervisorInterrupt)
      else if code == 11 then (NonFatal, HypervisorInterrupt)
      else (NonFatal, Unknown)
  }

  /** Decoding the architectural code of a known cause gives that cause back. */
  lemma DecodeEncoding(c: IrqCause)
    requires c != Unknown
    ensures Encoding(c).Some?
    ensures Decode(Encoding(c).value.0, Encoding(c).value.1).1 == c
  {
  }

  /**
   * A decoded cause other than Unknown is the one the architecture assigns to
   * that (type, code) pair; Unknown is decoded exactly for unassigned pairs.
   */
  lemma EncodingOfDecode(t: IrqType, code: Word)
    ensures var c := Decode(t, code).1;
            c != Unknown ==> Encoding(c) == Some((t, code))
    ensures Decode(t, code).1 == Unknown <==> forall c: IrqCause :: Encoding(c) != Some((t, code))
  {
    var c := Decode(t, code).1;
    if c == Unknown {
      forall c': IrqCause ensures Encoding(c') != Some((t, code)) {
        if Encoding(c') == Some((t, code)) {
          DecodeEncoding(c');
        }
      }
    } else {
      assert Encoding(c) == Some((t, code));
    }
  }

  /** Only the first eight exception codes (misaligned and access faults, illegal instruction, breakpoint) are fatal. */
  lemma FatalExactlyForLowExceptions(t: IrqType, code: Word)
    ensures Decode(t, code).0 == Fatal <==> t == Exception && code < 8
  {
    match t
    case Exception =>
      if code < 8 {
        assert Decode(t, code).0 == Fatal;
      } else {
        assert Decode(t, code).0 == NonFatal;
      }
    case Interrupt =>
      assert Decode(t, code).0 == NonFatal;
  }

  /** The top-bit test of `dispatch`: nothing at or above bit `isaWidth - 1` is set. */
  lemma TopBitClearIffBelow(mcause: Word, isaWidth: Word)
    requires isaWidth == 32 || isaWidth == 64
    ensures mcause >> (isaWidth - 1) == 0 <==> mcause < 1 << (isaWidth - 1)
    ensures (mcause >> (isaWidth - 1) == 0) == (TypeOf(mcause, isaWidth) == Exception)
    ensures TopBit(isaWidth) == 1 << (isaWidth - 1)
  {
    if isaWidth == 32 {
      assert mcause >> 31 == 0 <==> mcause < 1 << 31;
    } else {
      assert mcause >> 63 == 0 <==> mcause < 1 << 63;
    }
  }

  /**
   * `dispatch`: classify mcause, decode its code and describe the trap. The
   * ISA width comes from `get_isa_width` (not part of this model) and the CSR
   * values from the trap-time mcause, mepc and mstatus.
   */
  function Dispatch(context: seq<Word>, mcause: Word, mepc: Word, mstatus: Word, isaWidth: Word): (r: Option<Irq>)
    requires |context| == FRAME_SLOTS
    requires isaWidth == 32 || isaWidth == 64
    ensures r.Some?
    ensures r.value.irqType == Exception <==> mcause < TopBit(isaWidth)
    ensures var code := CauseCode(mcause, isaWidth);
            && (r.value.cause != Unknown ==> Encoding(r.value.cause) == Some((r.value.irqType, code)))
            && (r.value.cause == Unknown <==> forall c: IrqCause :: Encoding(c) != Some((r.value.irqType, code)))
            && (r.value.severity == Fatal <==> r.value.irqType == Exception && code < 8)
    ensures r.value.sp == context[REG_SP] && r.value.pc == mepc
    ensures r.value.privilegeMode == PreviousPrivilege(mstatus)
  {
    var causeType := TypeOf(mcause, isaWidth);
    var code := CauseCode(mcause, isaWidth);
    var (severity, cause) := Decode(causeType, code);
    EncodingOfDecode(causeType, code);
    FatalExactlyForLowExceptions(causeType, code);
    TopBitClearIffBelow(mcause, isaWidth);
    Some(Irq(severity, PreviousPrivilege(mstatus), causeType, cause, mepc, context[REG_SP]))
  }

  /** On RV64 the trap is an exception exactly when bit 63 of mcause is clear; the code is the other 63 bits. */
  lemma DispatchRv64(context: seq<Word>, mcause: Word, mepc: Word, mstatus: Word)
    requires |context| == FRAME_SLOTS
    ensures var irq := Dispatch(context, mcause, mepc, mstatus, 64).value;
            && (irq.irqType == Exception <==> !BitSet(mcause, 63))
            && CauseCode(mcause, 64) == mcause & !(1 << 63)
  {
  }

  /** The mip bit `acknowledge` clears for a cause, if any. */
  function MipBit(c: IrqCause): (r: Option<BitIndex>)
    ensures r.Some? ==> Encoding(c) == Some((Interrupt, r.value))
  {
    match c
    case UserSWI => Some(0)
    case SupervisorSWI => Some(1)
    case UserTimer => Some(4)
    case SupervisorTimer => Some(5)
    case UserInterrupt => Some(8)
    case SupervisorInterrupt => Some(9)
    case _ => None
  }

  /**
   * The bit `acknowledge` clears is the pending bit of the interrupt itself
   * (mip bit i belongs to interrupt code i), and it clears one only for user
   * and supervisor interrupts.
   */
  lemma MipBitIsInterruptCode(c: IrqCause)
    ensures MipBit(c).Some? ==> Encoding(c) == Some((Interrupt, MipBit(c).value))
    ensures MipBit(c).None? <==>
              c in {HypervisorSWI, HypervisorTimer, HypervisorInterrupt, Unknown} || Encoding(c).value.0 == Exception
  {
  }

  /** After an acknowledgement, a bit of mip is set exactly when it was set before and is not the cleared one. */
  lemma AcknowledgedMip(mip: Word, c: IrqCause, j: BitIndex)
    requires MipBit(c).Some?
    ensures BitSet(mip & !(1 << MipBit(c).value), j) <==> BitSet(mip, j) && j != MipBit(c).value
  {
    ClearBitEffect(mip, MipBit(c).value, j);
  }

  /** `acknowledge`: clear the cause's pending bit in mip; causes without one leave mip untouched. */
  method Acknowledge(irq: Irq, csrs: CsrFile)
    modifies csrs
    ensures MipBit(irq.cause).Some? ==>
              csrs.regs == old(csrs.regs)[Mip := old(csrs.Read(Mip)) & !(1 << MipBit(irq.cause).value)]
    ensures MipBit(irq.cause).None? ==> csrs.regs == old(csrs.regs)
  {
    var bit := MipBit(irq.cause);
    if bit.None? {
      return;
    }
    csrs.ClearBits(Mip, 1 << bit.value);
  }
}
