/**
 * Emulation of instructions the hardware lacks (src/instructions.rs): a
 * supervisor's RDTIME, which traps as an illegal instruction on cores without
 * a readable time CSR. RDTIME is CSRRS rd, time, x0 (section 10.1 of the
 * RISC-V Unprivileged ISA 20191213, CSR instruction format of section 9.1).
 * The fetched word and the pinned timer value come from memory and the timer,
 * which are not part of this model and are parameters.
 */
module Instructions {
  import opened Wrappers
  import opened Machine
  import opened Cpu
  import Irq
  import opened Mmu

  type Inst = bv32

  datatype EmulationResult = Success | CantEmulate | CantAccess | IllegalInstruction

  const RDTIME_INST: Inst := (0xc01 << 20) | (2 << 12) | (0x1c << 2) | 3
  const RDTIME_MASK: Inst := !(0x1f << 7)
  const RDTIMEH_INST: Inst := (0xc81 << 20) | (2 << 12) | (0x1c << 2) | 3
  const RDTIMEH_MASK: Inst := !(0x1f << 7)

  /** The CSR number of the time counter. */
  const CSR_TIME: Inst := 0xC01

  /** A CSRRS instruction: csr[31:20], rs1[19:15], funct3 2, rd[11:7], opcode SYSTEM. */
  function EncodeCsrrs(rd: Inst, csr: Inst, rs1: Inst): Inst
    requires rd < 32 && csr < 0x1000 && rs1 < 32
  {
    (csr << 20) | (rs1 << 15) | (2 << 12) | (rd << 7) | 0x73
  }

  /** The RDTIME test of `emulate`: every bit outside rd matches. */
  predicate IsRdtime(inst: Inst)
  {
    inst & RDTIME_MASK == RDTIME_INST
  }

  /** The destination register field of a fetched word. */
  function RdOf(inst: Inst): (rd: Inst)
    ensures rd < 32
  {
    ((inst & !RDTIME_MASK) >> 7) & RDTIME_MASK
  }

  /** A word passes the RDTIME test exactly when it is CSRRS rd, time, x0 for its own rd field. */
  lemma RdtimeDecode(inst: Inst)
    ensures IsRdtime(inst) <==> inst == EncodeCsrrs(RdOf(inst), CSR_TIME, 0)
  {
  }

  /** RDTIME to any register passes the test, and the register is recovered from the word. */
  lemma RdtimeEncode(rd: Inst)
    requires rd < 32
    ensures IsRdtime(EncodeCsrrs(rd, CSR_TIME, 0))
    ensures RdOf(EncodeCsrrs(rd, CSR_TIME, 0)) == rd
  {
  }

  /** RDTIMEH (CSR 0xC81) is not mistaken for RDTIME, so on RV64 it stays illegal. */
  lemma RdtimehIsNotRdtime(rd: Inst)
    requires rd < 32
    ensures RDTIMEH_INST == EncodeCsrrs(0, 0xC81, 0)
    ensures !IsRdtime(EncodeCsrrs(rd, 0xC81, 0))
  {
  }

  /**
   * The physical address `emulate` fetches the faulting instruction from:
   * mepc itself for the hypervisor, mepc translated through satp for a
   * supervisor, nothing for user mode; the address must pass the PMP check.
   */
  function FetchAddress(priv: PrivilegeMode, mepc: Word, satp: Word, validate: Word -> Option<Word>): (r: Option<Word>)
    ensures priv == User ==> r.None?
    ensures priv == Hypervisor ==> (r.Some? <==> validate(mepc).Some?) && (r.Some? ==> r.value == mepc)
    ensures priv == Supervisor ==>
              (r.Some? <==> SupervisorAddrToPhys(satp, mepc, validate).Some?
                            && validate(SupervisorAddrToPhys(satp, mepc, validate).value).Some?)
    ensures priv == Supervisor && r.Some? ==> r == SupervisorAddrToPhys(satp, mepc, validate)
  {
    var addr :=
      match priv
      case Hypervisor => Some(mepc)
      case Supervisor => SupervisorAddrToPhys(satp, mepc, validate)
      case User => None;
    if addr.None? || validate(addr.value).None? then None else addr
  }

  /** The outcome of `emulate` on a register frame, mepc and satp: result, new frame and new mepc. */
  datatype Emulation = Emulation(result: EmulationResult, registers: seq<Word>, mepc: Word)

  /**
   * What `emulate` does. Only a fetchable RDTIME with a readable timer
   * succeeds: it writes the time into slot rd, rd being bits 11:7 of the
   * word, and steps mepc over the 4-byte instruction. Every other outcome
   * leaves the frame and mepc as they were.
   */
  function EmulateSpec(priv: PrivilegeMode, registers: seq<Word>, mepc: Word, satp: Word,
                       validate: Word -> Option<Word>, fetch: Word -> Inst, timeNow: Option<Word>): (e: Emulation)
    requires |registers| == Irq.FRAME_SLOTS
    ensures e.result != Success ==> e.registers == registers && e.mepc == mepc
    ensures e.result == CantAccess <==> FetchAddress(priv, mepc, satp, validate).None?
    ensures e.result == Success <==>
              && FetchAddress(priv, mepc, satp, validate).Some?
              && IsRdtime(fetch(FetchAddress(priv, mepc, satp, validate).value))
              && timeNow.Some?
    ensures e.result == CantEmulate <==>
              && FetchAddress(priv, mepc, satp, validate).Some?
              && IsRdtime(fetch(FetchAddress(priv, mepc, satp, validate).value))
              && timeNow.None?
    ensures e.result == IllegalInstruction <==>
              && FetchAddress(priv, mepc, satp, validate).Some?
              && !IsRdtime(fetch(FetchAddress(priv, mepc, satp, validate).value))
    ensures e.result == Success ==>
              var inst := fetch(FetchAddress(priv, mepc, satp, validate).value);
              && inst == EncodeCsrrs(RdOf(inst), CSR_TIME, 0)
              && e.registers == registers[RdOf(inst) as nat := timeNow.value]
              && e.mepc == mepc + 4
  {
    var addr := FetchAddress(priv, mepc, satp, validate);
    if addr.None? then Emulation(CantAccess, registers, mepc)
    else
      var inst := fetch(addr.value);
      if !IsRdtime(inst) then Emulation(IllegalInstruction, registers, mepc)
      else if timeNow.None? then Emulation(CantEmulate, registers, mepc)
      else
        RdtimeDecode(inst);
        Emulation(Success, registers[RdOf(inst) as nat := timeNow.value], mepc + 4)
  }

  /** `increment_epc`: step mepc over one 32-bit instruction (wrapping at 2^64). */
  method IncrementEpc(csrs: CsrFile)
    modifies csrs
    ensures csrs.regs == old(csrs.regs)[Mepc := old(csrs.Read(Mepc)) + 4]
  {
    var epc := csrs.Read(Mepc);
    csrs.Write(Mepc, epc + 4);
  }

  /** The success path of `emulate`: write the time into slot rd and step mepc. */
  method CompleteRdtime(ctx: Irq.IrqContext, csrs: CsrFile, instruction: Inst, time: Word)
    requires ctx.Valid()
    modifies ctx.registers, csrs
    ensures ctx.registers[..] == old(ctx.registers[..])[RdOf(instruction) as nat := time]
    ensures csrs.regs == old(csrs.regs)[Mepc := old(csrs.Read(Mepc)) + 4]
  {
    var rd := RdOf(instruction);
    ctx.registers[rd as nat] := time;
    IncrementEpc(csrs);
  }

  /**
   * `emulate` on RV64: update the stacked registers and mepc in place as
   * EmulateSpec describes; satp is read from the CSR file, the instruction
   * word through `fetch` and the time from `timeNow`.
   */
  method Emulate(priv: PrivilegeMode, ctx: Irq.IrqContext, csrs: CsrFile,
                 validate: Word -> Option<Word>, fetch: Word -> Inst, timeNow: Option<Word>)
    returns (result: EmulationResult)
    requires ctx.Valid()
    modifies ctx.registers, csrs
    ensures var e := EmulateSpec(priv, old(ctx.registers[..]), old(csrs.Read(Mepc)), old(csrs.Read(Satp)),
                                 validate, fetch, timeNow);
            && result == e.result
            && ctx.registers[..] == e.registers
            && csrs.regs == (if result == Success then old(csrs.regs)[Mepc := e.mepc] else old(csrs.regs))
  {
    var addr: Word;
    match priv {
      case Hypervisor =>
        addr := csrs.Read(Mepc);
      case Supervisor =>
        var phys := SupervisorAddrToPhys(csrs.Read(Satp), csrs.Read(Mepc), validate);
        if phys.None? {
          return CantAccess;
        }
        addr := phys.value;
      case User =>
        return CantAccess;
    }

    if validate(addr).None? {
      return CantAccess;
    }

    var instruction := fetch(addr);

    if IsRdtime(instruction) {
      if timeNow.None? {
        return CantEmulate;
      }
      CompleteRdtime(ctx, csrs, instruction, timeNow.value);
      return Success;
    }

    return IllegalInstruction;
  }
}
