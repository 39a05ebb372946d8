/**
 * Supervisor Binary Interface calls from supervisors (src/syscalls.rs). The
 * calling convention is that of version 0.2 of the RISC-V SBI specification:
 * the extension ID is passed in a7, the function ID in a6, arguments from a0;
 * the error code comes back in a0 and the value in a1. The answer to an
 * extension probe is the reverse of that version's (see BaseResult).
 */
module Syscalls {
  import opened Wrappers
  import opened Machine
  import opened Irq

  const SBI_SPEC_VERSION: Word := 2
  const SBI_IMPL_ID: Word := 4
  const SBI_IMPL_VERSION: Word := 1

  /** The two's-complement reading of a register, as a supervisor reads an SBI error code. */
  function Signed(w: Word): int
  {
    if w < 0x8000_0000_0000_0000 then w as int else w as int - TWO_TO_64
  }

  /** The error codes, each a negative 32-bit value sign-extended to the 64-bit register width. */
  const SBI_SUCCESS: Word := 0
  const SBI_ERR_FAILED: Word := 0xFFFF_FFFF_FFFF_FFFF
  const SBI_ERR_NOT_SUPPORTED: Word := 0xFFFF_FFFF_FFFF_FFFE
  const SBI_ERR_INVALID_PARAM: Word := 0xFFFF_FFFF_FFFF_FFFD
  const SBI_ERR_DENIED: Word := 0xFFFF_FFFF_FFFF_FFFC
  const SBI_ERR_INVALID_ADDRESS: Word := 0xFFFF_FFFF_FFFF_FFFB
  const SBI_ERR_ALREADY_AVAILABLE: Word := 0xFFFF_FFFF_FFFF_FFFA

  /** The error codes read as the negative numbers section 3 of the SBI specification assigns them. */
  lemma ErrorCodesAreNegative()
    ensures Signed(SBI_SUCCESS) == 0
    ensures Signed(SBI_ERR_FAILED) == -1 && Signed(SBI_ERR_NOT_SUPPORTED) == -2
    ensures Signed(SBI_ERR_INVALID_PARAM) == -3 && Signed(SBI_ERR_DENIED) == -4
    ensures Signed(SBI_ERR_INVALID_ADDRESS) == -5 && Signed(SBI_ERR_ALREADY_AVAILABLE) == -6
  {
  }

  const SBI_EXT_BASE: Word := 0x10
  const SBI_EXT_BASE_GET_SPEC_VERSION: Word := 0
  const SBI_EXT_BASE_GET_IMPL_ID: Word := 1
  const SBI_EXT_BASE_GET_IMPL_VERSION: Word := 2
  const SBI_EXT_BASE_PROBE_EXTENSION: Word := 3
  const SBI_EXT_BASE_GET_MVENDORID: Word := 4
  const SBI_EXT_BASE_GET_MARCHID: Word := 5
  const SBI_EXT_BASE_GET_MIMPLD: Word := 6

  /** The extensions this implementation answers. */
  const SBI_EXTS: seq<Word> := [SBI_EXT_BASE]

  /** What the hypervisor is asked to do after a call. */
  datatype Action = Terminate | Unknown(ext: Word, fid: Word)

  /** The calls `handler` answers itself: the seven functions of the base extension. */
  predicate IsBaseCall(ext: Word, fid: Word)
  {
    ext == SBI_EXT_BASE && fid <= SBI_EXT_BASE_GET_MIMPLD
  }

  /**
   * The value a base-extension call returns in a1. A probe answers 0 when the
   * probed extension is implemented and 1 when it is not. This is the reverse
   * of the base extension's "Probe SBI extension" function in SBI v0.2, where 0
   * means the extension is not available.
   */
  function BaseResult(fid: Word, probed: Word, mvendorid: Word, marchid: Word, mimpid: Word): (v: Word)
    requires fid <= SBI_EXT_BASE_GET_MIMPLD
    ensures fid == SBI_EXT_BASE_PROBE_EXTENSION ==> (v == 0 <==> probed in SBI_EXTS) && v <= 1
  {
    if fid == SBI_EXT_BASE_GET_SPEC_VERSION then SBI_SPEC_VERSION
    else if fid == SBI_EXT_BASE_GET_IMPL_ID then SBI_IMPL_ID
    else if fid == SBI_EXT_BASE_GET_IMPL_VERSION then SBI_IMPL_VERSION
    else if fid == SBI_EXT_BASE_PROBE_EXTENSION then (if probed in SBI_EXTS then 0 else 1)
    else if fid == SBI_EXT_BASE_GET_MVENDORID then mvendorid
    else if fid == SBI_EXT_BASE_GET_MARCHID then marchid
    else mimpid
  }

  /**
   * What `handler` does to the stacked registers and what it hands to the
   * hypervisor. Only a0 and a1 are written: base calls report success in a0
   * and their value in a1 and need no further action; every other call reports
   * "not supported" in a0, leaves a1 alone and is passed up as Unknown.
   */
  function HandlerSpec(regs: seq<Word>, mvendorid: Word, marchid: Word, mimpid: Word): (r: (seq<Word>, Option<Action>))
    requires |regs| == FRAME_SLOTS
    ensures |r.0| == FRAME_SLOTS
    ensures forall i :: 0 <= i < FRAME_SLOTS && i != REG_A0 && i != REG_A1 ==> r.0[i] == regs[i]
    ensures r.1.None? <==> IsBaseCall(regs[REG_A7], regs[REG_A6])
    ensures r.1.Some? ==>
              && r.1.value == Action.Unknown(regs[REG_A7], regs[REG_A6])
              && r.0[REG_A0] == SBI_ERR_NOT_SUPPORTED && r.0[REG_A1] == regs[REG_A1]
    ensures r.1.None? ==> r.0[REG_A0] == SBI_SUCCESS
  {
    var ext := regs[REG_A7];
    var fid := regs[REG_A6];
    if IsBaseCall(ext, fid) then
      (regs[REG_A0 := SBI_SUCCESS][REG_A1 := BaseResult(fid, regs[REG_A0], mvendorid, marchid, mimpid)], None)
    else
      (regs[REG_A0 := SBI_ERR_NOT_SUPPORTED], Some(Action.Unknown(ext, fid)))
  }

  /**
   * What each base-extension function answers in a1: the spec version 2, the
   * implementation ID 4 and version 1, the machine identity registers, and a
   * probe answer of 0 for the base extension alone (which an SBI v0.2 caller
   * reads as "not available") and 1 for every other extension. The handler
   * never asks for termination.
   */
  lemma HandlerAnswers(regs: seq<Word>, mvendorid: Word, marchid: Word, mimpid: Word)
    requires |regs| == FRAME_SLOTS
    ensures HandlerSpec(regs, mvendorid, marchid, mimpid).1 != Some(Terminate)
    ensures var a1 := HandlerSpec(regs, mvendorid, marchid, mimpid).0[REG_A1];
            regs[REG_A7] == SBI_EXT_BASE ==>
              && (regs[REG_A6] == 0 ==> a1 == 2)
              && (regs[REG_A6] == 1 ==> a1 == 4)
              && (regs[REG_A6] == 2 ==> a1 == 1)
              && (regs[REG_A6] == 3 ==> (a1 == 0 <==> regs[REG_A0] == 0x10) && (a1 == 1 <==> regs[REG_A0] != 0x10))
              && (regs[REG_A6] == 4 ==> a1 == mvendorid)
              && (regs[REG_A6] == 5 ==> a1 == marchid)
              && (regs[REG_A6] == 6 ==> a1 == mimpid)
  {
  }

  /** `set_error_code`: write the error code into a0. */
  method SetErrorCode(ctx: IrqContext, errorCode: Word)
    requires ctx.Valid()
    modifies ctx.registers
    ensures ctx.registers[..] == old(ctx.registers[..])[REG_A0 := errorCode]
  {
    ctx.registers[REG_A0] := errorCode;
  }

  /** `success`: report success in a0 and the result in a1. */
  method Success(ctx: IrqContext, result: Word)
    requires ctx.Valid()
    modifies ctx.registers
    ensures ctx.registers[..] == old(ctx.registers[..])[REG_A0 := SBI_SUCCESS][REG_A1 := result]
  {
    SetErrorCode(ctx, SBI_SUCCESS);
    ctx.registers[REG_A1] := result;
  }

  /**
   * The probe branch of `handler`: look the probed extension up in SBI_EXTS and
   * answer 0 on a match, 1 otherwise.
   */
  method Probe(ctx: IrqContext)
    requires ctx.Valid()
    modifies ctx.registers
    ensures ctx.registers[..] ==
            old(ctx.registers[..])[REG_A0 := SBI_SUCCESS][REG_A1 := if old(ctx.registers[REG_A0]) in SBI_EXTS then 0 else 1]
  {
    var matched := false;
    var i := 0;
    while i < |SBI_EXTS|
      invariant 0 <= i <= |SBI_EXTS|
      invariant !matched
      invariant ctx.registers[..] == old(ctx.registers[..])
      invariant old(ctx.registers[REG_A0]) !in SBI_EXTS[..i]
    {
      if ctx.registers[REG_A0] == SBI_EXTS[i] {
        Success(ctx, 0);
        matched := true;
        break;
      }
      i := i + 1;
    }
    if !matched {
      assert SBI_EXTS[..i] == SBI_EXTS;
      Success(ctx, 1);
    }
  }

  /**
   * `handler`: answer a supervisor's SBI call in place in its stacked
   * registers; the machine identity registers are read from the CSR file.
   */
  method Handler(ctx: IrqContext, csrs: CsrFile) returns (action: Option<Action>)
    requires ctx.Valid()
    modifies ctx.registers
    ensures (ctx.registers[..], action) ==
            HandlerSpec(old(ctx.registers[..]), csrs.Read(Mvendorid), csrs.Read(Marchid), csrs.Read(Mimpid))
  {
    var ext := ctx.registers[REG_A7];
    var fid := ctx.registers[REG_A6];
    action := None;
    if ext == SBI_EXT_BASE && fid == SBI_EXT_BASE_GET_SPEC_VERSION {
      Success(ctx, SBI_SPEC_VERSION);
    } else if ext == SBI_EXT_BASE && fid == SBI_EXT_BASE_GET_IMPL_ID {
      Success(ctx, SBI_IMPL_ID);
    } else if ext == SBI_EXT_BASE && fid == SBI_EXT_BASE_GET_IMPL_VERSION {
      Success(ctx, SBI_IMPL_VERSION);
    } else if ext == SBI_EXT_BASE && fid == SBI_EXT_BASE_PROBE_EXTENSION {
      Probe(ctx);
    } else if ext == SBI_EXT_BASE && fid == SBI_EXT_BASE_GET_MVENDORID {
      Success(ctx, csrs.Read(Mvendorid));
    } else if ext == SBI_EXT_BASE && fid == SBI_EXT_BASE_GET_MARCHID {
      Success(ctx, csrs.Read(Marchid));
    } else if ext == SBI_EXT_BASE && fid == SBI_EXT_BASE_GET_MIMPLD {
      Success(ctx, csrs.Read(Mimpid));
    } else {
      SetErrorCode(ctx, SBI_ERR_NOT_SUPPORTED);
      action := Some(Action.Unknown(ext, fid));
    }
  }
}
