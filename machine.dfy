/**
 * Machine words and the control and status registers (CSRs) of one RV64 hart.
 *
 * The Rust code reaches CSRs through the `read_csr!`, `write_csr!` and
 * `clear_csr!` macros (csrrs / csrrw / csrrc instructions). Here the CSR file
 * is an object holding a map from register name to 64-bit value; the three
 * macros become `Read`, `Write` and `ClearBits`.
 */
module Machine {

  /** `usize` on the 64-bit target. */
  type Word = bv64

  /** 2^64, the number of distinct `usize` values. */
  const TWO_TO_64: nat := 0x1_0000_0000_0000_0000

  /** The CSRs that the modelled code reads or writes. */
  datatype Csr =
    | Mip
    | Mepc
    | Mvendorid
    | Marchid
    | Mimpid
    | Satp
    | PmpCfg(n: nat)
    | PmpAddr(n: nat)

  /** A bit position within a machine word. */
  type BitIndex = i: Word | i < 64

  /** True when bit `i` of `v` is set. */
  predicate BitSet(v: Word, i: BitIndex)
  {
    (v >> i) & 1 == 1
  }

  /** Clearing bit `b` with an and-not mask clears that bit and keeps every other one. */
  lemma ClearBitEffect(v: Word, b: BitIndex, j: BitIndex)
    ensures BitSet(v & !(1 << b), j) <==> j != b && BitSet(v, j)
  {
  }

  class CsrFile {
    var regs: map<Csr, Word>

    constructor (init: map<Csr, Word>)
      ensures regs == init
    {
      regs := init;
    }

    /** `read_csr!`: a register that holds no value reads as zero. */
    function Read(c: Csr): Word
      reads this
    {
      if c in regs then regs[c] else 0
    }

    /** `write_csr!` */
    method Write(c: Csr, v: Word)
      modifies this
      ensures regs == old(regs)[c := v]
    {
      regs := regs[c := v];
    }

    /** `clear_csr!`: clears the bits of `mask`, keeps the others. */
    method ClearBits(c: Csr, mask: Word)
      modifies this
      ensures regs == old(regs)[c := old(Read(c)) & !mask]
    {
      regs := regs[c := Read(c) & !mask];
    }
  }
}
