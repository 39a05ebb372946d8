/**
 * Supervisor-to-physical address translation (src/mmu.rs). The satp layout
 * follows section 4.1.11 of the RISC-V Privileged Architecture v1.11: on RV64
 * MODE is bits 63:60, ASID bits 59:44 and PPN bits 43:0; on RV32 MODE is bit
 * 31, ASID bits 30:22 and PPN bits 21:0. Every address handed back has passed
 * the PMP check `validate_pmp_phys_addr`, which is not part of this model and
 * is therefore a parameter.
 */
module Mmu {
  import opened Wrappers
  import opened Machine

  const PAGE_SIZE: Word := 4 * 1024

  const RV64_SATP_PPN_MASK: Word := (1 << 44) - 1
  const RV64_SATP_MODE_BIT_SHIFT: Word := 60
  const RV64_SATP_MODE_BIT_MASK: Word := 0xF
  const RV64_SATP_MODE_SV39: Word := 8
  const RV64_SATP_MODE_SV48: Word := 9

  /** The MODE field of an RV64 satp. */
  function SatpMode(satp: Word): (m: Word)
    ensures m < 16
  {
    (satp >> RV64_SATP_MODE_BIT_SHIFT) & RV64_SATP_MODE_BIT_MASK
  }

  /** The physical address of the root page table: the PPN field times the page size. */
  function RootTable(satp: Word): Word
  {
    (satp & RV64_SATP_PPN_MASK) * PAGE_SIZE
  }

  /** An RV64 satp built from its three fields, as section 4.1.11 lays them out. */
  function MakeSatp(mode: Word, asid: Word, ppn: Word): Word
    requires mode < 16 && asid < 0x1_0000 && ppn < 0x1000_0000_0000
  {
    (mode << 60) | (asid << 44) | ppn
  }

  /** Decoding a satp built from its fields gives back its mode and the page its PPN names. */
  lemma SatpFieldsRoundTrip(mode: Word, asid: Word, ppn: Word)
    requires mode < 16 && asid < 0x1_0000 && ppn < 0x1000_0000_0000
    ensures SatpMode(MakeSatp(mode, asid, ppn)) == mode
    ensures RootTable(MakeSatp(mode, asid, ppn)) == ppn * PAGE_SIZE
  {
  }

  /** The root table is page aligned (its low twelve bits are clear) and lies below 2^56, the RV64 physical address limit. */
  lemma RootTableAligned(satp: Word)
    ensures RootTable(satp) & (PAGE_SIZE - 1) == 0
    ensures RootTable(satp) < 0x100_0000_0000_0000
  {
  }

  /** `sv39_to_phys`: the Sv39 walker, a stub that translates nothing. */
  function Sv39ToPhys(rootTable: Word, vaddr: Word): (r: Option<Word>)
    ensures r.None?
  {
    None
  }

  /** `sv48_to_phys`: the Sv48 walker, a stub that translates nothing. */
  function Sv48ToPhys(rootTable: Word, vaddr: Word): (r: Option<Word>)
    ensures r.None?
  {
    None
  }

  /**
   * `supervisor_addr_to_phys` on RV64. With translation off (MODE 0) the
   * address maps to itself if the PMP check accepts it; otherwise the root
   * table must pass the PMP check and the page-table walker for the mode
   * decides, and since both walkers are stubs nothing translates.
   */
  function SupervisorAddrToPhys(satp: Word, saddr: Word, validate: Word -> Option<Word>): (r: Option<Word>)
    ensures r.Some? <==> SatpMode(satp) == 0 && validate(saddr).Some?
    ensures r.Some? ==> r == validate(saddr)
  {
    var mode := SatpMode(satp);
    if mode == 0 then
      validate(saddr)
    else
      match validate(RootTable(satp))
      case Some(rootTable) =>
        if mode == RV64_SATP_MODE_SV39 then Sv39ToPhys(rootTable, saddr)
        else if mode == RV64_SATP_MODE_SV48 then Sv48ToPhys(rootTable, saddr)
        else None
      case None => None
  }

  type Word32 = bv32

  const PAGE_SIZE_32: Word32 := 4 * 1024
  const RV32_SATP_PPN_MASK: Word32 := (1 << 22) - 1
  const RV32_SATP_MODE_BIT_SHIFT: Word32 := 31
  const RV32_SATP_MODE_BIT_MASK: Word32 := 1

  /** The MODE bit of an RV32 satp. */
  function SatpMode32(satp: Word32): (m: Word32)
    ensures m <= 1
    ensures m == 1 <==> satp >= 0x8000_0000
  {
    (satp >> RV32_SATP_MODE_BIT_SHIFT) & RV32_SATP_MODE_BIT_MASK
  }

  /**
   * The RV32 root table address: the 22-bit PPN times the page size, computed
   * in the 32-bit word, so PPNs of 2^20 and above wrap.
   */
  function RootTable32(satp: Word32): Word32
  {
    (satp & RV32_SATP_PPN_MASK) * PAGE_SIZE_32
  }

  /** `sv32_to_phys`: the Sv32 walker, a stub that translates nothing. */
  function Sv32ToPhys(rootTable: Word32, vaddr: Word32): (r: Option<Word32>)
    ensures r.None?
  {
    None
  }

  /** `supervisor_addr_to_phys` on RV32: the identity-or-nothing rule with the one-bit mode. */
  function SupervisorAddrToPhys32(satp: Word32, saddr: Word32, validate: Word32 -> Option<Word32>): (r: Option<Word32>)
    ensures r.Some? <==> satp < 0x8000_0000 && validate(saddr).Some?
    ensures r.Some? ==> r == validate(saddr)
  {
    if SatpMode32(satp) == 0 then
      validate(saddr)
    else
      match validate(RootTable32(satp))
      case Some(rootTable) => Sv32ToPhys(rootTable, saddr)
      case None => None
  }
}
