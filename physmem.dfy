/**
 * Physical memory management (src/physmem.rs): carving the single block of
 * physical RAM into the areas that avoid the kernel's footprint, and
 * programming one physical memory protection (PMP) region, following
 * section 3.6 of the RISC-V Privileged Architecture v1.11.
 *
 * Addresses of the RAM carving are unbounded naturals: base + size never
 * overflows here. The one subtraction the source can underflow is modelled
 * with explicit 64-bit wrap-around in NextStepAsWritten.
 */
module Physmem {
  import opened Wrappers
  import opened Machine

  /** A physical RAM area: `size` bytes from `base`. */
  datatype RamArea = RamArea(base: nat, size: nat)
  {
    function End(): nat
    {
      base + size
    }

    predicate Contains(a: nat)
    {
      base <= a < End()
    }
  }

  function Max(a: nat, b: nat): nat
  {
    if a >= b then a else b
  }

  function Min(a: nat, b: nat): nat
  {
    if a <= b then a else b
  }

  /** One call of the iterator: the area it yields, if any, and its new position. */
  datatype Step = Step(area: Option<RamArea>, pos: nat)

  /**
   * `RAMAreaIter::next` as written. After moving out of the kernel area the
   * position is not checked against the end of RAM again, so the size of the
   * area above the kernel is computed by a subtraction that wraps when the
   * kernel ends at or past the end of RAM; and the area below the kernel runs
   * up to the kernel base even when that lies beyond RAM.
   */
  function NextStepAsWritten(total: RamArea, kernel: RamArea, pos: nat): (r: Step)
    ensures r.area.None? <==> Max(pos, total.base) >= total.End()
    ensures r.area.Some? ==> Max(pos, total.base) <= r.area.value.base && !kernel.Contains(r.area.value.base)
  {
    var p0 := Max(pos, total.base);
    if p0 >= total.End() then Step(None, p0)
    else
      var p1: nat := if p0 >= kernel.base && p0 < kernel.End() then kernel.End() else p0;
      if p1 < kernel.base then
        Step(Some(RamArea(p1, kernel.base - p1)), kernel.End())
      else if p1 >= kernel.End() then
        Step(Some(RamArea(p1, (total.End() - p1) % TWO_TO_64)), total.End())
      else
        Step(None, p1)
  }

  /**
   * `RAMAreaIter::next` as evidently intended: the same walk, except that the
   * position is checked against the end of RAM once more after skipping the
   * kernel area, and the area below the kernel is clipped to the end of RAM.
   */
  function NextStep(total: RamArea, kernel: RamArea, pos: nat): (r: Step)
    ensures r.area.Some? ==>
              && r.area.value.size > 0
              && total.base <= r.area.value.base && r.area.value.End() <= total.End()
              && pos <= r.area.value.base && r.area.value.End() <= r.pos
              && (r.area.value.End() <= kernel.base || kernel.End() <= r.area.value.base)
    ensures pos <= r.pos
  {
    var p0 := Max(pos, total.base);
    if p0 >= total.End() then Step(None, p0)
    else
      var p1 := if p0 >= kernel.base && p0 < kernel.End() then kernel.End() else p0;
      if p1 >= total.End() then
        Step(None, p1)
      else if p1 < kernel.base then
        Step(Some(RamArea(p1, Min(kernel.base, total.End()) - p1)), kernel.End())
      else
        // here p1 >= kernel.End(): the position was moved out of the kernel area or never was in it
        Step(Some(RamArea(p1, total.End() - p1)), total.End())
  }

  /**
   * The walk stops exactly when every RAM address at or above `pos` belongs to
   * the kernel, and once stopped it stays stopped.
   */
  lemma NextStepStopsWhenExhausted(total: RamArea, kernel: RamArea, pos: nat)
    ensures var r := NextStep(total, kernel, pos);
            r.area.None? <==> forall a :: pos <= a && total.Contains(a) ==> kernel.Contains(a)
    ensures var r := NextStep(total, kernel, pos);
            r.area.None? ==> NextStep(total, kernel, r.pos).area.None?
  {
    var r := NextStep(total, kernel, pos);
    if r.area.Some? {
      var a := r.area.value.base;
      assert pos <= a && total.Contains(a) && !kernel.Contains(a);
    }
  }

  lemma ModOfSmaller(x: nat, m: nat)
    requires x < m
    ensures x % m == x
  {
  }

  /**
   * Whenever the kernel area ends below the end of RAM, which lies in the
   * 64-bit address space, the code as written and the corrected walk agree.
   */
  lemma NextAsWrittenAgrees(total: RamArea, kernel: RamArea, pos: nat)
    requires kernel.End() < total.End() < TWO_TO_64
    ensures NextStepAsWritten(total, kernel, pos) == NextStep(total, kernel, pos)
  {
    var p0 := Max(pos, total.base);
    if p0 < total.End() {
      var p1 := if p0 >= kernel.base && p0 < kernel.End() then kernel.End() else p0;
      assert p1 < total.End();
      if p1 < kernel.base {
        assert Min(kernel.base, total.End()) == kernel.base;
      } else {
        assert p1 >= kernel.End();
        ModOfSmaller(total.End() - p1, TWO_TO_64);
      }
    }
  }

  /** A kernel footprint that fills RAM up to its end makes the code as written yield an empty area. */
  lemma NextAsWrittenYieldsEmptyArea()
    ensures NextStepAsWritten(RamArea(0x8000_0000, 0x80_0000), RamArea(0x8000_0000, 0x80_0000), 0x8000_0000)
            == Step(Some(RamArea(0x8080_0000, 0)), 0x8080_0000)
    ensures NextStep(RamArea(0x8000_0000, 0x80_0000), RamArea(0x8000_0000, 0x80_0000), 0x8000_0000).area.None?
  {
  }

  /**
   * A kernel footprint running past the end of RAM (for instance, many cores'
   * private memory) makes the code as written yield an area above RAM whose
   * size has wrapped to nearly 2^64.
   */
  lemma NextAsWrittenWrapsSize()
    ensures NextStepAsWritten(RamArea(0x8000_0000, 0x80_0000), RamArea(0x8000_0000, 0x100_0000), 0x8000_0000)
            == Step(Some(RamArea(0x8100_0000, TWO_TO_64 - 0x80_0000)), 0x8080_0000)
    ensures NextStep(RamArea(0x8000_0000, 0x80_0000), RamArea(0x8000_0000, 0x100_0000), 0x8000_0000).area.None?
  {
  }

  /** A kernel area above RAM makes the code as written yield an area that runs past the end of RAM. */
  lemma NextAsWrittenOverrunsRam()
    ensures NextStepAsWritten(RamArea(0x8000_0000, 0x1000), RamArea(0x9000_0000, 0x1000), 0x8000_0000)
            == Step(Some(RamArea(0x8000_0000, 0x1000_0000)), 0x9000_1000)
    ensures NextStep(RamArea(0x8000_0000, 0x1000), RamArea(0x9000_0000, 0x1000), 0x8000_0000)
            == Step(Some(RamArea(0x8000_0000, 0x1000)), 0x9000_1000)
  {
  }

  /** How far the walk from `pos` still has to go. */
  function Unscanned(total: RamArea, pos: nat): nat
  {
    if pos >= total.End() then 0 else total.End() - pos
  }

  /** Every area the iterator yields from `pos` on, in order. */
  function Drain(total: RamArea, kernel: RamArea, pos: nat): seq<RamArea>
    decreases Unscanned(total, pos)
  {
    var r := NextStep(total, kernel, pos);
    if r.area.None? then []
    else [r.area.value] + Drain(total, kernel, r.pos)
  }

  predicate InAny(areas: seq<RamArea>, a: nat)
  {
    exists i :: 0 <= i < |areas| && areas[i].Contains(a)
  }

  /** Every yielded area is RAM at or above `pos` outside the kernel. */
  lemma {:induction false} DrainSound(total: RamArea, kernel: RamArea, pos: nat, a: nat)
    requires InAny(Drain(total, kernel, pos), a)
    ensures total.Contains(a) && !kernel.Contains(a) && pos <= a
    decreases Unscanned(total, pos)
  {
    var r := NextStep(total, kernel, pos);
    var d := Drain(total, kernel, pos);
    var i :| 0 <= i < |d| && d[i].Contains(a);
    assert r.area.Some?;
    var rest := Drain(total, kernel, r.pos);
    assert d == [r.area.value] + rest;
    if i > 0 {
      assert rest[i - 1] == d[i];
      DrainSound(total, kernel, r.pos, a);
    }
  }

  /** Every RAM address at or above `pos` outside the kernel lies in a yielded area. */
  lemma {:induction false} DrainComplete(total: RamArea, kernel: RamArea, pos: nat, a: nat)
    requires total.Contains(a) && !kernel.Contains(a) && pos <= a
    ensures InAny(Drain(total, kernel, pos), a)
    decreases Unscanned(total, pos)
  {
    var r := NextStep(total, kernel, pos);
    NextStepStopsWhenExhausted(total, kernel, pos);
    assert r.area.Some?;
    var d := Drain(total, kernel, pos);
    var rest := Drain(total, kernel, r.pos);
    assert d == [r.area.value] + rest;
    if r.area.value.Contains(a) {
      assert d[0].Contains(a);
    } else {
      NextSkipsOnlyKernel(total, kernel, pos, a);
      DrainComplete(total, kernel, r.pos, a);
      var j :| 0 <= j < |rest| && rest[j].Contains(a);
      assert d[j + 1] == rest[j];
    }
  }

  /**
   * The walk misses nothing and reuses nothing: an address lies in a yielded
   * area exactly when it is RAM at or above `pos` outside the kernel area.
   */
  lemma DrainCovers(total: RamArea, kernel: RamArea, pos: nat, a: nat)
    ensures InAny(Drain(total, kernel, pos), a) <==> total.Contains(a) && !kernel.Contains(a) && pos <= a
  {
    if InAny(Drain(total, kernel, pos), a) {
      DrainSound(total, kernel, pos, a);
    }
    if total.Contains(a) && !kernel.Contains(a) && pos <= a {
      DrainComplete(total, kernel, pos, a);
    }
  }

  /** Between the old position and the new one, the only RAM not yielded is kernel RAM. */
  lemma NextSkipsOnlyKernel(total: RamArea, kernel: RamArea, pos: nat, a: nat)
    requires NextStep(total, kernel, pos).area.Some?
    requires total.Contains(a) && !kernel.Contains(a) && pos <= a
    requires !NextStep(total, kernel, pos).area.value.Contains(a)
    ensures NextStep(total, kernel, pos).pos <= a
  {
  }

  /** The walk yields at most two areas, each non-empty, inside RAM and outside the kernel, in increasing order. */
  lemma {:induction false} DrainShape(total: RamArea, kernel: RamArea, pos: nat)
    ensures |Drain(total, kernel, pos)| <= 2
    ensures forall i :: 0 <= i < |Drain(total, kernel, pos)| ==>
              var area := Drain(total, kernel, pos)[i];
              && area.size > 0 && total.base <= area.base && area.End() <= total.End()
              && (area.End() <= kernel.base || kernel.End() <= area.base)
    ensures forall i, j :: 0 <= i < j < |Drain(total, kernel, pos)| ==>
              Drain(total, kernel, pos)[i].End() <= Drain(total, kernel, pos)[j].base
  {
    var r := NextStep(total, kernel, pos);
    if r.area.Some? {
      var r2 := NextStep(total, kernel, r.pos);
      if r2.area.Some? {
        assert r.pos == kernel.End();
        assert r2.pos == total.End();
        assert Drain(total, kernel, r2.pos) == [];
      } else {
        assert Drain(total, kernel, r.pos) == [];
      }
    } else {
      assert Drain(total, kernel, pos) == [];
    }
  }

  /**
   * `RAMAreaIter`: walks the RAM block `totalArea`, skipping `kernelArea`;
   * `pos` is how far the walk has got.
   */
  class RamAreaIter {
    const totalArea: RamArea
    const kernelArea: RamArea
    var pos: nat

    constructor (total: RamArea, kernel: RamArea, start: nat)
      ensures totalArea == total && kernelArea == kernel && pos == start
    {
      totalArea := total;
      kernelArea := kernel;
      pos := start;
    }

    /** The areas still to come. */
    ghost function Remaining(): seq<RamArea>
      reads this
    {
      Drain(totalArea, kernelArea, pos)
    }

    /** `next`: yield the next area of RAM outside the kernel, or None once RAM is exhausted. */
    method Next() returns (area: Option<RamArea>)
      modifies this
      ensures Step(area, pos) == NextStep(totalArea, kernelArea, old(pos))
      ensures area.None? ==> Remaining() == [] && old(Remaining()) == []
      ensures area.Some? ==> old(Remaining()) == [area.value] + Remaining()
    {
      if pos < totalArea.base {
        pos := totalArea.base;
      }

      if pos >= totalArea.base + totalArea.size {
        return None;
      }

      if pos >= kernelArea.base && pos < kernelArea.base + kernelArea.size {
        pos := kernelArea.base + kernelArea.size;
        if pos >= totalArea.base + totalArea.size {
          return None;
        }
      }

      if pos < kernelArea.base {
        area := Some(RamArea(pos, Min(kernelArea.base, totalArea.End()) - pos));
        pos := kernelArea.base + kernelArea.size;
        return area;
      }

      if pos >= kernelArea.base + kernelArea.size {
        area := Some(RamArea(pos, (totalArea.base + totalArea.size) - pos));
        pos := totalArea.base + totalArea.size;
        return area;
      }

      return None;
    }
  }

  /** Each core's private memory, allocated during boot: 256KiB. */
  const PHYS_MEM_PER_CPU: nat := 0x4_0000

  /** Where the kernel image lies, from the linker symbols `__kernel_start` and `__kernel_end`. */
  datatype ImageLayout = ImageLayout(kernelStart: nat, kernelEnd: nat)

  /**
   * `kernel_footprint`: the kernel image followed by one private block per
   * core, as (start, end).
   */
  function KernelFootprint(image: ImageLayout, cpuCount: nat): (r: (nat, nat))
    ensures r.0 == image.kernelStart && r.1 == CpuBlock(image, cpuCount).base
    ensures cpuCount > 0 ==> r.1 == CpuBlock(image, cpuCount - 1).End()
  {
    (image.kernelStart, image.kernelEnd + cpuCount * PHYS_MEM_PER_CPU)
  }

  /** The private block of core `cpu`. */
  function CpuBlock(image: ImageLayout, cpu: nat): RamArea
  {
    RamArea(image.kernelEnd + cpu * PHYS_MEM_PER_CPU, PHYS_MEM_PER_CPU)
  }

  /**
   * The footprint reserves the image and every core's private block, and the
   * blocks of different cores do not overlap.
   */
  lemma FootprintHoldsCpuBlocks(image: ImageLayout, cpuCount: nat, cpu: nat, other: nat)
    requires image.kernelStart <= image.kernelEnd
    requires cpu < cpuCount && other < cpuCount && cpu != other
    ensures var (start, end) := KernelFootprint(image, cpuCount);
            && start <= image.kernelEnd <= CpuBlock(image, cpu).base
            && CpuBlock(image, cpu).End() <= end
    ensures CpuBlock(image, cpu).End() <= CpuBlock(image, other).base ||
            CpuBlock(image, other).End() <= CpuBlock(image, cpu).base
  {
    if cpu < other {
      assert (cpu + 1) * PHYS_MEM_PER_CPU <= other * PHYS_MEM_PER_CPU;
    } else {
      assert (other + 1) * PHYS_MEM_PER_CPU <= cpu * PHYS_MEM_PER_CPU;
    }
    assert (cpu + 1) * PHYS_MEM_PER_CPU <= cpuCount * PHYS_MEM_PER_CPU;
  }

  /**
   * `available_ram`: an iterator over the RAM block that skips the kernel
   * footprint. The core count and the RAM block come from the device tree,
   * which is not part of this model: either lookup may fail.
   */
  method AvailableRam(image: ImageLayout, cpuCount: Option<nat>, ram: Option<RamArea>) returns (iter: Option<RamAreaIter>)
    requires image.kernelStart <= image.kernelEnd
    ensures iter.None? <==> cpuCount.None? || ram.None?
    ensures iter.Some? ==>
              && fresh(iter.value)
              && iter.value.totalArea == ram.value
              && iter.value.kernelArea.base == KernelFootprint(image, cpuCount.value).0
              && iter.value.kernelArea.End() == KernelFootprint(image, cpuCount.value).1
              && iter.value.pos == ram.value.base
  {
    if cpuCount.None? {
      return None;
    }
    var (start, end) := KernelFootprint(image, cpuCount.value);
    var size := end - start;
    if ram.None? {
      return None;
    }
    var it := new RamAreaIter(ram.value, RamArea(start, size), ram.value.base);
    return Some(it);
  }

  /** Permissions a PMP region can grant. */
  datatype AccessPermissions = Read | ReadWrite | ReadExecute | NoAccess

  const PHYS_PMP_MAX_REGIONS: nat := 15
  const PHYS_PMP_READ: Word := 1 << 0
  const PHYS_PMP_WRITE: Word := 1 << 1
  const PHYS_PMP_EXEC: Word := 1 << 2
  const PHYS_PMP_TOR: Word := 1 << 3

  /** The configuration byte `protect` writes: top-of-range matching plus the permission bits. */
  function AccessBits(access: AccessPermissions): (r: Word)
    ensures r & PHYS_PMP_TOR != 0 && r <= 0xF
  {
    PHYS_PMP_TOR | match access
      case Read => PHYS_PMP_READ
      case ReadWrite => PHYS_PMP_READ | PHYS_PMP_WRITE
      case ReadExecute => PHYS_PMP_READ | PHYS_PMP_EXEC
      case NoAccess => 0
  }

  /**
   * The byte reads as section 3.6.1 defines a pmpNcfg field: A (bits 4:3) is
   * TOR, R, W and X grant exactly the permission asked for, and L (bit 7)
   * stays clear.
   */
  lemma AccessBitsMeaning(access: AccessPermissions)
    ensures AccessBits(access) <= 0xFF && !BitSet(AccessBits(access), 7)
    ensures (AccessBits(access) >> 3) & 0x3 == 1
    ensures BitSet(AccessBits(access), 0) <==> access != NoAccess
    ensures BitSet(AccessBits(access), 1) <==> access == ReadWrite
    ensures BitSet(AccessBits(access), 2) <==> access == ReadExecute
  {
  }

  /** On RV64 the even pmpcfg registers hold eight configuration bytes each: region `id` is in pmpcfg(id / 8 * 2). */
  function CfgRegister(regionid: nat): nat
  {
    (regionid / 8) * 2
  }

  /** The byte of region `id` in its pmpcfg register. */
  function CfgByte(regionid: nat): nat
  {
    regionid % 8
  }

  /** The bit position of region `id`'s byte in its pmpcfg register: eight bits per byte. */
  function CfgShift(regionid: nat): (s: BitIndex)
    ensures s <= 56
    ensures s as int == 8 * (regionid % 8)
  {
    match CfgByte(regionid)
    case 0 => 0
    case 1 => 8
    case 2 => 16
    case 3 => 24
    case 4 => 32
    case 5 => 40
    case 6 => 48
    case _ => 56
  }

  /** `v` with the byte at bit position `s` replaced by `b`: clear the byte under the mask `0xFF << s`, then or in `b`. */
  function SetByte(v: Word, s: BitIndex, b: Word): Word
  {
    (v & !(0xFF << s)) | (b << s)
  }

  lemma ShiftedByteOutsideMask(s: BitIndex, b: Word)
    requires b <= 0xFF
    ensures (b << s) & !(0xFF << s) == 0
  {
  }

  lemma MaskedOr(x: Word, y: Word, m: Word)
    requires y & m == 0
    ensures ((x & m) | y) & m == x & m
  {
  }

  /** Replacing a byte reads it back and keeps every bit outside it. */
  lemma SetByteEffect(v: Word, s: BitIndex, b: Word)
    requires s <= 56 && b <= 0xFF
    ensures (SetByte(v, s, b) >> s) & 0xFF == b
    ensures SetByte(v, s, b) & !(0xFF << s) == v & !(0xFF << s)
  {
    ShiftedByteOutsideMask(s, b);
    MaskedOr(v, b << s, !(0xFF << s));
  }

  /**
   * Which registers `protect` touches for an accepted region: pmpcfg0 or
   * pmpcfg2, at the byte of entry pmp`id`cfg, and the address pair
   * pmpaddr(2 id), pmpaddr(2 id + 1), which exists only for regions 0 to 7.
   */
  lemma ProtectTargets(regionid: nat)
    requires regionid <= PHYS_PMP_MAX_REGIONS
    ensures CfgRegister(regionid) == 0 || CfgRegister(regionid) == 2
    ensures 4 * CfgRegister(regionid) + CfgByte(regionid) == regionid
    ensures 2 * regionid + 1 <= 15 <==> regionid <= 7
  {
  }

  /** `read_pmpcfg` on RV64: pmpcfg0 and pmpcfg2 exist; any other number reads 0. */
  function ReadPmpCfg(csrs: CsrFile, register: nat): (v: Word)
    reads csrs
    ensures register == 0 ==> v == csrs.Read(PmpCfg(0))
    ensures register == 2 ==> v == csrs.Read(PmpCfg(2))
    ensures register != 0 && register != 2 ==> v == 0
  {
    if register == 0 || register == 2 then csrs.Read(PmpCfg(register)) else 0
  }

  /** `write_pmpcfg` on RV64: a write to a pmpcfg register other than 0 and 2 is dropped. */
  method WritePmpCfg(csrs: CsrFile, register: nat, value: Word)
    modifies csrs
    ensures csrs.regs == if register == 0 || register == 2 then old(csrs.regs)[PmpCfg(register) := value] else old(csrs.regs)
  {
    if register == 0 || register == 2 {
      csrs.Write(PmpCfg(register), value);
    }
  }

  /** `write_pmpaddr`: pmpaddr0 to pmpaddr15 exist; a write to any other number is dropped. */
  method WritePmpAddr(csrs: CsrFile, register: nat, value: Word)
    modifies csrs
    ensures csrs.regs == if register <= 15 then old(csrs.regs)[PmpAddr(register) := value] else old(csrs.regs)
  {
    if register <= 15 {
      csrs.Write(PmpAddr(register), value);
    }
  }

  /** The CSR file after an accepted `protect` of region `id`. */
  function Protected(regs: map<Csr, Word>, cfg: Word, regionid: nat, base: Word, end: Word, access: AccessPermissions): map<Csr, Word>
  {
    var withCfg := regs[PmpCfg(CfgRegister(regionid)) := SetByte(cfg, CfgShift(regionid), AccessBits(access))];
    var withBase := if 2 * regionid <= 15 then withCfg[PmpAddr(2 * regionid) := base] else withCfg;
    if 2 * regionid + 1 <= 15 then withBase[PmpAddr(2 * regionid + 1) := end] else withBase
  }

  /**
   * `protect`: program region `regionid` with top-of-range matching and the
   * given permissions. Regions above 15 are refused and change nothing.
   */
  method Protect(csrs: CsrFile, regionid: nat, base: Word, end: Word, access: AccessPermissions) returns (ok: bool)
    modifies csrs
    ensures ok <==> regionid <= PHYS_PMP_MAX_REGIONS
    ensures !ok ==> csrs.regs == old(csrs.regs)
    ensures ok ==> csrs.regs == Protected(old(csrs.regs), old(csrs.Read(PmpCfg(CfgRegister(regionid)))), regionid, base, end, access)
  {
    if regionid > PHYS_PMP_MAX_REGIONS {
      return false;
    }

    var accessbits := AccessBits(access);
    var pmpcfgReg := CfgRegister(regionid);
    var shift := CfgShift(regionid);

    ProtectTargets(regionid);
    var current := ReadPmpCfg(csrs, pmpcfgReg);
    WritePmpCfg(csrs, pmpcfgReg, SetByte(current, shift, accessbits));

    WritePmpAddr(csrs, 2 * regionid, base);
    WritePmpAddr(csrs, 2 * regionid + 1, end);

    return true;
  }
}
