# diosix RISC-V platform layer, modelled in Dafny

diosix is a small hypervisor for RISC-V. Its platform layer is the code that
touches the hardware directly. This project models that layer for a 64-bit
(RV64) build:

- `cpu.dfy`: blank supervisor states, privilege checks against `misa`, the
  previous privilege level held in `mstatus.MPP`, and the human-readable CPU
  description ("RV64IMAFDC (Rocket)").
- `irq.dfy`: decoding `mcause` into an exception or interrupt with a cause
  and a severity (`dispatch`), and acknowledging interrupts by clearing
  their `mip` bit.
- `syscalls.dfy`: the SBI base-extension environment call handler, which
  answers through the a0/a1 registers of the saved trap context.
- `mmu.dfy`: translating a supervisor address to a physical one through
  `satp`. The page-table walkers are stubs that fail.
- `instructions.dfy`: emulating `rdtime`, the instruction fetch through
  `mepc`, and skipping the emulated instruction.
- `physmem.dfy`: cutting the one physical RAM block into areas that avoid
  the kernel footprint (`RAMAreaIter`), building that iterator
  (`available_ram`), and programming PMP regions (`protect`).
- `timer.dfy`: the per-core timer and its next-interrupt deadline.
- `errata.dfy`: the errata bitmap for a board model string.
- `test.dfy`: ending a test run through the SiFive/QEMU test finisher.

Machine-level CSRs are the class `Machine.CsrFile`. Its map from CSR name
to value is read, written and bit-cleared in place, as the `read_csr!`,
`write_csr!` and `clear_csr!` macros do. The saved trap context is a class
with a 32-slot register array, updated in place. `usize` is `bv64`, so
wrap-around happens where the source's arithmetic wraps. Physical RAM
addresses in `physmem.dfy` are `nat` (see Left out).

Hardware and firmware the code consults are parameters:

- PMP address validation is a function `Word -> Option<Word>`.
- The instruction fetch is a function from address to instruction.
- The time CSR is an `Option<Word>` (None when it cannot be read).
- The device-tree CPU count and RAM block are `Option`s.
- The timer MMIO counter is a function from CLINT base to tick count.

## Model

| member | source | states |
|---|---|---|
| Machine.ClearBitEffect | src/csr.rs:34-44 | `csrrc` with a one-bit mask clears exactly that bit and keeps every other bit |
| Machine.CsrFile.Write | src/csr.rs:22-32 | writing a CSR sets that CSR to the value and leaves every other CSR as it was |
| Machine.CsrFile.ClearBits | src/csr.rs:34-44 | clearing a mask leaves `old & !mask` in that CSR and changes no other CSR |
| Cpu.SupervisorStateFrom | src/cpu.rs:60-78 | the new state starts at the entry point with a zero stack pointer, every supervisor CSR zero and all 31 registers zero |
| Cpu.FeaturesPrivCheck | src/cpu.rs:117-129 | Hypervisor is always runnable; Supervisor needs misa.S; User needs both misa.S and misa.U |
| Cpu.FeaturesPrivCheckMonotone | src/cpu.rs:117-129 | a core that can run a less privileged level can also run every more privileged one |
| Cpu.PreviousPrivilege | src/cpu.rs:132-141 | MPP 0 gives User, 1 gives Supervisor, 2 and 3 give Hypervisor; only bits 11-12 of mstatus matter |
| Cpu.PreviousPrivilegeOfWithMpp | src/cpu.rs:132-141 | storing a level's MPP encoding into any mstatus reads back as that level |
| Cpu.ExtensionTableMatchesMisa | src/cpu.rs:151-171 | every table entry is an upper-case letter whose bit is that letter's misa bit (letter minus 'A') |
| Cpu.ExtensionTableDistinct | src/cpu.rs:151-171 | no letter appears twice in the table |
| Cpu.SelectedStep | src/cpu.rs:218-225 | the extension string of a table prefix grows by one entry's letter exactly when misa has that entry's bit |
| Cpu.SelectedMembership | src/cpu.rs:218-225 | a letter is in the extension string iff some table entry with that letter has its misa bit set |
| Cpu.SelectedDistinct | src/cpu.rs:218-225 | a table with distinct letters gives an extension string without repeats |
| Cpu.ExtensionLetters | src/cpu.rs:151-171 | a letter appears in the description iff it is in the table and misa has its bit, and no letter appears twice |
| Cpu.IsaWidth | src/cpu.rs:199-216 | the only widths that come out are 32 and 64 |
| Cpu.IsaWidthOfMisa | src/cpu.rs:211-216 | whatever the extension bits, a width field of 1 gives 32, 2 gives 64, and 0 or 3 gives no width |
| Cpu.ArchitectureName | src/cpu.rs:228-247 | marchid 0-15 map to their names in the published table; every other value gives "Unknown"; "ORCA" is exactly ids 7 and 8 |
| Cpu.Decimal | src/cpu.rs:250 | the width is printed as decimal digits that denote it, without a leading zero |
| Cpu.ExtensionString | src/cpu.rs:218-225 | the loop builds exactly the letters of the table entries whose misa bit is set, in table order |
| Cpu.Describe | src/cpu.rs:196-251 | fails iff the width field is 0 or 3; otherwise "RV" + width + extension letters + " (" + architecture + ")" |
| Cpu.MaskTest | src/cpu.rs:221 | `misa & (1 << bit) != 0` holds iff bit `bit` of misa is set |
| Irq.IrqContext.constructor | src/irq.rs:79-85 | the trap context holds the 32 saved registers it is given |
| Irq.Decode | src/irq.rs:109-137 | the match of (type, code): a decoded cause other than Unknown has exactly that (type, code) as its architectural encoding |
| Irq.DecodeEncoding | src/irq.rs:108-137 | decoding the architectural (type, code) of every known cause gives that cause back |
| Irq.EncodingOfDecode | src/irq.rs:108-137 | a (type, code) decodes to Unknown iff no known cause has that encoding, and otherwise to the cause whose encoding it is |
| Irq.FatalExactlyForLowExceptions | src/irq.rs:141-153 | an IRQ is fatal iff it is an exception with code below 8 |
| Irq.TopBitClearIffBelow | src/irq.rs:98-108 | the source's shift by `width - 1` is zero iff mcause < 2^(width-1), and it agrees with the model's per-width top-bit test, on RV32 and RV64 |
| Irq.Dispatch | src/irq.rs:94-154 | always yields an IRQ: an exception iff mcause < 2^(width-1), i.e. its top bit is clear, its cause the one the code encodes, fatal iff an exception with code below 8, pc from mepc, sp from slot 2, privilege from mstatus.MPP |
| Irq.DispatchRv64 | src/irq.rs:94-154 | the same on RV64, with the top bit as bit 63 and the code as the low 63 bits |
| Irq.MipBit | src/irq.rs:157-173 | a cause whose mip bit is cleared is an interrupt, and the bit is its interrupt code |
| Irq.MipBitIsInterruptCode | src/irq.rs:157-173 | the only causes with a mip bit are the six software, timer and external interrupts, and the bit equals their cause code |
| Irq.AcknowledgedMip | src/irq.rs:157-173 | clearing the acknowledged bit clears that bit of mip and keeps all the others |
| Irq.Acknowledge | src/irq.rs:157-173 | for those six interrupts, mip loses exactly the cause's bit; any other IRQ leaves the CSRs unchanged |
| Syscalls.ErrorCodesAreNegative | src/syscalls.rs:16-46 | the six SBI error codes read as -1 to -6 when taken as signed 64-bit values |
| Syscalls.BaseResult | src/syscalls.rs:69-88 | the probe answers 0 iff the probed extension is in the implemented list, and otherwise 1 |
| Syscalls.HandlerSpec | src/syscalls.rs:58-103 | only a0 and a1 change; base calls succeed with no action; other calls answer NOT_SUPPORTED, leave a1 alone and return an Unknown action carrying the extension and function ids |
| Syscalls.HandlerAnswers | src/syscalls.rs:58-103 | a1 answers spec version 2, implementation ID 4, implementation version 1, mvendorid, marchid and mimpid; a probe answers 0 for the base extension and 1 for any other; no call asks to terminate |
| Syscalls.SetErrorCode | src/syscalls.rs:106-109 | a0 holds the code; every other register is unchanged |
| Syscalls.Success | src/syscalls.rs:112-116 | a0 holds SUCCESS and a1 the result; every other register is unchanged |
| Syscalls.Probe | src/syscalls.rs:69-88 | the search loop answers the probe in a1 with SUCCESS in a0, as BaseResult says |
| Syscalls.Handler | src/syscalls.rs:58-103 | the new registers and the returned action are those of HandlerSpec on the old registers and the machine id CSRs |
| Mmu.SatpMode | src/mmu.rs:54 | the mode field is a 4-bit value, below 16 |
| Mmu.SatpFieldsRoundTrip | src/mmu.rs:10-19 | mode and root-table PPN written into satp read back unchanged |
| Mmu.RootTableAligned | src/mmu.rs:62 | the root table address is page aligned and below 2^56 |
| Mmu.Sv39ToPhys | src/mmu.rs:90-94 | the Sv39 walker never yields an address |
| Mmu.Sv48ToPhys | src/mmu.rs:98-102 | the Sv48 walker never yields an address |
| Mmu.SupervisorAddrToPhys | src/mmu.rs:52-75 | an address translates iff translation is off (mode 0) and PMP validation accepts it, and then to the validated address |
| Mmu.SatpMode32 | src/mmu.rs:39 | on RV32 the mode is 1 iff satp bit 31 is set |
| Mmu.Sv32ToPhys | src/mmu.rs:82-86 | the Sv32 walker never yields an address |
| Mmu.SupervisorAddrToPhys32 | src/mmu.rs:37-51 | on RV32 an address translates iff bit 31 of satp is clear and PMP validation accepts it |
| Instructions.RdOf | src/instructions.rs:80 | the destination register number is below 32 |
| Instructions.RdtimeDecode | src/instructions.rs:26-29 | an instruction matches the rdtime mask iff it is `csrrs rd, time, x0` for some rd |
| Instructions.RdtimeEncode | src/instructions.rs:26-29 | `csrrs rd, time, x0` matches the mask and its rd field is rd |
| Instructions.RdtimehIsNotRdtime | src/instructions.rs:26-29 | no rdtimeh instruction is taken for rdtime |
| Instructions.FetchAddress | src/instructions.rs:41-67 | User mode cannot fetch; Hypervisor fetches at mepc if valid; Supervisor fetches at mepc's translation |
| Instructions.EmulateSpec | src/instructions.rs:38-112 | access fails when fetching fails; rdtime with readable time stores it in rd and advances mepc by 4; rdtime without time cannot be emulated; everything else is illegal; registers change only for rdtime |
| Instructions.IncrementEpc | src/instructions.rs:115-119 | mepc grows by 4 (mod 2^64) and no other CSR changes |
| Instructions.CompleteRdtime | src/instructions.rs:73-87 | the time lands in rd, mepc moves on by 4 and nothing else changes |
| Instructions.Emulate | src/instructions.rs:38-112 | the result, registers and mepc are those of EmulateSpec; no CSR other than mepc changes |
| Physmem.NextStepAsWritten | src/physmem.rs:80-128 | the code as written: it stops only when the cursor starts at or past RAM's end (no re-check after the kernel skip), and a yielded area starts at or after the cursor, outside the kernel |
| Physmem.NextStep | src/physmem.rs:80-128 | a yielded area is nonempty, inside RAM, at or after the cursor, ends at or before the new cursor and is disjoint from the kernel; the cursor never moves back |
| Physmem.NextStepStopsWhenExhausted | src/physmem.rs:80-128 | the iterator stops iff all RAM from the cursor on is kernel, and once stopped stays stopped |
| Physmem.NextAsWrittenAgrees | src/physmem.rs:80-128 | when the kernel ends inside RAM, the code as written and the corrected step agree |
| Physmem.NextAsWrittenYieldsEmptyArea | src/physmem.rs:95-123 | as written, a kernel ending exactly at RAM's end yields an area of size 0 |
| Physmem.NextAsWrittenWrapsSize | src/physmem.rs:114-123 | as written, a kernel ending past RAM's end yields a size that wraps near 2^64 |
| Physmem.NextAsWrittenOverrunsRam | src/physmem.rs:101-111 | as written, a kernel above RAM yields an area that runs past RAM's end |
| Physmem.DrainSound | src/physmem.rs:80-128 | every address in a drained area is RAM outside the kernel |
| Physmem.DrainComplete | src/physmem.rs:80-128 | every RAM address outside the kernel, at or after the cursor, lies in some drained area |
| Physmem.DrainCovers | src/physmem.rs:80-128 | an address is in some drained area iff it is RAM outside the kernel at or after the cursor |
| Physmem.NextSkipsOnlyKernel | src/physmem.rs:80-128 | a free RAM address at or after the cursor that a step does not yield is still ahead of the new cursor |
| Physmem.DrainShape | src/physmem.rs:80-128 | at most two areas come out, in ascending disjoint order, each nonempty |
| Physmem.RamAreaIter.constructor | src/physmem.rs:68-73 | the iterator holds the RAM block, the kernel area and the cursor it is given |
| Physmem.RamAreaIter.Next | src/physmem.rs:80-128 | the area and new cursor are those of NextStep; the areas still to come are this one followed by those after it |
| Physmem.KernelFootprint | src/physmem.rs:198-204 | the footprint starts at the kernel image and ends where the last core's 256 KiB block ends, i.e. where core `cpuCount`'s block would begin |
| Physmem.FootprintHoldsCpuBlocks | src/physmem.rs:198-204 | the footprint covers the image and every CPU's 256 KiB block, and different CPUs' blocks do not overlap |
| Physmem.AvailableRam | src/physmem.rs:137-171 | no iterator iff the CPU count or the RAM block is missing; otherwise it covers the RAM block, starts at its base and skips the kernel footprint |
| Physmem.AccessBits | src/physmem.rs:217-223 | the access byte always selects top-of-range matching and uses only the low four bits |
| Physmem.AccessBitsMeaning | src/physmem.rs:217-223 | TOR is always set; read is set for all but NoAccess; write only for ReadWrite; execute only for ReadExecute |
| Physmem.CfgShift | src/physmem.rs:242 | the bit offset of region id's byte in its cfg register is 8 * (id mod 8), at most 56, so the byte fits in the register |
| Physmem.ShiftedByteOutsideMask | src/physmem.rs:247-249 | a byte shifted into place has no bits outside that byte's mask |
| Physmem.SetByteEffect | src/physmem.rs:247-249 | the new cfg value carries the access byte at the region's offset and keeps every other bit |
| Physmem.ProtectTargets | src/physmem.rs:231-254 | regions 0-7 use pmpcfg0 and 8-15 pmpcfg2; each region's byte is byte id mod 8; address registers 2id and 2id+1 exist only for regions 0-7 |
| Physmem.ReadPmpCfg | src/physmem.rs:281-290 | pmpcfg0 and pmpcfg2 read the value of that CSR; any other register reads 0 |
| Physmem.WritePmpCfg | src/physmem.rs:314-323 | pmpcfg0 and pmpcfg2 are written; any other register leaves the CSRs unchanged |
| Physmem.WritePmpAddr | src/physmem.rs:326-348 | pmpaddr0-15 are written; any other register leaves the CSRs unchanged |
| Physmem.Protect | src/physmem.rs:213-257 | succeeds iff the region id is at most 15; on failure nothing changes; on success the CSRs are exactly those Protected describes |
| Timer.TimerHardware.constructor | src/timer.rs:8-13 | a fresh hardware view with no targets, interrupts off and an empty log |
| Timer.TimerHardware.Now | src/timer.rs:12 | reading a counter returns its tick count and logs the read |
| Timer.TimerHardware.Target | src/timer.rs:11 | setting a CLINT's target records it and logs the write |
| Timer.TimerHardware.EnableIrq | src/timer.rs:10 | enabling the interrupt sets the flag and logs it |
| Timer.TargetFor | src/timer.rs:63 | the deadline `next` arms is never before the current count |
| Timer.TargetMonotone | src/timer.rs:61-65 | a longer wait or a later now never gives an earlier deadline |
| Timer.SlowTimerFiresNow | src/timer.rs:63 | below 1 MHz the integer tick rate is 0, so the deadline is now |
| Timer.DelayAtMostRequested | src/timer.rs:63 | the armed delay never exceeds the requested microseconds at the real tick rate |
| Timer.DelayExactForWholeMegahertz | src/timer.rs:63 | at a whole number of MHz the delay is exactly MHz times microseconds |
| Timer.Timer.Next | src/timer.rs:61-65 | reads the counter, then sets this CLINT's target to the deadline; other targets and the interrupt flag are unchanged |
| Timer.Timer.Start | src/timer.rs:51-57 | sets the target to now (fire at once), then enables the interrupt, in that order |
| Timer.New | src/timer.rs:35-48 | the getters return the frequency and CLINT base the timer was made with |
| Errata.ContainsIffOccurs | src/errata.rs:29 | the recursive substring search finds the needle iff it occurs at some offset |
| Errata.FromModel | src/errata.rs:24-35 | nothing is reported fixed; the known bitmap uses only the three erratum bits, and is non-zero iff the model contains "hifive-unleashed-a00" |
| Errata.KnownErrataBits | src/errata.rs:20-31 | the HiFive Unleashed bitmap is 7: bits 0-2 set and no other |
| Test.EndWord | src/test.rs:25-32 | Ok writes exactly 0x5555 whatever its payload; Err writes the fail magic 0x3333 in the low 16 bits and the error code's low 16 bits in the upper half |
| Test.FinisherDecode | src/test.rs:25-32 | a failure code seen by the host fits in 16 bits |
| Test.EndWordRoundTrip | src/test.rs:25-32 | Ok always decodes as a pass, and Err(e) as a failure with code e mod 2^16 |
| Test.PassFailDistinct | src/test.rs:29-30 | no pass word is ever read as a failure and no failure word as a pass |
| Test.TestBus.constructor | src/test.rs:35-38 | the test bus starts with no stores |
| Test.TestBus.WriteWord | src/test.rs:35-38 | one 32-bit store at the finisher address is appended |
| Test.TestBus.End | src/test.rs:25-32 | exactly one store is made, at the finisher address, of the word for the result |

## Left out

- The assembly routines (supervisor state save and load, trap entry and exit, the CLINT access primitives) are not part of this model. `Timer.TimerHardware` stands in for the three timer routines and only logs their effects.
- src/serial.rs, src/devices.rs, src/lib.rs and src/virtmem.rs are not part of this model. Neither are the device-tree parser and the PMP validation routine; their answers are inputs.
- `barrier`, `builtin_supervisor_code` and `builtin_supervisor_data` only read linker symbols or issue a fence, so they are left out. `features()` and `CPUDescription::new` only read CSRs; their values are the inputs of the members that use them.
- The stub page-table walkers print a debug line; the printing is left out.
- Concurrency is left out: each core is modelled alone, and the CSR file is not shared.
- Only the RV64 build is modelled, apart from the RV32 satp decode in `Mmu`. The build tests in `protect` and `read/write_pmpcfg` pick the RV64 formulas.
- Physmem.NextStep: addresses and sizes are `nat`, so the model cannot show the `usize` overflow of `base + size` near 2^64. The as-written wrap at line 120 is modelled on its own.
- Physmem.AvailableRam: `kernel_end - kernel_start` and `cpu_count * PHYS_MEM_PER_CPU` are taken without wrap-around, because a linker layout with the kernel end below its start cannot occur.
- Physmem.KernelFootprint: the footprint end `kernel_end + cpu_count * PHYS_MEM_PER_CPU` (src/physmem.rs:202) is a `nat` sum without wrap-around, because a device tree with enough CPUs to push it past 2^64 cannot describe real RAM.
- Mmu.RootTable32: the PPN-times-page-size product wraps in 32 bits, as a release build computes it; a debug build would panic on that overflow instead, and the model does not capture the panic.
- Irq.IrqContext: the frame slots of sp, a0, a1, a6 and a7 (x2, x10, x11, x16, x17) follow the standard RISC-V register numbering; the source's `REG_*` constants are defined outside the modelled files, so these slots are assumed.
- Machine.CsrFile: a CSR missing from the map reads as 0. WARL behaviour (fields that ignore or legalise writes) is not modelled.
- Cpu.ExtensionString takes its table as a parameter; `Cpu.Describe` always passes the source's fixed table.
- Irq.Dispatch requires an ISA width of 32 or 64. Those are the only widths the source computes. The shift by `width - 1` is written out for each of the two widths; Irq.TopBitClearIffBelow shows it agrees with the source's shift.
- Syscalls.BaseResult: the probe answer is modelled as written, 0 for an implemented extension and 1 otherwise. This is the reverse of the Probe SBI extension function of the RISC-V SBI specification v0.2, where 0 means "not available"; so an SBI v0.2 caller reads the base extension as absent and every other extension as present. The model does not promise the answer that specification requires.
- Instructions.Emulate: the RV32 `rdtimeh` branch is left out, because on RV64 `rdtimeh` is illegal and falls to the illegal-instruction case.
- Timer.Timer.Next requires the deadline to fit in 64 bits, because `u64` overflow in the source would panic in a debug build and wrap in a release build. The counter is a fixed function of the CLINT base, so two reads give the same value.
- Test.TestBus.End: the real write makes the emulator exit and never returns. The model only records the store.

## Findings

| source | as written | input that shows it | evidently intended | confidence | as-written member | corrected member |
|---|---|---|---|---|---|---|
| src/physmem.rs:95-123 | after skipping to the kernel's end, the area from there to RAM's end is yielded without checking that any RAM is left | RAM 0x8000_0000 size 0x80_0000, kernel the same, cursor 0x8000_0000: area (0x8080_0000, size 0) | stop when no RAM remains past the kernel | not executed | Physmem.NextAsWrittenYieldsEmptyArea | Physmem.NextStep |
| src/physmem.rs:114-123 | the size `ram_end - pos` wraps in `usize` when the kernel ends past RAM | RAM 0x8000_0000 size 0x80_0000, kernel 0x8000_0000 size 0x100_0000: area (0x8100_0000, size 2^64 - 0x80_0000) | yield nothing, because RAM is exhausted | not executed | Physmem.NextAsWrittenWrapsSize | Physmem.NextStep |
| src/physmem.rs:101-111 | RAM below the kernel is yielded up to the kernel's base, not clipped to RAM's end | RAM 0x8000_0000 size 0x1000, kernel 0x9000_0000 size 0x1000: area size 0x1000_0000 | clip the area to RAM's end (size 0x1000) | not executed | Physmem.NextAsWrittenOverrunsRam | Physmem.RamAreaIter.Next |
