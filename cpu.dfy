/**
 * Physical CPU core management (src/cpu.rs): privilege modes, the blank
 * supervisor state, the misa feature check, the previous-privilege decode of
 * mstatus and the human-readable CPU description.
 *
 * Field layouts follow the RISC-V Privileged Architecture v1.11: misa in
 * section 3.1.1 (MXL in the top two bits, extension letter i at bit i) and the
 * MPP field of mstatus at bits 12:11 in section 3.1.6.1.
 */
module Cpu {
  import opened Wrappers
  import opened Machine

  datatype PrivilegeMode = Hypervisor | Supervisor | User

  /** misa bit that says supervisor mode is implemented */
  const CPUFEATURES_SUPERVISOR_MODE: Word := 1 << 18
  /** misa bit that says user mode is implemented */
  const CPUFEATURES_USER_MODE: Word := 1 << 20

  /** Number of general-purpose registers kept in a supervisor state (x1..x31). */
  const SAVED_REGISTERS: nat := 31

  /** The CPU state of suspended supervisor-level code. */
  datatype SupervisorState = SupervisorState(
    sstatus: Word,
    stvec: Word,
    sip: Word,
    sie: Word,
    scounteren: Word,
    sscratch: Word,
    sepc: Word,
    scause: Word,
    stval: Word,
    satp: Word,
    pc: Word,
    sp: Word,
    registers: seq<Word>)

  /** A supervisor state has exactly one slot per register x1..x31. */
  predicate WellFormed(s: SupervisorState)
  {
    |s.registers| == SAVED_REGISTERS
  }

  /** Every supervisor CSR of the state is zero. */
  predicate CsrsCleared(s: SupervisorState)
  {
    && s.sstatus == 0 && s.stvec == 0 && s.sip == 0 && s.sie == 0
    && s.scounteren == 0 && s.sscratch == 0 && s.sepc == 0
    && s.scause == 0 && s.stval == 0 && s.satp == 0
  }

  /** `supervisor_state_from`: a blank state that starts executing at `entry`. */
  function SupervisorStateFrom(entry: Word): (s: SupervisorState)
    ensures WellFormed(s)
    ensures s.pc == entry && s.sp == 0 && CsrsCleared(s)
    ensures forall i | 0 <= i < |s.registers| :: s.registers[i] == 0
  {
    SupervisorState(0, 0, 0, 0, 0, 0, 0, 0, 0, 0, entry, 0, seq(SAVED_REGISTERS, _ => 0))
  }

  /** misa bit of an extension letter: 'A' is bit 0, ..., 'Z' is bit 25. */
  function LetterBit(c: char): BitIndex
    requires 'A' <= c <= 'Z'
  {
    match c
    case 'A' => 0
    case 'B' => 1
    case 'C' => 2
    case 'D' => 3
    case 'E' => 4
    case 'F' => 5
    case 'G' => 6
    case 'H' => 7
    case 'I' => 8
    case 'J' => 9
    case 'K' => 10
    case 'L' => 11
    case 'M' => 12
    case 'N' => 13
    case 'O' => 14
    case 'P' => 15
    case 'Q' => 16
    case 'R' => 17
    case 'S' => 18
    case 'T' => 19
    case 'U' => 20
    case 'V' => 21
    case 'W' => 22
    case 'X' => 23
    case 'Y' => 24
    case 'Z' => 25
  }

  /** The extension with letter `c` is implemented according to `misa`. */
  predicate HasExtension(misa: Word, c: char)
    requires 'A' <= c <= 'Z'
  {
    BitSet(misa, LetterBit(c))
  }

  /**
   * `features_priv_check`: machine mode is always available; supervisor mode
   * needs the S extension; user mode needs both S and U.
   */
  function FeaturesPrivCheck(required: PrivilegeMode, misa: Word): (r: bool)
    ensures required == Hypervisor ==> r
    ensures required == Supervisor ==> (r <==> HasExtension(misa, 'S'))
    ensures required == User ==> (r <==> HasExtension(misa, 'S') && HasExtension(misa, 'U'))
  {
    var supervisor := misa & CPUFEATURES_SUPERVISOR_MODE != 0;
    var user := misa & CPUFEATURES_USER_MODE != 0;
    match required
    case Hypervisor => true
    case Supervisor => supervisor
    case User => supervisor && user
  }

  /** Privilege levels ordered from least (User) to most (Hypervisor) privileged. */
  function Rank(p: PrivilegeMode): nat
  {
    match p
    case User => 0
    case Supervisor => 1
    case Hypervisor => 2
  }

  /** A core that can run some privilege level can also run every more privileged one. */
  lemma FeaturesPrivCheckMonotone(misa: Word, p: PrivilegeMode, q: PrivilegeMode)
    requires Rank(p) <= Rank(q) && FeaturesPrivCheck(p, misa)
    ensures FeaturesPrivCheck(q, misa)
  {
  }

  /** The formatter's test `misa & (1 << bit) != 0`; it agrees with `BitSet`. */
  function MaskTest(v: Word, i: BitIndex): (r: bool)
    ensures r <==> BitSet(v, i)
  {
    v & (1 << i) != 0
  }

  /** The MPP field (bits 12:11) of mstatus. */
  function Mpp(mstatus: Word): Word
  {
    (mstatus >> 11) & 0x3
  }

  /** `previous_privilege`: decode MPP; 0 is User, 1 Supervisor, 2 and 3 Hypervisor. */
  function PreviousPrivilege(mstatus: Word): (p: PrivilegeMode)
    ensures p == User <==> Mpp(mstatus) == 0
    ensures p == Supervisor <==> Mpp(mstatus) == 1
    ensures p == Hypervisor <==> Mpp(mstatus) >= 2
  {
    var mpp := (mstatus >> 11) & 0x3;
    if mpp == 0 then User
    else if mpp == 1 then Supervisor
    else Hypervisor
  }

  /** The MPP encoding of a privilege level: U = 0, S = 1, M = 3. */
  function MppEncoding(p: PrivilegeMode): Word
  {
    match p
    case User => 0
    case Supervisor => 1
    case Hypervisor => 3
  }

  /** mstatus with its MPP field set to the encoding of `p`, every other bit kept. */
  function WithMpp(mstatus: Word, p: PrivilegeMode): Word
  {
    (mstatus & !(0x3 << 11)) | (MppEncoding(p) << 11)
  }

  /** Decoding MPP after storing a privilege level gives that level back. */
  lemma PreviousPrivilegeOfWithMpp(mstatus: Word, p: PrivilegeMode)
    ensures PreviousPrivilege(WithMpp(mstatus, p)) == p
    ensures WithMpp(mstatus, p) & !(0x3 << 11) == mstatus & !(0x3 << 11)
  {
  }

  /** `CPUExtension`: an extension's misa bit and its letter. */
  datatype CpuExtension = CpuExtension(bit: BitIndex, initial: char)

  /** `EXTENSIONS`: the extensions in the conventional order of ISA strings. */
  function Extensions(): seq<CpuExtension> { [
    CpuExtension(8, 'I'), CpuExtension(4, 'E'), CpuExtension(12, 'M'),
    CpuExtension(0, 'A'), CpuExtension(5, 'F'), CpuExtension(3, 'D'),
    CpuExtension(6, 'G'), CpuExtension(16, 'Q'), CpuExtension(11, 'L'),
    CpuExtension(2, 'C'), CpuExtension(1, 'B'), CpuExtension(9, 'J'),
    CpuExtension(19, 'T'), CpuExtension(15, 'P'), CpuExtension(21, 'V'),
    CpuExtension(13, 'N'), CpuExtension(7, 'H'), CpuExtension(25, 'Z')
  ] }

  /** Every table entry sits at the misa bit its letter names. */
  lemma ExtensionTableMatchesMisa(i: nat)
    requires i < |Extensions()|
    ensures 'A' <= Extensions()[i].initial <= 'Z'
    ensures Extensions()[i].bit == LetterBit(Extensions()[i].initial)
  {
  }

  /** No letter appears twice in the table. */
  lemma ExtensionTableDistinct()
    ensures forall i, j | 0 <= i < j < |Extensions()| :: Extensions()[i].initial != Extensions()[j].initial
  {
  }

  /** The letters of the extensions of `exts` whose misa bit is set, in table order. */
  function Selected(misa: Word, exts: seq<CpuExtension>): string
  {
    if exts == [] then ""
    else
      var last := exts[|exts| - 1];
      Selected(misa, exts[..|exts| - 1]) + (if BitSet(misa, last.bit) then [last.initial] else "")
  }

  /** Selecting from one more table entry appends that entry's letter when its bit is set. */
  lemma SelectedStep(misa: Word, exts: seq<CpuExtension>, i: nat)
    requires i < |exts|
    ensures Selected(misa, exts[..i + 1]) ==
            Selected(misa, exts[..i]) + (if BitSet(misa, exts[i].bit) then [exts[i].initial] else "")
  {
    assert exts[..i + 1][..i] == exts[..i];
  }

  /** A letter is selected exactly when some entry with that letter has its bit set. */
  lemma {:induction false} SelectedMembership(misa: Word, exts: seq<CpuExtension>, c: char)
    ensures c in Selected(misa, exts) <==>
            exists i :: 0 <= i < |exts| && exts[i].initial == c && BitSet(misa, exts[i].bit)
  {
    if exts != [] {
      var n := |exts| - 1;
      SelectedMembership(misa, exts[..n], c);
      if c in Selected(misa, exts) && c !in Selected(misa, exts[..n]) {
        assert exts[n].initial == c && BitSet(misa, exts[n].bit);
      }
      if exists i :: 0 <= i < |exts| && exts[i].initial == c && BitSet(misa, exts[i].bit) {
        var i :| 0 <= i < |exts| && exts[i].initial == c && BitSet(misa, exts[i].bit);
        if i < n {
          assert exts[..n][i] == exts[i];
        }
      }
    }
  }

  /** Selecting from a table without repeated letters yields no repeated letter. */
  lemma {:induction false} SelectedDistinct(misa: Word, exts: seq<CpuExtension>)
    requires forall i, j | 0 <= i < j < |exts| :: exts[i].initial != exts[j].initial
    ensures var s := Selected(misa, exts); forall i, j | 0 <= i < j < |s| :: s[i] != s[j]
    ensures |Selected(misa, exts)| <= |exts|
  {
    if exts != [] {
      var n := |exts| - 1;
      var prefix := Selected(misa, exts[..n]);
      SelectedDistinct(misa, exts[..n]);
      if BitSet(misa, exts[n].bit) {
        SelectedMembership(misa, exts[..n], exts[n].initial);
      }
    }
  }

  /**
   * The extension part of the description names exactly the implemented
   * extensions among those of the table, each once.
   */
  lemma ExtensionLetters(misa: Word, c: char)
    ensures var s := Selected(misa, Extensions());
            && (c in s <==> (exists i :: 0 <= i < |Extensions()| && Extensions()[i].initial == c)
                            && 'A' <= c <= 'Z' && HasExtension(misa, c))
            && (forall i, j | 0 <= i < j < |s| :: s[i] != s[j])
  {
    SelectedMembership(misa, Extensions(), c);
    ExtensionTableDistinct();
    SelectedDistinct(misa, Extensions());
    if exists i :: 0 <= i < |Extensions()| && Extensions()[i].initial == c {
      var i :| 0 <= i < |Extensions()| && Extensions()[i].initial == c;
      ExtensionTableMatchesMisa(i);
    }
  }

  /** MXL of misa: 1 for a 32-bit and 2 for a 64-bit ISA; anything else is a formatting error. */
  function IsaWidth(misa: Word): (w: Option<nat>)
    ensures w.Some? ==> w.value == 32 || w.value == 64
  {
    var mxl := misa >> 62;
    if mxl == 1 then Some(32)
    else if mxl == 2 then Some(64)
    else None
  }

  /** misa built from an MXL value and a set of extension bits (bits 25:0). */
  function MisaOf(mxl: Word, extensions: Word): Word
    requires mxl < 4 && extensions < 1 << 26
  {
    (mxl << 62) | extensions
  }

  /** The width decode reads MXL alone: 1 means RV32, 2 means RV64, 3 (RV128) and 0 are refused. */
  lemma IsaWidthOfMisa(mxl: Word, extensions: Word)
    requires mxl < 4 && extensions < 1 << 26
    ensures IsaWidth(MisaOf(mxl, extensions)) ==
            if mxl == 1 then Some(32) else if mxl == 2 then Some(64) else None
  {
    assert MisaOf(mxl, extensions) >> 62 == mxl;
  }

  /** Architecture names of the marchid values 0 to 15, as the RISC-V marchid registry lists them. */
  const ARCHITECTURES: seq<string> := [
    "Qemu/Unknown", "Rocket", "BOOM", "Ariane", "RI5CY", "Spike", "E-Class", "ORCA",
    "ORCA", "YARVI", "RVBS", "SweRV EH1", "MSCC", "BlackParrot", "BaseJump Manycore", "C-Class"
  ]

  /** The architecture name of a marchid value. */
  function ArchitectureName(marchid: Word): (name: string)
    ensures marchid < 16 ==> name == ARCHITECTURES[marchid as int]
    ensures marchid >= 16 ==> name == "Unknown"
    ensures name == "ORCA" <==> marchid == 7 || marchid == 8
  {
    if marchid == 0 then "Qemu/Unknown"
    else if marchid == 1 then "Rocket"
    else if marchid == 2 then "BOOM"
    else if marchid == 3 then "Ariane"
    else if marchid == 4 then "RI5CY"
    else if marchid == 5 then "Spike"
    else if marchid == 6 then "E-Class"
    else if marchid == 7 then "ORCA"
    else if marchid == 8 then "ORCA"
    else if marchid == 9 then "YARVI"
    else if marchid == 10 then "RVBS"
    else if marchid == 11 then "SweRV EH1"
    else if marchid == 12 then "MSCC"
    else if marchid == 13 then "BlackParrot"
    else if marchid == 14 then "BaseJump Manycore"
    else if marchid == 15 then "C-Class"
    else "Unknown"
  }

  /** The number a string of decimal digits denotes, most significant digit first. */
  function DigitsValue(s: string): nat
    requires forall i | 0 <= i < |s| :: '0' <= s[i] <= '9'
  {
    if |s| == 0 then 0 else 10 * DigitsValue(s[..|s| - 1]) + (s[|s| - 1] - '0') as nat
  }

  /**
   * Decimal digits of a natural number, as Rust's `{}` prints an integer: the
   * digits denote `n`, and there is no leading zero except in "0" itself.
   */
  function Decimal(n: nat): (s: string)
    ensures |s| >= 1
    ensures forall i | 0 <= i < |s| :: '0' <= s[i] <= '9'
    ensures DigitsValue(s) == n
    ensures s[0] == '0' ==> s == "0"
  {
    var digit := ['0' + (n % 10) as char];
    if n < 10 then digit else Decimal(n / 10) + digit
  }

  /** `CPUDescription`: the misa and marchid values read when it was created. */
  datatype CpuDescription = CpuDescription(misa: Word, marchid: Word)

  /**
   * The extension loop of the formatter: one letter pushed per entry of
   * `table` whose misa bit is set (the formatter passes `Extensions()`).
   */
  method ExtensionString(misa: Word, table: seq<CpuExtension>) returns (extensions: string)
    ensures extensions == Selected(misa, table)
  {
    extensions := "";
    for i := 0 to |table|
      invariant extensions == Selected(misa, table[..i])
    {
      var ext := table[i];
      SelectedStep(misa, table, i);
      if MaskTest(misa, ext.bit) {
        extensions := extensions + [ext.initial];
      }
    }
    assert table[..|table|] == table;
  }

  /**
   * The `Debug` formatter of `CPUDescription`: "RV", the ISA width, the letters
   * of the implemented extensions and the architecture name in parentheses;
   * None where the formatter returns `fmt::Error`.
   */
  method Describe(d: CpuDescription) returns (r: Option<string>)
    ensures r.None? <==> IsaWidth(d.misa).None?
    ensures r.Some? ==>
              r.value == "RV" + Decimal(IsaWidth(d.misa).value) + Selected(d.misa, Extensions())
                         + " (" + ArchitectureName(d.marchid) + ")"
  {
    var isa := IsaWidth(d.misa);
    if isa.None? {
      return None;
    }
    var extensions := ExtensionString(d.misa, Extensions());
    var architecture := ArchitectureName(d.marchid);
    r := Some("RV" + Decimal(isa.value) + extensions + " (" + architecture + ")");
  }


}
