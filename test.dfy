/**
 * Ending a test run (src/test.rs) through the SiFive test finisher, the MMIO
 * device that SiFive boards and QEMU's sifive_test model place at 0x100000.
 * The finisher reads a 32-bit word: its low 16 bits select pass (0x5555) or
 * fail (0x3333), and on failure its upper 16 bits are the exit code.
 */
module Test {
  import opened Wrappers

  type U32 = bv32

  const TEST_INTERFACE_MMIO_ADDR: nat := 0x100000

  const FINISHER_PASS: U32 := 0x5555
  const FINISHER_FAIL: U32 := 0x3333

  /** A test run's result: Ok with any payload, or Err with the number of the first failed test. */
  datatype TestResult = Ok(value: U32) | Err(code: U32)

  /** The word `end` writes to the finisher. */
  function EndWord(result: TestResult): (w: U32)
    ensures w & 0xFFFF == (if result.Ok? then FINISHER_PASS else FINISHER_FAIL)
    ensures result.Ok? ==> w == FINISHER_PASS
    ensures result.Err? ==> w >> 16 == result.code & 0xFFFF
  {
    match result
    case Ok(_) => FINISHER_PASS
    case Err(e) => FINISHER_FAIL | (e << 16)
  }

  /** How the host ends the run on reading a word from the finisher. */
  datatype HostExit = Pass | Fail(code: U32)

  /** The finisher's side: decode a written word, or nothing for an unknown status. */
  function FinisherDecode(word: U32): (r: Option<HostExit>)
    ensures r.Some? && r.value.Fail? ==> r.value.code < 0x1_0000
  {
    var status := word & 0xFFFF;
    if status == FINISHER_PASS then Some(Pass)
    else if status == FINISHER_FAIL then Some(Fail(word >> 16))
    else None
  }

  /**
   * Every word `end` writes makes the host stop: Ok passes whatever its
   * payload, and Err fails with the code cut to its low 16 bits, the upper
   * ones being shifted out of the 32-bit word.
   */
  lemma EndWordRoundTrip(result: TestResult)
    ensures result.Ok? ==> FinisherDecode(EndWord(result)) == Some(Pass)
    ensures result.Err? ==> FinisherDecode(EndWord(result)) == Some(Fail(result.code & 0xFFFF))
  {
  }

  /** Pass and fail words never share their low 16 bits. */
  lemma PassFailDistinct(v: U32, e: U32)
    ensures EndWord(Ok(v)) & 0xFFFF != EndWord(Err(e)) & 0xFFFF
  {
  }

  /** The bus as the test code sees it: every 32-bit store, in order, as (address, word). */
  class TestBus {
    var stores: seq<(nat, U32)>

    constructor ()
      ensures stores == []
    {
      stores := [];
    }

    /** `write_word`: one volatile 32-bit store to the finisher. */
    method WriteWord(word: U32)
      modifies this
      ensures stores == old(stores) + [(TEST_INTERFACE_MMIO_ADDR, word)]
    {
      stores := stores + [(TEST_INTERFACE_MMIO_ADDR, word)];
    }

    /** `end`: report the result to the finisher with exactly one store. */
    method End(result: TestResult)
      modifies this
      ensures stores == old(stores) + [(TEST_INTERFACE_MMIO_ADDR, EndWord(result))]
    {
      match result {
        case Ok(_) => WriteWord(0x5555);
        case Err(e) => WriteWord(0x3333 | (e << 16));
      }
    }
  }
}
