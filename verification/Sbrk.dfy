/** The arithmetic of moving the program break, shared by the kernel's `sbrk`
    and by the allocators that call it. */
module Sbrk {
  import opened Bytes

  const PAGESIZE: nat := 4096
  const MEMSIZE_VIRTUAL: nat := 0x300000
  /** The break stays below the stack page. */
  const BREAK_LIMIT: nat := MEMSIZE_VIRTUAL - PAGESIZE

  /** `p->program_break + difference`, on 64-bit registers. */
  function NewBreak(brk: u64, difference: i64): u64 {
    Wrap64(brk + difference)
  }

  predicate Accepts(original: u64, brk: u64, difference: i64) {
    !(NewBreak(brk, difference) < original || NewBreak(brk, difference) >= BREAK_LIMIT)
  }

  /** Despite the wrap-around, a request is accepted exactly when the mathematical
      sum is a legal break, and the sign of the request is then the direction of
      the move. */
  lemma {:induction false} AcceptsExactly(original: u64, brk: u64, difference: i64)
    requires original <= brk < BREAK_LIMIT
    ensures Accepts(original, brk, difference) <==> original <= brk + difference < BREAK_LIMIT
    ensures Accepts(original, brk, difference) ==>
              && NewBreak(brk, difference) == brk + difference
              && (difference < 0 <==> NewBreak(brk, difference) < brk)
  {
    if brk + difference < 0 {
      assert NewBreak(brk, difference) == brk + difference + TWO64;
    }
  }

  /** brk(addr) asks for `addr - program_break` modulo 2^64; when that is
      accepted the break is `addr` itself. */
  lemma {:induction false} BrkReachesAddress(original: u64, brk: u64, addr: u64)
    requires original <= brk < BREAK_LIMIT
    ensures var difference := Signed64(Wrap64(addr - brk));
      && (Accepts(original, brk, difference) <==> original <= addr < BREAK_LIMIT)
      && (Accepts(original, brk, difference) ==> NewBreak(brk, difference) == addr)
  {
    var difference := Signed64(Wrap64(addr - brk));
    AcceptsExactly(original, brk, difference);
    assert NewBreak(brk, difference) == addr by {
      if addr < brk {
        assert Wrap64(addr - brk) == addr - brk + TWO64;
        assert difference == addr - brk;
      } else if addr - brk < TWO63 {
        assert difference == addr - brk;
      } else {
        assert difference == addr - brk - TWO64;
        assert (addr - TWO64) % TWO64 == addr;
      }
    }
  }
}
