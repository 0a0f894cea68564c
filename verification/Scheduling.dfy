/** The round-robin order of schedule. */
module Scheduling {
  import opened KernelState

  predicate Runnable(procs: seq<Proc>, i: nat) {
    i < NPROC && |procs| == NPROC && procs[i].state == P_RUNNABLE
  }

  /** How many places after `cur` the process `i` comes in cyclic order; `cur` itself comes last. */
  function Ahead(cur: nat, i: nat): (d: nat)
    requires cur < NPROC
    ensures i < NPROC ==> 1 <= d <= NPROC && (cur + d) % NPROC == i
  {
    if i > cur then i - cur else i + NPROC - cur
  }

  /** `next` is the first runnable process after `cur` in cyclic order. */
  ghost predicate Picks(procs: seq<Proc>, cur: nat, next: nat) {
    && cur < NPROC && Runnable(procs, next)
    && forall i :: Runnable(procs, i) ==> Ahead(cur, next) <= Ahead(cur, i)
  }

  predicate NoneRunnable(procs: seq<Proc>) {
    forall i :: 0 <= i < NPROC ==> !Runnable(procs, i)
  }

  lemma {:induction false} PicksOne(procs: seq<Proc>, cur: nat, next: nat, next': nat)
    requires Picks(procs, cur, next) && Picks(procs, cur, next')
    ensures next == next'
  {
    assert Ahead(cur, next) == Ahead(cur, next');
  }

  /** The processes as they are at each call to schedule, and who is current
      before and after it. */
  ghost predicate Schedules(at: seq<seq<Proc>>, who: seq<nat>) {
    |who| == |at| + 1 && forall n :: 0 <= n < |at| ==> Picks(at[n], who[n], who[n + 1])
  }

  /** No process starves: one that is runnable at every call is chosen within as
      many calls as it is places behind the current process, at most NPROC. */
  lemma {:induction false} NoStarvation(at: seq<seq<Proc>>, who: seq<nat>, q: nat)
    requires Schedules(at, who) && who[0] < NPROC && q < NPROC && |at| >= Ahead(who[0], q)
    requires forall n :: 0 <= n < |at| ==> Runnable(at[n], q)
    ensures 1 <= Ahead(who[0], q) <= NPROC
    ensures exists n :: 1 <= n <= Ahead(who[0], q) && who[n] == q
    decreases |at|
  {
    assert Picks(at[0], who[0], who[1]);
    if who[1] != q {
      assert Runnable(at[0], q);
      assert Ahead(who[1], q) == Ahead(who[0], q) - Ahead(who[0], who[1]);
      assert Schedules(at[1..], who[1..]) by {
        forall n | 0 <= n < |at| - 1 ensures Picks(at[1..][n], who[1..][n], who[1..][n + 1]) {
          assert Picks(at[n + 1], who[n + 1], who[n + 2]);
        }
      }
      NoStarvation(at[1..], who[1..], q);
      var n :| 1 <= n <= Ahead(who[1], q) && who[1..][n] == q;
      assert who[n + 1] == q;
    }
  }

  /** While a process waits, no other is chosen twice. */
  lemma {:induction false} NoOneTwice(at: seq<seq<Proc>>, who: seq<nat>, q: nat, r: nat, j: nat, k: nat)
    requires Schedules(at, who) && q < NPROC && 1 <= j < k <= |at| && who[j] == r && who[k] == r && who[0] < NPROC
    requires forall n :: 0 <= n < |at| ==> Runnable(at[n], q)
    ensures exists n :: j <= n <= k && who[n] == q
    decreases k - j
  {
    if r != q && forall n :: j <= n <= k ==> who[n] != q {
      Approaches(at, who, q, j, k);
    }
  }

  /** Every call that does not choose `q` brings its turn nearer. */
  lemma {:induction false} Approaches(at: seq<seq<Proc>>, who: seq<nat>, q: nat, j: nat, k: nat)
    requires Schedules(at, who) && q < NPROC && 0 <= j < k <= |at|
    requires forall n :: 0 <= n < |at| ==> Runnable(at[n], q)
    requires forall n :: j < n <= k ==> who[n] != q
    ensures who[j] < NPROC && who[k] < NPROC && Ahead(who[k], q) < Ahead(who[j], q)
    decreases k - j
  {
    assert Picks(at[j], who[j], who[j + 1]);
    assert Runnable(at[j], q);
    if j + 1 < k { Approaches(at, who, q, j + 1, k); }
  }
}
