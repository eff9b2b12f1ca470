/** Whole runs of the round-robin scheduler. */
module SchedRuns {
  import opened Seqs
  import opened Threads
  import opened SchedModel

  // ---- start -----------------------------------------------------------------------------

  /** Threads before the scheduler runs: valid priorities and processes. */
  predicate Bootable(threads: seq<Thread>, pageDirs: seq<nat>) {
    && threads != []
    && forall t | 0 <= t < |threads| :: threads[t].priority < LEVELS && threads[t].proc < |pageDirs|
  }

  /** `rr_enqueue` of the first `n` threads, in order: full quantum, back of the queue. */
  function Enqueued(threads: seq<Thread>, n: nat): (r: (seq<seq<nat>>, seq<Thread>))
    requires n <= |threads| && forall t | 0 <= t < |threads| :: threads[t].priority < LEVELS
    ensures |r.0| == LEVELS && |r.1| == |threads|
    ensures forall t | 0 <= t < |threads| ::
              r.1[t] == if t < n then threads[t].(quantum := Quantum(threads[t].priority), ready := true)
                  else threads[t]
  {
    if n == 0 then (seq(LEVELS, _ => []), threads) else
    var (queues, ths) := Enqueued(threads, n - 1);
    var ths' := ths[n - 1 := ths[n - 1].(quantum := Quantum(ths[n - 1].priority))];
    (Enqueue(queues, ths', n - 1), MarkReady(ths', n - 1))
  }

  /** The threads below `n` of priority `p`, in order. */
  function ClassOf(threads: seq<Thread>, p: nat, n: nat): (c: seq<nat>)
    requires n <= |threads|
    ensures forall i | 0 <= i < |c| :: c[i] < n && threads[c[i]].priority == p
    ensures forall t | 0 <= t < n && threads[t].priority == p :: t in c
    ensures NoDup(c)
  {
    if n == 0 then [] else
    var c := ClassOf(threads, p, n - 1);
    if threads[n - 1].priority == p then c + [n - 1] else c
  }

  lemma {:induction false} EnqueuedQueues(threads: seq<Thread>, n: nat, p: nat)
    requires n <= |threads| && p < LEVELS && forall t | 0 <= t < |threads| :: threads[t].priority < LEVELS
    ensures Enqueued(threads, n).0[p] == ClassOf(threads, p, n)
  {
    if n > 0 { EnqueuedQueues(threads, n - 1, p); }
  }

  /** The best priority that some thread has. */
  function BestClass(threads: seq<Thread>): nat
    requires forall t | 0 <= t < |threads| :: threads[t].priority < LEVELS
  {
    FirstReady(Enqueued(threads, |threads|).0, 0)
  }

  lemma BestClassMeaning(threads: seq<Thread>, pageDirs: seq<nat>)
    requires Bootable(threads, pageDirs)
    ensures BestClass(threads) < LEVELS
    ensures exists t :: 0 <= t < |threads| && threads[t].priority == BestClass(threads)
    ensures forall t | 0 <= t < |threads| :: threads[t].priority >= BestClass(threads)
  {
    var queues, b := Enqueued(threads, |threads|).0, BestClass(threads);
    forall t | 0 <= t < |threads| ensures queues[threads[t].priority] != [] && threads[t].priority >= b {
      EnqueuedQueues(threads, |threads|, threads[t].priority);
      assert t in ClassOf(threads, threads[t].priority, |threads|);
    }
    assert queues[threads[0].priority] != [];
    EnqueuedQueues(threads, |threads|, b);
    assert threads[queues[b][0]].priority == b;
  }

  /** `rr_init`. */
  function Init(threads: seq<Thread>, pageDirs: seq<nat>): Sched
    requires Bootable(threads, pageDirs)
  {
    BestClassMeaning(threads, pageDirs);
    var (queues, ths) := Enqueued(threads, |threads|);
    var p := FirstReady(queues, 0);
    EnqueuedQueues(threads, |threads|, p);
    var t := queues[p][0];
    var proc := ths[t].proc;
    Sched(Pop(queues, p), ths, t, pageDirs[proc], proc)
  }

  /** The parts of the initial state, and that the choice exists. */
  lemma InitShape(threads: seq<Thread>, pageDirs: seq<nat>, queues: seq<seq<nat>>, ths: seq<Thread>)
    requires Bootable(threads, pageDirs) && (queues, ths) == Enqueued(threads, |threads|)
    ensures |queues| == LEVELS && FirstReady(queues, 0) < LEVELS && |ths| == |threads|
    ensures var q := queues[FirstReady(queues, 0)]; q != [] && q[0] < |ths| && ths[q[0]].proc < |pageDirs|
  {
    BestClassMeaning(threads, pageDirs);
    EnqueuedQueues(threads, |threads|, FirstReady(queues, 0));
  }

  /** The state that `rr_init` leaves, told from the queues before the first thread is taken. */
  lemma InitIs(threads: seq<Thread>, pageDirs: seq<nat>, queues: seq<seq<nat>>, s: Sched)
    requires Bootable(threads, pageDirs) && (queues, s.threads) == Enqueued(threads, |threads|)
    requires |queues| == LEVELS && FirstReady(queues, 0) < LEVELS && queues[FirstReady(queues, 0)] != []
    requires s.queues == Pop(queues, FirstReady(queues, 0)) && s.current == queues[FirstReady(queues, 0)][0]
    requires s.current < |s.threads| && s.proc == s.threads[s.current].proc < |pageDirs| && s.cr3 == pageDirs[s.proc]
    ensures s == Init(threads, pageDirs)
  {
    InitShape(threads, pageDirs, queues, s.threads);
  }

  lemma EnqueuedAll(threads: seq<Thread>, pageDirs: seq<nat>)
    requires Bootable(threads, pageDirs)
    ensures var (queues, ths) := Enqueued(threads, |threads|);
            Queues(queues, ths) && forall t | 0 <= t < |ths| :: Waiting(queues, ths, t)
  {
    var (queues, ths) := Enqueued(threads, |threads|);
    forall p | 0 <= p < LEVELS ensures QueueOk(queues, ths, p) { EnqueuedQueues(threads, |threads|, p); }
    forall t | 0 <= t < |ths| ensures Waiting(queues, ths, t) {
      EnqueuedQueues(threads, |threads|, threads[t].priority);
    }
  }

  /** Taking the head of the best queue while every thread waits establishes the invariant. */
  lemma FirstPick(queues: seq<seq<nat>>, ths: seq<Thread>, b: nat, pageDirs: seq<nat>, s: Sched)
    requires Queues(queues, ths) && (forall t | 0 <= t < |ths| :: Waiting(queues, ths, t) && ths[t].proc < |pageDirs|)
    requires b < LEVELS && queues[b] != [] && (forall p | 0 <= p < b :: queues[p] == [])
    requires s.queues == Pop(queues, b) && s.threads == ths && s.current == queues[b][0] && s.current < |ths|
    requires s.proc == ths[s.current].proc && s.cr3 == pageDirs[s.proc]
    ensures Inv(s, pageDirs)
  {
    assert QueueOk(queues, ths, b) && queues[b][0] in queues[b];
    RotatedQueue(queues[b], ths, b);
    forall p | 0 <= p < LEVELS ensures QueueOk(s.queues, s.threads, p) { assert QueueOk(queues, ths, p); }
    forall t | 0 <= t < |ths| ensures if ths[t].priority == b then t in queues[b] else Waiting(queues, ths, t) {
      assert Waiting(queues, ths, t);
    }
    RotatedWaiting(Sched(queues, ths, 0, 0, 0), s, b, queues[b]);
  }

  lemma InitInv(threads: seq<Thread>, pageDirs: seq<nat>)
    requires Bootable(threads, pageDirs)
    ensures Inv(Init(threads, pageDirs), pageDirs)
  {
    BestClassMeaning(threads, pageDirs);
    EnqueuedAll(threads, pageDirs);
    EnqueuedQueues(threads, |threads|, BestClass(threads));
    var (queues, ths) := Enqueued(threads, |threads|);
    FirstPick(queues, ths, BestClass(threads), pageDirs, Init(threads, pageDirs));
  }

  // ---- runs --------------------------------------------------------------------------------

  /** State after one tick for each element of `irqs`. */
  function Run(s: Sched, pageDirs: seq<nat>, tick: nat, irqs: seq<IrqContext>): (r: Sched)
    requires Inv(s, pageDirs)
    ensures Inv(r, pageDirs) && |r.threads| == |s.threads|
  {
    if irqs == [] then s else
    var r := Run(s, pageDirs, tick, irqs[..|irqs| - 1]);
    TickInv(r, pageDirs, tick, irqs[|irqs| - 1]);
    TickContext(r, pageDirs, tick, irqs[|irqs| - 1], 0);
    Tick(r, pageDirs, tick, irqs[|irqs| - 1])
  }

  /** In every reachable state each thread is current or waits exactly once in the queue of its
      priority, nothing better than the current thread waits, and the loaded directory is the
      current thread's. */
  lemma Reachable(threads: seq<Thread>, pageDirs: seq<nat>, tick: nat, irqs: seq<IrqContext>)
    requires Bootable(threads, pageDirs)
    ensures Inv(Init(threads, pageDirs), pageDirs)
    ensures Inv(Run(Init(threads, pageDirs), pageDirs, tick, irqs), pageDirs)
  {
    InitInv(threads, pageDirs);
  }

  /** Once ready, a thread stays ready, and after `rr_init` all are. */
  lemma {:induction false} AllReady(threads: seq<Thread>, pageDirs: seq<nat>, tick: nat, irqs: seq<IrqContext>, t: nat)
    requires Bootable(threads, pageDirs) && t < |threads|
    ensures Inv(Init(threads, pageDirs), pageDirs)
    ensures var s := Run(Init(threads, pageDirs), pageDirs, tick, irqs);
            |s.threads| == |threads| && s.threads[t].ready
            && s.threads[t].priority == threads[t].priority && s.threads[t].proc == threads[t].proc
  {
    InitInv(threads, pageDirs);
    if irqs != [] {
      var n := |irqs| - 1;
      AllReady(threads, pageDirs, tick, irqs[..n], t);
      TickKeeps(Run(Init(threads, pageDirs), pageDirs, tick, irqs[..n]), pageDirs, tick, irqs[n], t);
    }
  }

  lemma TickKeeps(s: Sched, pageDirs: seq<nat>, tick: nat, irq: IrqContext, t: nat)
    requires Inv(s, pageDirs) && t < |s.threads| && s.threads[t].ready
    ensures var s' := Tick(s, pageDirs, tick, irq);
            && |s'.threads| == |s.threads| && s'.threads[t].ready
            && s'.threads[t].priority == s.threads[t].priority && s'.threads[t].proc == s.threads[t].proc
  {
    var c := Charge(s, tick, irq);
    ChargeInv(s, pageDirs, tick, irq);
    if c.threads[c.current].quantum == 0 { Rotate(c, pageDirs); }
  }

  // ---- saved contexts ------------------------------------------------------------------------

  /** The thread that each tick finds current. */
  function Currents(s: Sched, pageDirs: seq<nat>, tick: nat, irqs: seq<IrqContext>): seq<nat>
    requires Inv(s, pageDirs)
  {
    seq(|irqs|, i requires 0 <= i < |irqs| => Run(s, pageDirs, tick, irqs[..i]).current)
  }

  /** The contexts of thread `t` before, between and after the ticks. */
  function Contexts(s: Sched, pageDirs: seq<nat>, tick: nat, irqs: seq<IrqContext>, t: nat): seq<Context>
    requires Inv(s, pageDirs) && t < |s.threads|
  {
    seq(|irqs| + 1, i requires 0 <= i <= |irqs| => Run(s, pageDirs, tick, irqs[..i]).threads[t].context)
  }

  /** The last position of `t`, or -1. */
  function LastIndex(cs: seq<nat>, t: nat): (k: int)
    ensures -1 <= k < |cs| && (k >= 0 ==> cs[k] == t)
    ensures forall i | k < i < |cs| :: cs[i] != t
  {
    if cs == [] then -1 else if cs[|cs| - 1] == t then |cs| - 1 else LastIndex(cs[..|cs| - 1], t)
  }

  /** The last tick that found thread `t` current, or -1. */
  function LastTick(s: Sched, pageDirs: seq<nat>, tick: nat, irqs: seq<IrqContext>, t: nat): (k: int)
    requires Inv(s, pageDirs)
    ensures -1 <= k < |irqs|
  {
    LastIndex(Currents(s, pageDirs, tick, irqs), t)
  }

  /** A tick keeps every context but that of the thread it interrupts. */
  predicate SavesAt(ctxs: seq<Context>, cs: seq<nat>, irqs: seq<IrqContext>, t: nat, i: int)
    requires |ctxs| == |irqs| + 1 && |cs| == |irqs| && 0 <= i < |irqs|
  {
    ctxs[i + 1] == if t == cs[i] then UpdateContext(ctxs[i], irqs[i]) else ctxs[i]
  }

  lemma RunSaves(s: Sched, pageDirs: seq<nat>, tick: nat, irqs: seq<IrqContext>, t: nat, i: nat)
    requires Inv(s, pageDirs) && t < |s.threads| && i < |irqs|
    ensures SavesAt(Contexts(s, pageDirs, tick, irqs, t), Currents(s, pageDirs, tick, irqs), irqs, t, i)
  {
    assert irqs[..i + 1][..i] == irqs[..i];
    TickContext(Run(s, pageDirs, tick, irqs[..i]), pageDirs, tick, irqs[i], t);
  }

  /** A context overwritten by the registers of tick `k`, if there is one. */
  function Saved(c: Context, irqs: seq<IrqContext>, k: int): Context {
    if 0 <= k < |irqs| then UpdateContext(c, irqs[k]) else c
  }

  /** Of all the updates of a context only the last one shows. */
  lemma {:induction false} LastUpdateShows(ctxs: seq<Context>, cs: seq<nat>, irqs: seq<IrqContext>, t: nat, n: nat)
    requires |ctxs| == |irqs| + 1 && |cs| == |irqs| && n <= |irqs|
    requires forall i | 0 <= i < |irqs| :: SavesAt(ctxs, cs, irqs, t, i)
    ensures ctxs[n] == Saved(ctxs[0], irqs, LastIndex(cs[..n], t))
  {
    if n > 0 {
      LastUpdateShows(ctxs, cs, irqs, t, n - 1);
      assert SavesAt(ctxs, cs, irqs, t, n - 1);
      assert cs[..n][..n - 1] == cs[..n - 1];
    }
  }

  lemma TickContext(s: Sched, pageDirs: seq<nat>, tick: nat, irq: IrqContext, t: nat)
    requires Inv(s, pageDirs) && t < |s.threads|
    ensures var s' := Tick(s, pageDirs, tick, irq);
            && |s'.threads| == |s.threads|
            && s'.threads[t].context == if t == s.current then UpdateContext(s.threads[t].context, irq)
               else s.threads[t].context
  {
    var c := Charge(s, tick, irq);
    ChargeInv(s, pageDirs, tick, irq);
    if c.threads[c.current].quantum == 0 { Rotate(c, pageDirs); }
  }

  /** Each thread's saved context is the one it started with, overwritten by the registers of
      the last tick that found it current; for a thread that has been switched out, that is the
      tick that switched it out. */
  lemma SavedContexts(s: Sched, pageDirs: seq<nat>, tick: nat, irqs: seq<IrqContext>, t: nat)
    requires Inv(s, pageDirs) && t < |s.threads|
    ensures var k, first := LastTick(s, pageDirs, tick, irqs, t), s.threads[t].context;
            var last := Run(s, pageDirs, tick, irqs).threads[t].context;
            if k < 0 then last == first else Interrupted(first, irqs[k], last)
  {
    var ctxs, cs, n := Contexts(s, pageDirs, tick, irqs, t), Currents(s, pageDirs, tick, irqs), |irqs|;
    forall i | 0 <= i < n ensures SavesAt(ctxs, cs, irqs, t, i) { RunSaves(s, pageDirs, tick, irqs, t, i); }
    LastUpdateShows(ctxs, cs, irqs, t, n);
    assert cs[..n] == cs && irqs[..n] == irqs && irqs[..0] == [];
  }

  /** Tick `k`, the last to find thread `t` current, finds it so, and the one after it does not. */
  lemma TickOfSwitch(s: Sched, pageDirs: seq<nat>, tick: nat, irqs: seq<IrqContext>, t: nat, k: nat)
    requires Inv(s, pageDirs) && k < |irqs| && k == LastTick(s, pageDirs, tick, irqs, t)
    ensures Run(s, pageDirs, tick, irqs[..k]).current == t
    ensures k + 1 < |irqs| ==> Run(s, pageDirs, tick, irqs[..k + 1]).current != t
  {
    var cs := Currents(s, pageDirs, tick, irqs);
    assert cs[k] == t;
    if k + 1 < |irqs| { assert cs[k + 1] != t; }
  }

  /** A thread that was current and no longer is was last current at the tick before the switch, and
      its saved context shows the registers of that tick. */
  lemma SwitchedOut(s: Sched, pageDirs: seq<nat>, tick: nat, irqs: seq<IrqContext>, t: nat)
    requires Inv(s, pageDirs) && t < |s.threads|
    requires LastTick(s, pageDirs, tick, irqs, t) >= 0 && Run(s, pageDirs, tick, irqs).current != t
    ensures var k := LastTick(s, pageDirs, tick, irqs, t);
            && Run(s, pageDirs, tick, irqs[..k]).current == t && Run(s, pageDirs, tick, irqs[..k + 1]).current != t
            && Interrupted(s.threads[t].context, irqs[k], Run(s, pageDirs, tick, irqs).threads[t].context)
  {
    var k := LastTick(s, pageDirs, tick, irqs, t);
    SavedContexts(s, pageDirs, tick, irqs, t);
    TickOfSwitch(s, pageDirs, tick, irqs, t, k);
    if k + 1 == |irqs| { assert irqs[..k + 1] == irqs; }
  }
}
