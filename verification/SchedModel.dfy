/**
 The round-robin policy as a state machine: one queue of thread numbers a priority, the
 current thread, and the page directory the processor has loaded.
 */
module SchedModel {
  import opened Seqs
  import opened Threads

  const LEVELS: nat := 16

  datatype Thread = Thread(priority: nat, quantum: nat, ready: bool, context: Context, proc: nat)

  /** `cr3` is the loaded directory and `proc` the process it was loaded for. */
  datatype Sched = Sched(queues: seq<seq<nat>>, threads: seq<Thread>, current: nat, cr3: nat, proc: nat)

  /** `rr_quant_from_prio`: ten seconds for every priority. */
  function Quantum(priority: nat): nat { 10_000_000_000 }

  /** `time_sub_nsec`. */
  function SubNsec(t: nat, n: nat): nat { if t > n then t - n else 0 }

  // ---- well-formedness -----------------------------------------------------------------

  /** Queue `p` holds threads of priority `p`, each once. */
  predicate QueueOk(queues: seq<seq<nat>>, threads: seq<Thread>, p: nat)
    requires |queues| == LEVELS && p < LEVELS
  {
    NoDup(queues[p]) && forall t | t in queues[p] :: t < |threads| && threads[t].priority == p
  }

  predicate Queues(queues: seq<seq<nat>>, threads: seq<Thread>) {
    && |queues| == LEVELS
    && (forall t | 0 <= t < |threads| :: threads[t].priority < LEVELS)
    && (forall p | 0 <= p < LEVELS :: QueueOk(queues, threads, p))
  }

  predicate Waiting(queues: seq<seq<nat>>, threads: seq<Thread>, t: nat)
    requires |queues| == LEVELS && t < |threads| && threads[t].priority < LEVELS
  {
    t in queues[threads[t].priority]
  }

  /** Every thread is either current or waits exactly once, in the queue of its own priority,
      and nothing better than the current thread waits. */
  predicate Inv(s: Sched, pageDirs: seq<nat>) {
    && Queues(s.queues, s.threads)
    && s.current < |s.threads| && !Waiting(s.queues, s.threads, s.current)
    && (forall t | 0 <= t < |s.threads| && t != s.current :: Waiting(s.queues, s.threads, t))
    && (forall p | 0 <= p < s.threads[s.current].priority :: s.queues[p] == [])
    && (forall t | 0 <= t < |s.threads| :: s.threads[t].proc < |pageDirs|)
    && s.proc == s.threads[s.current].proc && s.cr3 == pageDirs[s.proc]
  }

  // ---- the operations --------------------------------------------------------------------

  /** First non-empty queue at or after `i`, or `LEVELS`. */
  function FirstReady(queues: seq<seq<nat>>, i: nat): (p: nat)
    requires |queues| == LEVELS && i <= LEVELS
    ensures i <= p <= LEVELS && (p < LEVELS ==> queues[p] != [])
    ensures forall k | i <= k < p :: queues[k] == []
    decreases LEVELS - i
  {
    if i == LEVELS || queues[i] != [] then i else FirstReady(queues, i + 1)
  }

  /** `rr_move_to_ready`: to the back of its queue; the quantum is left as it is. */
  function Enqueue(queues: seq<seq<nat>>, threads: seq<Thread>, t: nat): seq<seq<nat>>
    requires |queues| == LEVELS && t < |threads| && threads[t].priority < LEVELS
  {
    var p := threads[t].priority;
    queues[p := queues[p] + [t]]
  }

  function MarkReady(threads: seq<Thread>, t: nat): seq<Thread>
    requires t < |threads|
  {
    threads[t := threads[t].(ready := true)]
  }

  function Pop(queues: seq<seq<nat>>, p: nat): seq<seq<nat>>
    requires p < |queues| && queues[p] != []
  {
    queues[p := queues[p][1..]]
  }

  /** `native_select_thread`: the directory is reloaded only when the process changes. */
  function Select(s: Sched, t: nat, pageDirs: seq<nat>): Sched
    requires t < |s.threads| && s.threads[t].proc < |pageDirs|
  {
    var p := s.threads[t].proc;
    s.(current := t, proc := p, cr3 := if p != s.proc then pageDirs[p] else s.cr3)
  }

  /** What a tick does before scheduling: charge the current thread and save its registers. */
  function Charge(s: Sched, tick: nat, irq: IrqContext): Sched
    requires s.current < |s.threads|
  {
    var th := s.threads[s.current];
    s.(threads := s.threads[s.current :=
         th.(quantum := SubNsec(th.quantum, tick), context := UpdateContext(th.context, irq))])
  }

  /** `rr_schedule`. */
  function Schedule(s: Sched, pageDirs: seq<nat>): Sched
    requires Inv(s, pageDirs)
  {
    if s.threads[s.current].quantum != 0 then s else
    var queues, threads := Enqueue(s.queues, s.threads, s.current), MarkReady(s.threads, s.current);
    var p := FirstReady(queues, 0);
    ExpiredChoice(s, pageDirs);
    var next, s' := queues[p][0], s.(queues := Pop(queues, p), threads := threads);
    if next != s.current then Select(s', next, pageDirs) else s'
  }

  /** With the expired thread back in its queue the choice is never empty, and it falls on the
      expired thread's own priority. */
  lemma ExpiredChoice(s: Sched, pageDirs: seq<nat>)
    requires Inv(s, pageDirs)
    ensures var queues := Enqueue(s.queues, s.threads, s.current);
            var p := s.threads[s.current].priority;
            FirstReady(queues, 0) == p && queues[p] != [] && queues[p][0] < |s.threads|
  {
    var queues, p := Enqueue(s.queues, s.threads, s.current), s.threads[s.current].priority;
    assert QueueOk(s.queues, s.threads, p);
    assert queues[p] != [];
    assert forall k | 0 <= k < p :: queues[k] == [];
    var f := FirstReady(queues, 0);
    assert queues[p][0] == s.current || queues[p][0] in s.queues[p];
  }

  /** `rr_tick_handler`. */
  function Tick(s: Sched, pageDirs: seq<nat>, tick: nat, irq: IrqContext): Sched
    requires Inv(s, pageDirs)
  {
    ChargeInv(s, pageDirs, tick, irq);
    Schedule(Charge(s, tick, irq), pageDirs)
  }

  lemma ChargeInv(s: Sched, pageDirs: seq<nat>, tick: nat, irq: IrqContext)
    requires Inv(s, pageDirs)
    ensures Inv(Charge(s, tick, irq), pageDirs)
  {
    var s' := Charge(s, tick, irq);
    SamePriorities(s.queues, s.threads, s'.threads);
    forall t | 0 <= t < |s'.threads| && t != s'.current ensures Waiting(s'.queues, s'.threads, t) {
      assert Waiting(s.queues, s.threads, t);
    }
  }

  lemma SamePriorities(queues: seq<seq<nat>>, threads: seq<Thread>, threads': seq<Thread>)
    requires Queues(queues, threads) && |threads'| == |threads|
    requires forall t | 0 <= t < |threads| :: threads'[t].priority == threads[t].priority
    ensures Queues(queues, threads')
  {
    forall p | 0 <= p < LEVELS ensures QueueOk(queues, threads', p) { assert QueueOk(queues, threads, p); }
  }

  // ---- every step keeps the invariant ---------------------------------------------------------

  /** An expired thread goes behind its peers and the first of them takes over. */
  lemma Rotate(s: Sched, pageDirs: seq<nat>)
    requires Inv(s, pageDirs) && s.threads[s.current].quantum == 0
    ensures var p := s.threads[s.current].priority;
            var q := s.queues[p] + [s.current];
            var s' := Schedule(s, pageDirs);
            && q[0] < |s.threads| && s'.queues == s.queues[p := q[1..]] && s'.current == q[0]
            && s'.threads == MarkReady(s.threads, s.current)
            && s'.proc == s.threads[q[0]].proc && s'.cr3 == pageDirs[s'.proc]
  {
    var p := s.threads[s.current].priority;
    ExpiredChoice(s, pageDirs);
    var queues := Enqueue(s.queues, s.threads, s.current);
    assert Pop(queues, p) == s.queues[p := queues[p][1..]];
  }

  lemma ScheduleInv(s: Sched, pageDirs: seq<nat>)
    requires Inv(s, pageDirs)
    ensures Inv(Schedule(s, pageDirs), pageDirs)
  {
    if s.threads[s.current].quantum == 0 {
      var p := s.threads[s.current].priority;
      var q, s' := s.queues[p] + [s.current], Schedule(s, pageDirs);
      Rotate(s, pageDirs);
      assert QueueOk(s.queues, s.threads, p);
      assert NoDup(q);
      SamePriorities(s.queues, s.threads, s'.threads);
      forall k | 0 <= k < LEVELS ensures QueueOk(s'.queues, s'.threads, k) {
        assert QueueOk(s.queues, s'.threads, k);
        if k == p { RotatedQueue(q, s'.threads, p); }
      }
      assert q[0] in q;
      forall t | 0 <= t < |s.threads|
        ensures if s.threads[t].priority == p then t in q else Waiting(s.queues, s.threads, t)
      {
        assert t == s.current || Waiting(s.queues, s.threads, t);
      }
      RotatedWaiting(s, s', p, q);
    }
  }

  lemma RotatedQueue(q: seq<nat>, threads: seq<Thread>, p: nat)
    requires q != [] && NoDup(q) && (forall t | t in q :: t < |threads| && threads[t].priority == p)
    ensures NoDup(q[1..]) && q[0] !in q[1..]
    ensures forall t | t in q[1..] :: t < |threads| && threads[t].priority == p
  {
    forall t | t in q[1..] ensures t in q {}
  }

  lemma RotatedWaiting(s: Sched, s': Sched, p: nat, q: seq<nat>)
    requires Queues(s.queues, s.threads) && Queues(s'.queues, s'.threads) && |s'.threads| == |s.threads|
    requires p < LEVELS && q != [] && NoDup(q) && q[0] < |s.threads| && s.threads[q[0]].priority == p
    requires s'.queues == s.queues[p := q[1..]]
    requires forall t | 0 <= t < |s.threads| :: s'.threads[t].priority == s.threads[t].priority
    requires forall t | 0 <= t < |s.threads| ::
               if s.threads[t].priority == p then t in q else Waiting(s.queues, s.threads, t)
    ensures !Waiting(s'.queues, s'.threads, q[0])
    ensures forall t | 0 <= t < |s.threads| && t != q[0] :: Waiting(s'.queues, s'.threads, t)
  {
    forall t | 0 <= t < |s.threads| && t != q[0] ensures Waiting(s'.queues, s'.threads, t) {
      if s.threads[t].priority == p { assert t in q; }
    }
  }

  lemma TickInv(s: Sched, pageDirs: seq<nat>, tick: nat, irq: IrqContext)
    requires Inv(s, pageDirs)
    ensures Inv(Tick(s, pageDirs, tick, irq), pageDirs)
  {
    ChargeInv(s, pageDirs, tick, irq);
    ScheduleInv(Charge(s, tick, irq), pageDirs);
  }
}
