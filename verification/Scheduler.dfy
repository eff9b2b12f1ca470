/**
 The round-robin scheduler over linked rings: `rr_init`, `rr_tick_handler`, `rr_schedule` and
 `native_select_thread`, each refining the state machine of SchedModel.
 */
module Scheduler {
  import opened Threads
  import opened Ring
  import opened SchedModel
  import opened SchedRuns

  function Ids(q: seq<Tcb>): (r: seq<nat>)
    ensures |r| == |q| && forall i | 0 <= i < |q| :: r[i] == q[i].id
  {
    seq(|q|, i requires 0 <= i < |q| => q[i].id)
  }

  function IdsOf(queues: seq<seq<Tcb>>): (r: seq<seq<nat>>)
    ensures |r| == |queues| && forall p | 0 <= p < |queues| :: r[p] == Ids(queues[p])
  {
    seq(|queues|, p requires 0 <= p < |queues| => Ids(queues[p]))
  }

  lemma NoneEnqueued(queues: seq<seq<Tcb>>, ths: seq<Thread>)
    requires queues == seq(LEVELS, _ => []) && forall t | 0 <= t < |ths| :: ths[t].priority < LEVELS
    ensures Enqueued(ths, 0) == (IdsOf(queues), ths)
  {
    var r := Enqueued(ths, 0);
    forall p | 0 <= p < LEVELS ensures IdsOf(queues)[p] == r.0[p] { assert queues[p] == []; }
    assert r.0 == IdsOf(queues) && r.1 == ths;
  }

  function ThreadOf(t: Tcb): Thread
    reads t
  {
    Thread(t.priority, t.quantum, t.ready, t.context, t.proc)
  }

  function ThreadsOf(tcbs: seq<Tcb>): (r: seq<Thread>)
    reads tcbs
    ensures |r| == |tcbs| && forall i | 0 <= i < |tcbs| :: r[i] == ThreadOf(tcbs[i])
  {
    seq(|tcbs|, i requires 0 <= i < |tcbs| reads tcbs => ThreadOf(tcbs[i]))
  }

  /** The thread table: block number `i` has number `i`. */
  predicate Table(tcbs: seq<Tcb>) { forall i | 0 <= i < |tcbs| :: tcbs[i].id == i }

  /** Queue `p` is the ring behind head `p` and holds blocks of priority `p` from the table. */
  ghost predicate QueueLinked(heads: seq<Tcb>, queues: seq<seq<Tcb>>, tcbs: seq<Tcb>, repr: set<object>, p: nat)
    requires |heads| == LEVELS == |queues| && p < LEVELS
    reads repr
  {
    && heads[p] in repr
    && (forall t | t in queues[p] :: t in tcbs && t in repr)
    && Linked(heads[p], queues[p])
    && (forall t | t in queues[p] :: t.priority == p)
  }

  lemma InTable(tcbs: seq<Tcb>, t: Tcb)
    requires Table(tcbs) && t in tcbs
    ensures t.id < |tcbs| && tcbs[t.id] == t
  {}

  lemma IdsAppend(queues: seq<seq<Tcb>>, p: nat, t: Tcb)
    requires p < |queues|
    ensures IdsOf(queues[p := queues[p] + [t]]) == IdsOf(queues)[p := IdsOf(queues)[p] + [t.id]]
  {
    assert Ids(queues[p] + [t]) == Ids(queues[p]) + [t.id];
  }

  lemma IdsPop(queues: seq<seq<Tcb>>, p: nat)
    requires p < |queues| && queues[p] != []
    ensures IdsOf(queues[p := queues[p][1..]]) == IdsOf(queues)[p := IdsOf(queues)[p][1..]]
  {
    assert Ids(queues[p][1..]) == Ids(queues[p])[1..];
  }

  method MakeHeads() returns (hs: seq<Tcb>)
    ensures |hs| == LEVELS && fresh(hs)
    ensures forall p, q | 0 <= p < q < LEVELS :: hs[p] != hs[q]
    ensures forall p | 0 <= p < LEVELS :: hs[p].next == hs[p] && hs[p].prev == hs[p]
  {
    hs := [];
    var blank := CreateThread(Context(0, ZERO_REGS, 0, 0, 0, 0, 0, 0), 0, 0);
    while |hs| < LEVELS
      invariant |hs| <= LEVELS && fresh(hs)
      invariant forall p, q | 0 <= p < q < |hs| :: hs[p] != hs[q]
      invariant forall p | 0 <= p < |hs| :: hs[p].next == hs[p] && hs[p].prev == hs[p]
    {
      var h := new Tcb(0, 0, 0, blank);
      hs := hs + [h];
    }
  }

  class RoundRobin {
    const pageDirs: seq<nat>
    const tick: nat
    const heads: seq<Tcb>
    const tcbs: seq<Tcb>
    ghost const repr: set<object>   // the blocks and the heads
    ghost var queues: seq<seq<Tcb>>
    var current: Tcb
    var execCtx: Tcb      // owner of __current_thread_execution_ctx
    var currentProc: nat
    var cr3: nat

    /** The scheduler's static storage, with every ready queue initialised and empty. */
    constructor (tcbs: seq<Tcb>, pageDirs: seq<nat>, tick: nat)
      requires Table(tcbs) && tcbs != []
      ensures this.tcbs == tcbs && this.pageDirs == pageDirs && this.tick == tick
      ensures Rings() && queues == seq(LEVELS, _ => [])
      ensures fresh(repr - set t | t in tcbs)
    {
      var hs := MakeHeads();
      this.tcbs, this.pageDirs, this.tick, this.heads := tcbs, pageDirs, tick, hs;
      queues := seq(LEVELS, _ => []);
      repr := (set t | t in tcbs) + (set t | t in hs);
      current, execCtx, currentProc, cr3 := tcbs[0], tcbs[0], 0, 0;
      new;
      forall p | 0 <= p < LEVELS ensures QueueLinked(heads, queues, tcbs, repr, p) {
        assert hs[p] in hs;
      }
    }

    /** `rr_init`: enqueue every thread, then pick the first of the best class. */
    method RrInit()
      requires Rings() && queues == seq(LEVELS, _ => []) && Bootable(ThreadsOf(tcbs), pageDirs)
      modifies this, repr
      ensures Valid() && Abs() == Init(old(ThreadsOf(tcbs)), pageDirs)
    {
      ghost var ths := ThreadsOf(tcbs);
      EnqueueAll();
      PickFirst(ths);
      InitInv(ths, pageDirs);
    }

    method EnqueueAll()
      requires Rings() && queues == seq(LEVELS, _ => [])
      requires forall t | 0 <= t < |tcbs| :: ThreadsOf(tcbs)[t].priority < LEVELS
      modifies `queues, repr
      ensures Rings()
      ensures var r := Enqueued(old(ThreadsOf(tcbs)), |tcbs|); IdsOf(queues) == r.0 && ThreadsOf(tcbs) == r.1
    {
      ghost var ths := ThreadsOf(tcbs);
      NoneEnqueued(queues, ths);
      var i := 0;
      while i < |tcbs|
        invariant i <= |tcbs| && Rings()
        invariant IdsOf(queues) == Enqueued(ths, i).0 && ThreadsOf(tcbs) == Enqueued(ths, i).1
      {
        EnqueueThread(tcbs[i], i, ths);
        i := i + 1;
      }
    }

    /** End of `rr_init`; no process is current yet, so the directory is always loaded. */
    method PickFirst(ghost ths: seq<Thread>)
      requires Rings() && Bootable(ths, pageDirs) && |ths| == |tcbs|
      requires IdsOf(queues) == Enqueued(ths, |ths|).0 && ThreadsOf(tcbs) == Enqueued(ths, |ths|).1
      modifies this, repr
      ensures Rings() && Abs() == Init(ths, pageDirs) && current in tcbs && execCtx == current
    {
      ghost var qs := IdsOf(queues);
      InitShape(ths, pageDirs, qs, ThreadsOf(tcbs));
      var next := ChooseFirst();
      Install(next);
      InitIs(ths, pageDirs, qs, Abs());
    }

    method Install(next: Tcb)
      requires Rings() && next in tcbs && next.id < |tcbs| && next.proc < |pageDirs|
      modifies `current, `execCtx, `currentProc, `cr3
      ensures Rings() && current == execCtx == next
      ensures Abs() == Sched(IdsOf(queues), ThreadsOf(tcbs), next.id, pageDirs[next.proc], next.proc)
    {
      current, execCtx, currentProc, cr3 := next, next, next.proc, pageDirs[next.proc];
    }

    method ChooseFirst() returns (next: Tcb)
      requires Rings() && FirstReady(IdsOf(queues), 0) < LEVELS
      modifies `queues, repr
      ensures Rings() && ThreadsOf(tcbs) == old(ThreadsOf(tcbs)) && next in tcbs
      ensures var qs := old(IdsOf(queues));
              var p := FirstReady(qs, 0);
              && IdsOf(queues) == Pop(qs, p) && next.id == qs[p][0] < |tcbs|
                 && next.proc == ThreadsOf(tcbs)[next.id].proc
    {
      ghost var p := FirstReady(IdsOf(queues), 0);
      assert IdsOf(queues)[p] == Ids(queues[p]);
      IdsPop(queues, p);
      assert QueueLinked(heads, queues, tcbs, repr, p);
      InTable(tcbs, queues[p][0]);
      var n := GetNextReady();
      next := n;
      assert ThreadsOf(tcbs)[next.id].proc == next.proc;
    }

    /** Sixteen disjoint rings over blocks of the table. */
    ghost predicate Rings()
      reads this, repr
    {
      && |heads| == LEVELS == |queues| && Table(tcbs) && this !in repr
      && (forall p, q | 0 <= p < q < LEVELS :: heads[p] != heads[q])
      && (forall p | 0 <= p < LEVELS :: heads[p] !in tcbs && heads[p] in repr)
      && (forall t | t in tcbs :: t in repr)
      && (forall p | 0 <= p < LEVELS :: QueueLinked(heads, queues, tcbs, repr, p))
    }

    ghost function Abs(): Sched
      reads this, tcbs
    {
      Sched(IdsOf(queues), ThreadsOf(tcbs), current.id, cr3, currentProc)
    }

    ghost predicate Valid()
      reads this, repr, tcbs
    {
      Rings() && current in tcbs && execCtx == current && Inv(Abs(), pageDirs)
    }

    /** `rr_move_to_ready`. */
    method MoveToReady(t: Tcb)
      requires Rings() && t in tcbs && t.priority < LEVELS && t !in queues[t.priority]
      modifies `queues, repr
      ensures Rings()
      ensures t.priority == old(t.priority)
      ensures queues == old(queues)[t.priority := old(queues)[t.priority] + [t]]
      ensures ThreadsOf(tcbs) == MarkReady(old(ThreadsOf(tcbs)), t.id)
    {
      ghost var p := t.priority;
      var h := heads[t.priority];
      ghost var s := queues[p];
      assert QueueLinked(heads, queues, tcbs, repr, p);
      var last := h.prev;
      assert At(h, s, |s| + 1).prev == At(h, s, |s|);
      assert last == At(h, s, |s|);
      assert At(h, s, |s|).next == At(h, s, |s| + 1);
      ListAdd(t, last, h, s, |s|);
      assert Inserted(s, |s|, t) == s + [t];
      queues := queues[p := s + [t]];
      t.ready := true;
      forall q | 0 <= q < LEVELS
        ensures QueueLinked(heads, queues, tcbs, repr, q)
      {
        assert old(QueueLinked(heads, queues, tcbs, repr, q));
      }
    }

    /** `rr_enqueue` of thread number `i` during initialisation. */
    method EnqueueThread(t: Tcb, i: nat, ghost ths: seq<Thread>)
      requires Rings() && i < |tcbs| == |ths| && t == tcbs[i]
      requires forall u | 0 <= u < |ths| :: ths[u].priority < LEVELS
      requires IdsOf(queues) == Enqueued(ths, i).0 && ThreadsOf(tcbs) == Enqueued(ths, i).1
      modifies `queues, repr
      ensures Rings()
      ensures IdsOf(queues) == Enqueued(ths, i + 1).0 && ThreadsOf(tcbs) == Enqueued(ths, i + 1).1
    {
      assert ThreadsOf(tcbs)[i] == ThreadOf(t);
      EnqueuedQueues(ths, i, t.priority);
      assert Ids(queues[t.priority]) == ClassOf(ths, t.priority, i);
      assert t !in queues[t.priority] by {
        forall k | 0 <= k < |queues[t.priority]| ensures queues[t.priority][k] != t {
          assert Ids(queues[t.priority])[k] < i;
        }
      }
      IdsAppend(queues, t.priority, t);
      SetQuantum(t, Quantum(t.priority));
      MoveToReady(t);
    }

    method SetQuantum(t: Tcb, n: nat)
      requires Rings() && t in tcbs
      modifies t`quantum
      ensures Rings() && ThreadsOf(tcbs) == old(ThreadsOf(tcbs))[t.id := old(ThreadOf(t)).(quantum := n)]
    {
      t.quantum := n;
      forall q | 0 <= q < LEVELS ensures QueueLinked(heads, queues, tcbs, repr, q) {
        assert old(QueueLinked(heads, queues, tcbs, repr, q));
      }
    }

    /** `rr_get_next_ready`: pops the head of the first queue that is not empty. */
    method GetNextReady() returns (next: Tcb?)
      requires Rings()
      modifies `queues, repr
      ensures Rings() && ThreadsOf(tcbs) == old(ThreadsOf(tcbs))
      ensures var p := FirstReady(old(IdsOf(queues)), 0);
              if p == LEVELS then next == null && queues == old(queues)
              else next != null && next == old(queues)[p][0] && queues == old(queues)[p := old(queues)[p][1..]]
    {
      ghost var before := IdsOf(queues);
      var i := 0;
      while i < LEVELS
        invariant i <= LEVELS && Rings() && queues == old(queues) && ThreadsOf(tcbs) == old(ThreadsOf(tcbs))
        invariant FirstReady(before, 0) == FirstReady(before, i)
      {
        assert QueueLinked(heads, queues, tcbs, repr, i);
        var empty := ListIsEmpty(heads[i], queues[i]);
        if !empty {
          next := PopQueue(i);
          return;
        }
        i := i + 1;
      }
      next := null;
    }

    method PopQueue(p: nat) returns (next: Tcb)
      requires Rings() && p < LEVELS && queues[p] != []
      modifies `queues, repr
      ensures Rings() && ThreadsOf(tcbs) == old(ThreadsOf(tcbs))
      ensures next == old(queues)[p][0] && queues == old(queues)[p := old(queues)[p][1..]]
    {
      ghost var s := queues[p];
      assert QueueLinked(heads, queues, tcbs, repr, p);
      assert At(heads[p], s, 0).next == At(heads[p], s, 1);
      assert At(heads[p], s, 1).next == At(heads[p], s, 2);
      ghost var second := heads[p].next.next;
      assert second == heads[p] || second in s;
      next := ListNext(heads[p], s);
      queues := queues[p := s[1..]];
      forall q | 0 <= q < LEVELS ensures QueueLinked(heads, queues, tcbs, repr, q) {
        assert old(QueueLinked(heads, queues, tcbs, repr, q));
      }
    }

    /** `native_select_thread`: a new directory is loaded only when the process changes. */
    method SelectThread(t: Tcb)
      requires t.proc < |pageDirs|
      modifies `execCtx, `currentProc, `cr3
      ensures execCtx == t && currentProc == t.proc
      ensures cr3 == if t.proc != old(currentProc) then pageDirs[t.proc] else old(cr3)
      ensures old(currentProc) < |pageDirs| && old(cr3) == pageDirs[old(currentProc)] ==> cr3 == pageDirs[currentProc]
    {
      if execCtx != t { execCtx := t; }
      if t.proc != currentProc {
        currentProc := t.proc;
        cr3 := pageDirs[currentProc];
      }
    }

    /** `rr_schedule`. */
    method RrSchedule()
      requires Valid()
      modifies this, repr
      ensures Valid() && Abs() == Schedule(old(Abs()), pageDirs)
    {
      ScheduleInv(Abs(), pageDirs);
      InTable(tcbs, current);
      var next := current;
      if current.quantum == 0 { next := Requeue(); }
      if next != current {
        current := next;
        SelectThread(next);
      }
    }

    /** The expired current thread goes to the back of its queue and the choice is made. */
    method Requeue() returns (next: Tcb)
      requires Valid() && Abs().threads[Abs().current].quantum == 0
      modifies `queues, repr
      ensures Rings() && next in tcbs && next.proc < |pageDirs|
      ensures var s := old(Abs());
              var qs := Enqueue(s.queues, s.threads, s.current);
              && FirstReady(qs, 0) < LEVELS && next.id == qs[FirstReady(qs, 0)][0]
              && IdsOf(queues) == Pop(qs, FirstReady(qs, 0)) && ThreadsOf(tcbs) == MarkReady(s.threads, s.current)
    {
      ghost var s := Abs();
      InTable(tcbs, current);
      ExpiredChoice(s, pageDirs);
      ghost var p := current.priority;
      IdsAppend(queues, p, current);
      MoveToReady(current);
      IdsPop(queues, p);
      assert QueueLinked(heads, queues, tcbs, repr, p);
      InTable(tcbs, queues[p][0]);
      var n := GetNextReady();
      next := n;
      assert ThreadsOf(tcbs)[next.id] == ThreadOf(next);
    }

    /** `rr_tick_handler`. */
    method RrTick(irq: IrqContext)
      requires Valid()
      modifies this, repr
      ensures Valid() && Abs() == Tick(old(Abs()), pageDirs, tick, irq)
      ensures Interrupted(old(current.context), irq, old(current).context)
    {
      ChargeInv(Abs(), pageDirs, tick, irq);
      ChargeCurrent(irq);
      RrSchedule();
    }

    /** `time_sub_nsec` on the current quantum and `arch_update_exec_ctx` on the current context. */
    method ChargeCurrent(irq: IrqContext)
      requires Valid()
      modifies repr
      ensures Rings() && Abs() == Charge(old(Abs()), tick, irq)
      ensures current.quantum == if old(current.quantum) > tick then old(current.quantum) - tick else 0
      ensures Interrupted(old(current.context), irq, current.context)
    {
      InTable(tcbs, current);
      current.quantum := if current.quantum > tick then current.quantum - tick else 0;
      execCtx.context := UpdateContext(execCtx.context, irq);
      forall q | 0 <= q < LEVELS ensures QueueLinked(heads, queues, tcbs, repr, q) {
        assert old(QueueLinked(heads, queues, tcbs, repr, q));
      }
      assert ThreadsOf(tcbs) == Charge(old(Abs()), tick, irq).threads;
    }
  }
}
