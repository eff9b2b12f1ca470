/**
 Closed form of every run of the scheduler: which thread is current after `t` ticks.  Because
 an expired quantum is never recharged, each thread of the best class runs one full quantum in
 turn and from then on single ticks in turn.
 */
module SchedClosedForm {
  import opened Seqs
  import opened Arith
  import opened Threads
  import opened SchedModel
  import opened SchedRuns

  // ---- rotations ------------------------------------------------------------------------------

  /** `n` elements of the circle `b` from position `k`. */
  function Rot(b: seq<nat>, k: nat, n: nat): (r: seq<nat>)
    requires b != []
    ensures |r| == n && forall i | 0 <= i < n :: r[i] == b[(k + i) % |b|]
  {
    seq(n, i requires 0 <= i => b[(k + i) % |b|])
  }

  /** Putting the expired element behind its peers and taking the first is one turn of the circle. */
  lemma RotTurn(b: seq<nat>, c: nat)
    requires b != []
    ensures var q := Rot(b, c + 1, |b| - 1) + [b[c % |b|]];
            q[0] == b[(c + 1) % |b|] && q[1..] == Rot(b, c + 2, |b| - 1)
  {
    var m, q := |b|, Rot(b, c + 1, |b| - 1) + [b[c % |b|]];
    ModPlus(c, m);
    assert q == Rot(b, c + 1, m) by {
      forall i | 0 <= i < m ensures q[i] == b[(c + 1 + i) % m] {
        if i == m - 1 { assert c + 1 + i == c + m; }
      }
    }
    forall i | 0 <= i < m - 1 ensures q[1..][i] == b[(c + 2 + i) % m] {
      assert q[1..][i] == q[i + 1] && c + 1 + (i + 1) == c + 2 + i;
    }
  }

  // ---- phases ---------------------------------------------------------------------------------

  /** `turns` switches have happened and the current thread has had `ticks` ticks of its slice. */
  datatype Phase = Phase(turns: nat, ticks: nat)

  function NextPhase(f: Phase, m: nat, q: nat): Phase {
    if f.turns < m && f.ticks + 1 < q then Phase(f.turns, f.ticks + 1) else Phase(f.turns + 1, 0)
  }

  /** What is left to thread number `j` of the class in phase `f`. */
  function Left(f: Phase, j: nat, quantum: nat, tick: nat): nat {
    if j < f.turns then 0 else if j == f.turns then SubNsec(quantum, f.ticks * tick) else quantum
  }

  /** The scheduler is in phase `f` of class `b` of priority `p`. */
  ghost predicate InPhase(s: Sched, pageDirs: seq<nat>, b: seq<nat>, p: nat, f: Phase, quantum: nat, tick: nat) {
    && Inv(s, pageDirs) && b != [] && NoDup(b) && p < LEVELS
    && (forall j | 0 <= j < |b| :: b[j] < |s.threads| && s.threads[b[j]].priority == p)
    && s.current == b[f.turns % |b|]
    && s.queues[p] == Rot(b, f.turns + 1, |b| - 1)
    && (forall j | 0 <= j < |b| :: s.threads[b[j]].quantum == Left(f, j, quantum, tick))
    && (f.turns < |b| ==> f.ticks * tick < quantum)
    && (f.turns >= |b| ==> f.ticks == 0)
  }

  lemma ChargePhase(s: Sched, pageDirs: seq<nat>, b: seq<nat>, p: nat, f: Phase, quantum: nat, tick: nat,
                    irq: IrqContext)
    requires InPhase(s, pageDirs, b, p, f, quantum, tick)
    ensures var c := Charge(s, tick, irq);
            && Inv(c, pageDirs) && c.current == s.current && c.queues == s.queues && |c.threads| == |s.threads|
            && (forall j | 0 <= j < |b| :: c.threads[b[j]].priority == p)
            && (forall j | 0 <= j < |b| :: c.threads[b[j]].quantum == Left(f.(ticks := f.ticks + 1), j, quantum, tick))
            && c.threads[c.current].quantum ==
                 if f.turns < |b| then SubNsec(quantum, (f.ticks + 1) * tick) else 0
  {
    ChargeInv(s, pageDirs, tick, irq);
    var at := f.turns % |b|;
    LeftCharged(f, |b|, at, quantum, tick);
    ChargeQuanta(s, b, at, tick, irq);
  }

  /** A charge takes one tick from the current thread, number `at` of the class. */
  lemma ChargeQuanta(s: Sched, b: seq<nat>, at: nat, tick: nat, irq: IrqContext)
    requires NoDup(b) && at < |b| && s.current == b[at] && forall j | 0 <= j < |b| :: b[j] < |s.threads|
    ensures var c := Charge(s, tick, irq);
            && |c.threads| == |s.threads|
            && (forall j | 0 <= j < |b| :: c.threads[b[j]].priority == s.threads[b[j]].priority)
            && c.threads[b[at]].quantum == SubNsec(s.threads[b[at]].quantum, tick)
            && (forall j | 0 <= j < |b| && j != at :: c.threads[b[j]].quantum == s.threads[b[j]].quantum)
  {
    forall j | 0 <= j < |b| && j != at ensures b[j] != b[at] {}
  }

  lemma LeftCharged(f: Phase, m: nat, at: nat, quantum: nat, tick: nat)
    requires m > 0 && at == f.turns % m
    ensures at < m && (f.turns < m ==> at == f.turns)
    ensures SubNsec(Left(f, at, quantum, tick), tick) == Left(f.(ticks := f.ticks + 1), at, quantum, tick)
    ensures forall j | 0 <= j < m && j != at ::
              Left(f.(ticks := f.ticks + 1), j, quantum, tick) == Left(f, j, quantum, tick)
  {
    assert (f.ticks + 1) * tick == f.ticks * tick + tick;
    if f.turns < m { DivModUnique(f.turns, m, 0, f.turns); }
  }

  lemma PhaseStays(s: Sched, pageDirs: seq<nat>, b: seq<nat>, p: nat, f: Phase, quantum: nat, tick: nat,
                   irq: IrqContext)
    requires InPhase(s, pageDirs, b, p, f, quantum, tick) && f.turns < |b| && (f.ticks + 1) * tick < quantum
    ensures InPhase(Tick(s, pageDirs, tick, irq), pageDirs, b, p, Phase(f.turns, f.ticks + 1), quantum, tick)
  {
    ChargePhase(s, pageDirs, b, p, f, quantum, tick, irq);
    assert Tick(s, pageDirs, tick, irq) == Charge(s, tick, irq);
  }

  /** The switch itself, on the queue of the class. */
  lemma TurnQueue(c: Sched, pageDirs: seq<nat>, b: seq<nat>, p: nat, turns: nat)
    requires Inv(c, pageDirs) && c.threads[c.current].quantum == 0 && c.threads[c.current].priority == p && b != []
    requires c.current == b[turns % |b|] && c.queues[p] == Rot(b, turns + 1, |b| - 1)
    ensures var s' := Schedule(c, pageDirs);
            && s'.threads == MarkReady(c.threads, c.current) && |s'.queues| == LEVELS
            && s'.current == b[(turns + 1) % |b|] && s'.queues[p] == Rot(b, turns + 2, |b| - 1)
  {
    Rotate(c, pageDirs);
    RotTurn(b, turns);
  }

  /** The slice of the current thread is over. */
  ghost predicate Expiring(s: Sched, pageDirs: seq<nat>, b: seq<nat>, p: nat, f: Phase, quantum: nat, tick: nat) {
    InPhase(s, pageDirs, b, p, f, quantum, tick) && (f.turns < |b| ==> (f.ticks + 1) * tick >= quantum)
  }

  lemma ChargeExpires(s: Sched, pageDirs: seq<nat>, b: seq<nat>, p: nat, f: Phase, quantum: nat, tick: nat,
                      irq: IrqContext)
    requires Expiring(s, pageDirs, b, p, f, quantum, tick)
    ensures var c := Charge(s, tick, irq);
            && Inv(c, pageDirs) && c.threads[c.current].quantum == 0 && c.threads[c.current].priority == p
            && c.current == s.current && c.queues == s.queues
  {
    ChargePhase(s, pageDirs, b, p, f, quantum, tick, irq);
  }

  predicate ClassHas(ths: seq<Thread>, b: seq<nat>, p: nat, f: Phase, quantum: nat, tick: nat) {
    forall j | 0 <= j < |b| ::
      b[j] < |ths| && ths[b[j]].priority == p && ths[b[j]].quantum == Left(f, j, quantum, tick)
  }

  lemma TurnedQuanta(s: Sched, pageDirs: seq<nat>, b: seq<nat>, p: nat, f: Phase, quantum: nat, tick: nat,
                     irq: IrqContext)
    requires Expiring(s, pageDirs, b, p, f, quantum, tick)
    ensures var c := Charge(s, tick, irq);
            && c.current < |c.threads|
            && ClassHas(MarkReady(c.threads, c.current), b, p, Phase(f.turns + 1, 0), quantum, tick)
  {
    ChargePhase(s, pageDirs, b, p, f, quantum, tick, irq);
  }

  lemma PhaseTurns(s: Sched, pageDirs: seq<nat>, b: seq<nat>, p: nat, f: Phase, quantum: nat, tick: nat,
                   irq: IrqContext)
    requires Expiring(s, pageDirs, b, p, f, quantum, tick) && 0 < quantum
    ensures InPhase(Tick(s, pageDirs, tick, irq), pageDirs, b, p, Phase(f.turns + 1, 0), quantum, tick)
  {
    var c := Charge(s, tick, irq);
    ChargeExpires(s, pageDirs, b, p, f, quantum, tick, irq);
    TurnQueue(c, pageDirs, b, p, f.turns);
    TurnedQuanta(s, pageDirs, b, p, f, quantum, tick, irq);
    ScheduleInv(c, pageDirs);
    EnterPhase(Schedule(c, pageDirs), pageDirs, b, p, f.turns + 1, quantum, tick);
  }

  lemma EnterPhase(s: Sched, pageDirs: seq<nat>, b: seq<nat>, p: nat, turns: nat, quantum: nat, tick: nat)
    requires Inv(s, pageDirs) && b != [] && NoDup(b) && p < LEVELS && quantum > 0
    requires ClassHas(s.threads, b, p, Phase(turns, 0), quantum, tick)
    requires s.current == b[turns % |b|] && s.queues[p] == Rot(b, turns + 1, |b| - 1)
    ensures InPhase(s, pageDirs, b, p, Phase(turns, 0), quantum, tick)
  {}

  /** One tick moves the scheduler to the next phase. */
  lemma PhaseStep(s: Sched, pageDirs: seq<nat>, b: seq<nat>, p: nat, f: Phase, quantum: nat, tick: nat, irq: IrqContext)
    requires InPhase(s, pageDirs, b, p, f, quantum, tick) && tick > 0 && quantum > 0
    ensures var f' := NextPhase(f, |b|, CeilDiv(quantum, tick));
            InPhase(Tick(s, pageDirs, tick, irq), pageDirs, b, p, f', quantum, tick)
  {
    var q := CeilDiv(quantum, tick);
    assert f.ticks + 1 < q <==> (f.ticks + 1) * tick < quantum by { CeilDivMeaning(quantum, tick, f.ticks + 1); }
    if f.turns < |b| && f.ticks + 1 < q {
      PhaseStays(s, pageDirs, b, p, f, quantum, tick, irq);
    } else {
      PhaseTurns(s, pageDirs, b, p, f, quantum, tick, irq);
    }
  }

  // ---- the closed form ------------------------------------------------------------------------

  /** The threads of the best class, in the order in which they were enqueued. */
  function Best(threads: seq<Thread>): seq<nat>
    requires forall t | 0 <= t < |threads| :: threads[t].priority < LEVELS
  {
    ClassOf(threads, BestClass(threads), |threads|)
  }

  lemma RotStart(b: seq<nat>)
    requires b != []
    ensures b[1..] == Rot(b, 1, |b| - 1) && b[0 % |b|] == b[0]
  {
    DivModUnique(0, |b|, 0, 0);
    forall i | 0 <= i < |b| - 1 ensures b[1..][i] == b[(1 + i) % |b|] { DivModUnique(1 + i, |b|, 0, 1 + i); }
  }

  lemma PhaseZero(s: Sched, pageDirs: seq<nat>, b: seq<nat>, p: nat, quantum: nat, tick: nat)
    requires Inv(s, pageDirs) && b != [] && NoDup(b) && p < LEVELS && quantum > 0
    requires forall j | 0 <= j < |b| ::
               b[j] < |s.threads| && s.threads[b[j]].priority == p && s.threads[b[j]].quantum == quantum
    requires s.current == b[0] && s.queues[p] == b[1..]
    ensures InPhase(s, pageDirs, b, p, Phase(0, 0), quantum, tick)
  {
    RotStart(b);
    ClassAtStart(s.threads, b, p, quantum, tick);
    EnterFirst(s, pageDirs, b, p, quantum, tick);
  }

  lemma EnterFirst(s: Sched, pageDirs: seq<nat>, b: seq<nat>, p: nat, quantum: nat, tick: nat)
    requires Inv(s, pageDirs) && b != [] && NoDup(b) && p < LEVELS && quantum > 0
    requires ClassHas(s.threads, b, p, Phase(0, 0), quantum, tick)
    requires s.current == b[0 % |b|] && s.queues[p] == Rot(b, 1, |b| - 1)
    ensures InPhase(s, pageDirs, b, p, Phase(0, 0), quantum, tick)
  {
    EnterPhase(s, pageDirs, b, p, 0, quantum, tick);
  }

  lemma ClassAtStart(ths: seq<Thread>, b: seq<nat>, p: nat, quantum: nat, tick: nat)
    requires forall j | 0 <= j < |b| :: b[j] < |ths| && ths[b[j]].priority == p && ths[b[j]].quantum == quantum
    ensures ClassHas(ths, b, p, Phase(0, 0), quantum, tick)
  {
    forall j | 0 <= j < |b| ensures ths[b[j]].quantum == Left(Phase(0, 0), j, quantum, tick) {
      LeftAtStart(j, quantum, tick);
    }
  }

  lemma LeftAtStart(j: nat, quantum: nat, tick: nat)
    ensures Left(Phase(0, 0), j, quantum, tick) == quantum
  {
    assert 0 * tick == 0;
  }

  lemma StartShape(threads: seq<Thread>, pageDirs: seq<nat>)
    requires Bootable(threads, pageDirs)
    ensures var p, b, s := BestClass(threads), Best(threads), Init(threads, pageDirs);
            && p < LEVELS && b != [] && |s.threads| == |threads| && |s.queues| == LEVELS
            && s.current == b[0] && s.queues[p] == b[1..]
            && (forall t | 0 <= t < |threads| ::
                  s.threads[t].priority == threads[t].priority && s.threads[t].quantum == Quantum(threads[t].priority))
  {
    BestClassMeaning(threads, pageDirs);
    EnqueuedQueues(threads, |threads|, BestClass(threads));
  }

  lemma StartPhase(threads: seq<Thread>, pageDirs: seq<nat>, tick: nat)
    requires Bootable(threads, pageDirs)
    ensures var p := BestClass(threads);
            InPhase(Init(threads, pageDirs), pageDirs, Best(threads), p, Phase(0, 0), Quantum(p), tick)
  {
    InitInv(threads, pageDirs);
    StartShape(threads, pageDirs);
    PhaseZero(Init(threads, pageDirs), pageDirs, Best(threads), BestClass(threads), Quantum(BestClass(threads)), tick);
  }

  function PhaseAt(t: nat, m: nat, q: nat): Phase {
    if t == 0 then Phase(0, 0) else NextPhase(PhaseAt(t - 1, m, q), m, q)
  }

  /** The phase after `t` ticks: whole slices for the first `total` ticks, then single ticks. */
  function Closed(t: nat, m: nat, q: nat, total: nat): Phase
    requires q > 0
  {
    if t < total then Phase(t / q, t % q) else Phase(m + (t - total), 0)
  }

  lemma SliceStays(t: nat, q: nat)
    requires q > 0 && t % q + 1 < q
    ensures (t + 1) / q == t / q && (t + 1) % q == t % q + 1
  {
    DivModUnique(t + 1, q, t / q, t % q + 1);
  }

  lemma SliceTurns(t: nat, q: nat)
    requires q > 0 && t % q + 1 == q
    ensures (t + 1) / q == t / q + 1 && (t + 1) % q == 0 && t + 1 == q * (t / q + 1)
  {
    assert q * (t / q + 1) == q * (t / q) + q;
    DivModUnique(t + 1, q, t / q + 1, 0);
  }

  lemma SliceBound(t: nat, m: nat, q: nat, total: nat)
    requires q > 0 && total == q * m && t < total
    ensures t / q < m
    ensures t % q + 1 < q ==> t + 1 < total
  {
    var c := t / q;
    assert t == q * c + t % q && q * (c + 1) == q * c + q;
    if c >= m { MulMonotone(q, m, c); } else { MulMonotone(q, c + 1, m); }
  }

  lemma ClosedStep(t: nat, m: nat, q: nat, total: nat)
    requires q > 0 && total == q * m
    ensures NextPhase(Closed(t, m, q, total), m, q) == Closed(t + 1, m, q, total)
  {
    if t < total {
      SliceBound(t, m, q, total);
      if t % q + 1 < q {
        SliceStays(t, q);
      } else {
        SliceTurns(t, q);
        if t + 1 == total { QuotientUnique(q, t / q + 1, 0, m, 0); }
      }
    }
  }

  lemma {:induction false} PhaseAtClosed(t: nat, m: nat, q: nat, total: nat)
    requires q > 0 && m > 0 && total == q * m
    ensures PhaseAt(t, m, q) == Closed(t, m, q, total)
  {
    if t == 0 {
      MulMonotone(q, 1, m);
      DivModUnique(0, q, 0, 0);
    } else {
      PhaseAtClosed(t - 1, m, q, total);
      ClosedStep(t - 1, m, q, total);
    }
  }

  lemma {:induction false} RunPhase(threads: seq<Thread>, pageDirs: seq<nat>, tick: nat, irqs: seq<IrqContext>)
    requires Bootable(threads, pageDirs) && tick > 0
    ensures Inv(Init(threads, pageDirs), pageDirs)
    ensures var p, b := BestClass(threads), Best(threads);
            InPhase(Run(Init(threads, pageDirs), pageDirs, tick, irqs), pageDirs, b, p,
                    PhaseAt(|irqs|, |b|, CeilDiv(Quantum(p), tick)), Quantum(p), tick)
  {
    var p := BestClass(threads);
    InitInv(threads, pageDirs);
    if irqs == [] {
      StartPhase(threads, pageDirs, tick);
    } else {
      var n := |irqs| - 1;
      RunPhase(threads, pageDirs, tick, irqs[..n]);
      PhaseStep(Run(Init(threads, pageDirs), pageDirs, tick, irqs[..n]), pageDirs, Best(threads), p,
                PhaseAt(n, |Best(threads)|, CeilDiv(Quantum(p), tick)), Quantum(p), tick, irqs[n]);
    }
  }

  /** Ticks of a full quantum in the best class. */
  function SliceLength(threads: seq<Thread>, tick: nat): nat
    requires tick > 0 && forall t | 0 <= t < |threads| :: threads[t].priority < LEVELS
  {
    CeilDiv(Quantum(BestClass(threads)), tick)
  }

  lemma RunTurns(threads: seq<Thread>, pageDirs: seq<nat>, tick: nat, irqs: seq<IrqContext>)
    requires Bootable(threads, pageDirs) && tick > 0
    ensures Inv(Init(threads, pageDirs), pageDirs) && Best(threads) != []
    ensures Run(Init(threads, pageDirs), pageDirs, tick, irqs).current ==
              Best(threads)[PhaseAt(|irqs|, |Best(threads)|, SliceLength(threads, tick)).turns % |Best(threads)|]
  {
    RunPhase(threads, pageDirs, tick, irqs);
  }

  lemma SlicePositive(threads: seq<Thread>, tick: nat)
    requires tick > 0 && forall t | 0 <= t < |threads| :: threads[t].priority < LEVELS
    ensures SliceLength(threads, tick) > 0
  {
    CeilDivMeaning(Quantum(BestClass(threads)), tick, 0);
  }

  /** Which of the `m` threads of the best class is current after `t` ticks: number `t / q` while
      whole quanta last, number `t - m * q` afterwards, both modulo `m`. */
  function ThreadAt(t: nat, m: nat, q: nat): (j: nat)
    requires m > 0 && q > 0
    ensures j < m
  {
    if t <= q * m then t / q % m else (t - q * m) % m
  }

  lemma TurnsAt(t: nat, m: nat, q: nat)
    requires q > 0 && m > 0
    ensures PhaseAt(t, m, q).turns % m == ThreadAt(t, m, q)
  {
    var total := q * m;
    PhaseAtClosed(t, m, q, total);
    if t == total {
      DivModUnique(total, q, m, 0);
    } else if t > total {
      ModPlus(t - total, m);
    }
  }

  /** The best class in thread numbers: all threads with the least priority, in order. */
  lemma BestMeaning(threads: seq<Thread>, pageDirs: seq<nat>)
    requires Bootable(threads, pageDirs)
    ensures forall i, j | 0 <= i < j < |Best(threads)| :: Best(threads)[i] < Best(threads)[j]
    ensures forall t: nat :: t in Best(threads) <==>
              t < |threads| && forall u | 0 <= u < |threads| :: threads[t].priority <= threads[u].priority
  {
    BestClassMeaning(threads, pageDirs);
    ClassAscends(threads, BestClass(threads), |threads|);
  }

  lemma {:induction false} ClassAscends(threads: seq<Thread>, p: nat, n: nat)
    requires n <= |threads|
    ensures forall i, j | 0 <= i < j < |ClassOf(threads, p, n)| :: ClassOf(threads, p, n)[i] < ClassOf(threads, p, n)[j]
  {
    if n > 0 { ClassAscends(threads, p, n - 1); }
  }

  /** The closed form of every run; a quantum is ten seconds. */
  lemma ClosedForm(threads: seq<Thread>, pageDirs: seq<nat>, tick: nat, irqs: seq<IrqContext>)
    requires Bootable(threads, pageDirs) && tick > 0
    ensures Inv(Init(threads, pageDirs), pageDirs) && Best(threads) != []
    ensures SliceLength(threads, tick) == CeilDiv(10_000_000_000, tick) > 0
    ensures Run(Init(threads, pageDirs), pageDirs, tick, irqs).current ==
              Best(threads)[ThreadAt(|irqs|, |Best(threads)|, SliceLength(threads, tick))]
  {
    RunTurns(threads, pageDirs, tick, irqs);
    SlicePositive(threads, tick);
    TurnsAt(|irqs|, |Best(threads)|, SliceLength(threads, tick));
  }

  // ---- bounded waiting --------------------------------------------------------------------------

  /** The tick after which turn number `c` begins. */
  function TurnStart(c: nat, m: nat, q: nat): nat { if c <= m then q * c else q * m + (c - m) }

  lemma TurnStarts(c: nat, m: nat, q: nat)
    requires q > 0 && m > 0
    ensures PhaseAt(TurnStart(c, m, q), m, q) == Phase(c, 0)
  {
    var t, total := TurnStart(c, m, q), q * m;
    PhaseAtClosed(t, m, q, total);
    if c < m {
      MulMonotone(q, c + 1, m);
      assert q * (c + 1) == q * c + q;
      DivModUnique(t, q, c, 0);
    }
  }

  lemma PhaseWithin(t: nat, m: nat, q: nat)
    requires q > 0 && m > 0
    ensures var c := PhaseAt(t, m, q).turns;
            TurnStart(c, m, q) <= t < TurnStart(c + 1, m, q)
  {
    var total := q * m;
    PhaseAtClosed(t, m, q, total);
    if t < total {
      SliceBound(t, m, q, total);
      SliceHolds(t, q);
    }
  }

  lemma SliceHolds(t: nat, q: nat)
    requires q > 0
    ensures q * (t / q) <= t < q * (t / q + 1)
  {
    assert q * (t / q + 1) == q * (t / q) + q;
  }

  lemma {:induction false} TurnsApart(c: nat, d: nat, m: nat, q: nat)
    requires q > 0
    ensures TurnStart(c, m, q) <= TurnStart(c + d, m, q) <= TurnStart(c, m, q) + q * d
  {
    if d > 0 {
      TurnsApart(c, d - 1, m, q);
      assert q * d == q * (d - 1) + q;
      assert q * (c + d) == q * (c + d - 1) + q;
    }
  }

  /** The next turn of thread number `j`, at most `m - 1` turns ahead. */
  lemma NextTurn(c: nat, j: nat, m: nat) returns (d: nat)
    requires j < m
    ensures d < m && (c + d) % m == j
  {
    var r := c % m;
    d := if r <= j then j - r else j + m - r;
    assert c == m * (c / m) + r;
    if r <= j {
      DivModUnique(c + d, m, c / m, j);
    } else {
      assert m * (c / m + 1) == m * (c / m) + m;
      DivModUnique(c + d, m, c / m + 1, j);
    }
  }

  /** Bounded waiting: from any tick on, every thread of the best class is current again within
      `m * q` ticks. */
  lemma BoundedWait(t: nat, j: nat, m: nat, q: nat) returns (t': nat)
    requires q > 0 && j < m
    ensures t <= t' <= t + q * m && ThreadAt(t', m, q) == j
  {
    var c := PhaseAt(t, m, q).turns;
    var d := NextTurn(c, j, m);
    PhaseWithin(t, m, q);
    if d == 0 {
      t' := t;
    } else {
      t' := TurnStart(c + d, m, q);
      TurnStarts(c + d, m, q);
      TurnsApart(c + 1, d - 1, m, q);
      TurnsApart(c, d, m, q);
      MulMonotone(q, d, m);
    }
    TurnsAt(t', m, q);
  }

  /** The same of every run: whenever it is, thread number `j` of the best class is current
      within one round of full quanta, whatever the interrupts carry. */
  lemma WaitOverRuns(threads: seq<Thread>, pageDirs: seq<nat>, tick: nat, t: nat, j: nat) returns (t': nat)
    requires Bootable(threads, pageDirs) && tick > 0 && j < |Best(threads)|
    ensures Inv(Init(threads, pageDirs), pageDirs)
    ensures t <= t' <= t + SliceLength(threads, tick) * |Best(threads)|
    ensures forall irqs: seq<IrqContext> | |irqs| == t' ::
              Run(Init(threads, pageDirs), pageDirs, tick, irqs).current == Best(threads)[j]
  {
    InitInv(threads, pageDirs);
    SlicePositive(threads, tick);
    t' := BoundedWait(t, j, |Best(threads)|, SliceLength(threads, tick));
    forall irqs: seq<IrqContext> | |irqs| == t'
      ensures Run(Init(threads, pageDirs), pageDirs, tick, irqs).current == Best(threads)[j]
    {
      ClosedForm(threads, pageDirs, tick, irqs);
    }
  }
}
