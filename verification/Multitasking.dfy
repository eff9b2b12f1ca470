/**
 From the boot to multitasking: the processes that the module loop leaves are the ones the
 scheduler starts with, and whichever runs, its own program is what it sees.
 */
module Multitasking {
  import opened Arith
  import opened Threads
  import opened SchedModel
  import opened SchedRuns
  import opened SchedClosedForm
  import BootModules
  import Boot

  /** One thread a process, not yet queued. */
  function ThreadsFrom(procs: seq<BootModules.Proc>): (ths: seq<Thread>)
    ensures |ths| == |procs|
    ensures forall i | 0 <= i < |ths| :: ths[i] == Thread(procs[i].priority, 0, false, procs[i].context, i)
  {
    seq(|procs|, i requires 0 <= i < |procs| => Thread(procs[i].priority, 0, false, procs[i].context, i))
  }

  function PageDirs(procs: seq<BootModules.Proc>): (dirs: seq<nat>)
    ensures |dirs| == |procs| && forall i | 0 <= i < |dirs| :: dirs[i] == procs[i].pageDir
  {
    seq(|procs|, i requires 0 <= i < |procs| => procs[i].pageDir)
  }

  /** All processes have priority zero. */
  predicate Equals(ths: seq<Thread>) {
    ths != [] && forall t | 0 <= t < |ths| :: ths[t].priority == 0 && ths[t].proc == t
  }

  lemma {:induction false} OneClass(ths: seq<Thread>, n: nat)
    requires Equals(ths) && n <= |ths|
    ensures |ClassOf(ths, 0, n)| == n && forall i | 0 <= i < n :: ClassOf(ths, 0, n)[i] == i
  {
    if n > 0 { OneClass(ths, n - 1); }
  }

  /** Among equals, whose turn it is depends on the time alone. */
  lemma TurnOfEquals(ths: seq<Thread>, dirs: seq<nat>, tick: nat, irqs: seq<IrqContext>)
    requires Bootable(ths, dirs) && Equals(ths) && tick > 0
    ensures Inv(Init(ths, dirs), dirs) && CeilDiv(10_000_000_000, tick) > 0
    ensures Run(Init(ths, dirs), dirs, tick, irqs).current == ThreadAt(|irqs|, |ths|, CeilDiv(10_000_000_000, tick))
  {
    BestClassMeaning(ths, dirs);
    OneClass(ths, |ths|);
    ClosedForm(ths, dirs, tick, irqs);
  }

  /** The process of a thread never changes. */
  lemma {:induction false} ProcsStay(ths: seq<Thread>, dirs: seq<nat>, tick: nat, irqs: seq<IrqContext>, t: nat)
    requires Bootable(ths, dirs) && t < |ths|
    ensures Inv(Init(ths, dirs), dirs)
    ensures var r := Run(Init(ths, dirs), dirs, tick, irqs); |r.threads| == |ths| && r.threads[t].proc == ths[t].proc
  {
    InitInv(ths, dirs);
    if irqs != [] {
      var n := |irqs| - 1;
      ProcsStay(ths, dirs, tick, irqs[..n], t);
      ProcStays(Run(Init(ths, dirs), dirs, tick, irqs[..n]), dirs, tick, irqs[n], t);
    }
  }

  lemma ProcStays(s: Sched, dirs: seq<nat>, tick: nat, irq: IrqContext, t: nat)
    requires Inv(s, dirs) && t < |s.threads|
    ensures var s' := Tick(s, dirs, tick, irq); |s'.threads| == |s.threads| && s'.threads[t].proc == s.threads[t].proc
  {
    var c := Charge(s, tick, irq);
    ChargeInv(s, dirs, tick, irq);
    if c.threads[c.current].quantum == 0 { Rotate(c, dirs); }
  }

  /** After the boot and any number of ticks: the program whose turn it is has its own directory
      loaded, and through it every segment reads the file that the boot loader had handed over. */
  lemma RunningProgram(orig: seq<nat>, p: Boot.Plan, log: Boot.Log, procs: seq<BootModules.Proc>, tick: nat,
                       irqs: seq<IrqContext>)
    requires Boot.Up(orig, p, log) && BootModules.ProcsOk(procs, log.ls, p.Files()) && procs != [] && tick > 0
    ensures var ths, dirs := ThreadsFrom(procs), PageDirs(procs);
            && Bootable(ths, dirs) && Inv(Init(ths, dirs), dirs) && CeilDiv(10_000_000_000, tick) > 0
            && var s := Run(Init(ths, dirs), dirs, tick, irqs);
               && s.current == ThreadAt(|irqs|, |procs|, CeilDiv(10_000_000_000, tick)) < |p.modules|
               && s.cr3 == 4096 * log.ls[s.current].pd
               && Boot.FileSeen(log.Final().mem, log.ls[s.current].pd, Boot.ProgramFile(orig, p.modules[s.current]))
  {
    var ths, dirs := ThreadsFrom(procs), PageDirs(procs);
    forall t | 0 <= t < |ths| ensures ths[t].priority == 0 && ths[t].proc == t {
      assert BootModules.ProcOk(procs[t], t + 1, log.ls[t], p.Files()[t]);
    }
    TurnOfEquals(ths, dirs, tick, irqs);
    var s := Run(Init(ths, dirs), dirs, tick, irqs);
    ProcsStay(ths, dirs, tick, irqs, s.current);
    assert BootModules.ProcOk(procs[s.current], s.current + 1, log.ls[s.current], p.Files()[s.current]);
    Boot.ProgramsLoaded(orig, p, log, s.current);
  }
}
