/** Saved thread contexts: `native_create_thread` and `arch_update_exec_ctx`. */
module Threads {

  datatype GpRegs = GpRegs(edi: nat, esi: nat, ebp: nat, esp: nat, edx: nat, ecx: nat, ebx: nat, eax: nat)

  datatype Context = Context(ds: nat, gp: GpRegs, err: nat, eip: nat, cs: nat, eflags: nat, esp: nat, ss: nat)

  /** The registers an interrupt pushes. */
  datatype IrqContext = IrqContext(edi: nat, esi: nat, ebp: nat, ebx: nat, edx: nat, ecx: nat, eax: nat,
                                   eip: nat, eflags: nat, esp: nat)

  const ZERO_REGS := GpRegs(0, 0, 0, 0, 0, 0, 0, 0)

  /** A new thread starts at its entry point with interrupts enabled and all registers zero. */
  function CreateThread(before: Context, entry: nat, stack: nat): Context {
    Context(0x23, ZERO_REGS, before.err, entry, 0x1B, 0x202, stack, 0x23)
  }

  /** `after` has the registers of the interrupt frame, each in its own field, and otherwise what
      `before` had. */
  predicate Interrupted(before: Context, irq: IrqContext, after: Context) {
    && after.eip == irq.eip && after.esp == irq.esp && after.eflags == irq.eflags
    && after.gp.eax == irq.eax && after.gp.ebx == irq.ebx && after.gp.ecx == irq.ecx && after.gp.edx == irq.edx
    && after.gp.edi == irq.edi && after.gp.esi == irq.esi
    && after.gp.ebp == before.gp.ebp && after.gp.esp == before.gp.esp
    && after.ds == before.ds && after.cs == before.cs && after.ss == before.ss && after.err == before.err
  }

  /** What a tick saves of the interrupted thread; `ebp` and the segments are not saved. */
  function UpdateContext(c: Context, irq: IrqContext): Context {
    c.(eip := irq.eip, esp := irq.esp, eflags := irq.eflags,
       gp := c.gp.(eax := irq.eax, ebx := irq.ebx, ecx := irq.ecx, edx := irq.edx, edi := irq.edi, esi := irq.esi))
  }
}
