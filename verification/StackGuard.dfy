/**
  Where delivery saves a signal frame (signal.rs) against the stack an image is built with (elf.rs,
  process.rs): what the guard on the stack pointer promises.
 */
module StackGuard {
  import opened Prelude
  import opened ElfFormat
  import Signals
  import Elf

  /** The saved frame of `p`, 160 bytes below its stack pointer, lies in [lo, hi). */
  predicate FrameWithin(p: Signals.Proc, lo: nat, hi: nat) {
    lo + Signals.SIGFRAME_SIZE <= p.frame.rsp <= hi
  }

  /** Every byte of the frame is on a mapped stack page of an ELF image. */
  ghost predicate OnElfStack(p: Signals.Proc) {
    forall a: nat :: a < p.frame.rsp <= a + Signals.SIGFRAME_SIZE ==> Elf.StackPage(Down(a))
  }

  lemma StackByte(a: nat)
    ensures Elf.StackPage(Down(a)) <==> 0x21F1000 <= a < 0x2201000
  {
    Multiples(Down(a), 0x21F1000);
    Multiples(0x21F1000, Down(a));
    Multiples(Down(a), 0x2200000);
    Multiples(0x2200000, Down(a));
  }

  /**
    For a process with an ELF image the guard admits stack pointers one page too low: a frame it lets
    through lies on the stack exactly when the stack pointer is at least a page above the guard's bound
    and not above the top of the stack.
   */
  lemma FrameOnStack(p: Signals.Proc)
    requires p.stackLow == ELF_STACK_LOW && Signals.StackRoom(p)
    ensures OnElfStack(p) <==> FrameWithin(p, ELF_STACK_LOW + 0x1000, 0x2201000)
  {
    var rsp := p.frame.rsp;
    assert rsp >= ELF_STACK_LOW + Signals.SIGFRAME_SIZE;
    StackByte(rsp - Signals.SIGFRAME_SIZE);
    StackByte(rsp - 1);
    if FrameWithin(p, ELF_STACK_LOW + 0x1000, 0x2201000) {
      forall a: nat | a < rsp <= a + Signals.SIGFRAME_SIZE ensures Elf.StackPage(Down(a)) {
        StackByte(a);
      }
    } else {
      assert !Elf.StackPage(Down(rsp - Signals.SIGFRAME_SIZE)) || !Elf.StackPage(Down(rsp - 1));
    }
  }

  /** Such a process: the guard lets it through, and its frame would be saved below the stack. */
  lemma BelowStack(p: Signals.Proc)
    requires p.stackLow == ELF_STACK_LOW && p.frame.rsp == 0x21F0100
    ensures Signals.StackRoom(p) && !OnElfStack(p)
  {
    FrameOnStack(p);
  }

  /** A flat image has one stack page, at its bound: there the guard keeps every frame on it. */
  lemma FlatFrame(p: Signals.Proc)
    requires p.stackLow + Signals.SIGFRAME_SIZE < U64 && p.frame.rsp <= p.stackLow + 0x1000
    ensures Signals.StackRoom(p) <==> FrameWithin(p, p.stackLow, p.stackLow + 0x1000)
  {
  }
}
