/** The NPC cache of gdb.c in front of a core whose NPC register reads as zero from the moment
    it is written until the core runs again. */
module NpcCache {
  import opened Common

  datatype StallState = Stalled | Unstalled | Unknown

  /** The processor: where it is, whether it runs, whether a write has flushed its pipeline. */
  datatype Core = Core(running: bool, npc: Uint32, flushed: bool)

  /** stallState, npcIsCached, npcCachedValue and rsp.client_waiting, with the core behind them. */
  datatype Stub = Stub(stall: StallState, cached: bool, value: Uint32, waiting: bool, core: Core)

  function NpcRegister(c: Core): Uint32 { if c.flushed then 0 else c.npc }

  function WriteNpc(c: Core, a: Uint32): Core { c.(npc := a, flushed := !c.running) }

  // ---------------------------------------------------------------- the C functions as specifications

  function AfterGet(s: Stub): Stub {
    if s.stall.Stalled? && !s.cached then s.(cached := true, value := NpcRegister(s.core)) else s
  }

  function GetResult(s: Stub): Uint32 {
    if s.stall.Stalled? && s.cached then s.value else NpcRegister(s.core)
  }

  function AfterSet(s: Stub, a: Uint32): Stub {
    var g := AfterGet(s);
    if a == GetResult(s) then g
    else
      var w := g.(core := WriteNpc(g.core, a));
      if w.stall.Stalled? then w.(value := a, cached := true) else w.(cached := false)
  }

  function AfterUnstall(s: Stub): Stub {
    s.(stall := Unstalled, cached := false, core := s.core.(running := true, flushed := false))
  }

  function AfterStall(s: Stub): Stub { s.(stall := Stalled, core := s.core.(running := false)) }

  function AfterCheck(s: Stub): Stub {
    if s.core.running then s else s.(stall := Stalled, cached := false)
  }

  /** After rsp_init, with the processor held at npc. */
  function Initial(npc: Uint32): Stub { Stub(Stalled, true, npc, false, Core(false, npc, false)) }

  // ---------------------------------------------------------------- the imperative code

  class Gdb {
    var stallState: StallState
    var npcIsCached: bool
    var npcCachedValue: Uint32
    var clientWaiting: bool
    var core: Core

    function State(): Stub
      reads this
    {
      Stub(stallState, npcIsCached, npcCachedValue, clientWaiting, core)
    }

    /** rsp_init, with the processor held after reset. */
    constructor (npc: Uint32)
      ensures State() == Initial(npc)
    {
      core := Core(false, npc, false);
      clientWaiting, stallState, npcIsCached, npcCachedValue := false, Stalled, false, 0;
      new;
      var _ := GetNpc();
    }

    method GetNpc() returns (npc: Uint32)
      modifies this
      ensures npc == GetResult(old(State())) && State() == AfterGet(old(State()))
    {
      if stallState == Stalled {
        if !npcIsCached {
          npcCachedValue := NpcRegister(core);
          npcIsCached := true;
        }
        npc := npcCachedValue;
      } else {
        npc := NpcRegister(core);
      }
    }

    method SetNpc(addr: Uint32)
      modifies this
      ensures State() == AfterSet(old(State()), addr)
    {
      var current := GetNpc();
      if addr != current {
        core := WriteNpc(core, addr);
        if stallState == Stalled {
          npcCachedValue := addr;
          npcIsCached := true;
        } else {
          npcIsCached := false;
        }
      }
    }

    method SetStallState(state: bool)
      modifies this
      ensures State() == if state then AfterStall(old(State())) else AfterUnstall(old(State()))
    {
      if !state {
        core := core.(running := true, flushed := false);
        stallState := Unstalled;
        npcIsCached := false;
      } else {
        core := core.(running := false);
        stallState := Stalled;
      }
    }

    method RspCheckForException()
      modifies this
      ensures State() == AfterCheck(old(State()))
    {
      if core.running {
        return;
      }
      stallState := Stalled;
      npcIsCached := false;
    }
  }

  // ---------------------------------------------------------------- runs

  /** What reaches the stub: packets of the debugger, polls of the main loop (with the address
      of a memory breakpoint that was hit, if any), and the core moving on its own. */
  datatype Event =
    | Get
    | Set(addr: Uint32)
    | Continue(addr: Uint32)
    | Interrupt
    | Poll(breakpoint: Option<Uint32>)
    | CoreAt(npc: Uint32, halts: bool)
    | CycleStep

  /** handle_rsp: packets are read while no reply is outstanding, the core is polled while one
      is, and an interrupt is taken while the stub believes the core runs. */
  function Handle(s: Stub, e: Event): Stub {
    match e
    case Get => if s.waiting then s else AfterGet(s)
    case Set(a) => if s.waiting then s else AfterSet(s, a)
    case Continue(a) => if s.waiting then s else AfterUnstall(AfterSet(s, a)).(waiting := true)
    case Interrupt => if s.stall.Stalled? then s else AfterStall(s).(waiting := false)
    case Poll(bp) =>
      if !s.waiting then s
      else
        var c := AfterCheck(s);
        if !c.stall.Stalled? then c
        else if bp.Some? then AfterSet(c, bp.value).(waiting := false)
        else c.(waiting := false)
    case CoreAt(npc, halts) =>
      if s.core.running then s.(core := Core(!halts, npc, false)) else s
    case CycleStep => if s.waiting then s else s.(waiting := true)
  }

  /** The address the debugger has to see: the last one it set in this stall period, or else
      where the period began. None while the core is let run. */
  function Expect(v: Option<Uint32>, s: Stub, e: Event): Option<Uint32> {
    match e
    case Set(a) => if s.waiting then v else Some(a)
    case Continue(_) => if s.waiting then v else None
    case Interrupt => if s.stall.Stalled? then v else Some(s.core.npc)
    case Poll(bp) =>
      if !s.waiting || s.core.running then v
      else if bp.Some? then bp
      else if v.Some? then v
      else Some(s.core.npc)
    case _ => v
  }

  /** The NPC register in this stall period: still readable, written and held in the cache, or
      written and then dropped from the cache. */
  datatype Mark = Readable | Written | Dropped

  /** The address a read reports in a stall period in which expected is the right one. */
  function Reported(m: Mark, expected: Uint32): Uint32 { if m.Dropped? then 0 else expected }

  /** Setting an address writes the register unless it is the one already reported. */
  function MarkSet(m: Mark, expected: Uint32, a: Uint32): Mark {
    if a == Reported(m, expected) then m else Written
  }

  function NextMark(m: Mark, v: Option<Uint32>, s: Stub, e: Event): Mark {
    match e
    case Set(a) => if s.waiting || v == None then m else MarkSet(m, v.value, a)
    case Continue(_) => if s.waiting then m else Readable
    case Interrupt => if s.stall.Stalled? then m else Readable
    case Poll(bp) =>
      if !s.waiting || s.core.running then m
      else
        var m' := if m.Written? then Dropped else m;
        if bp.Some? then MarkSet(m', if v.Some? then v.value else s.core.npc, bp.value) else m'
    case _ => m
  }

  predicate Consistent(s: Stub, v: Option<Uint32>, m: Mark) {
    if s.stall.Stalled? then
      && !s.core.running && v.Some? && s.core.flushed == !m.Readable?
      && (m.Written? ==> s.cached)
      && (s.cached ==> s.value == Reported(m, v.value))
      && (s.core.npc == v.value || (m.Dropped? && v.value == 0))
    else
      s.stall.Unstalled? && s.waiting && !s.cached && !s.core.flushed && v == None && m.Readable?
  }

  function Run(s: Stub, es: seq<Event>): Stub {
    if es == [] then s else Handle(Run(s, es[..|es| - 1]), es[|es| - 1])
  }

  function Expected(s: Stub, v: Option<Uint32>, es: seq<Event>): Option<Uint32> {
    if es == [] then v
    else
      var front := es[..|es| - 1];
      Expect(Expected(s, v, front), Run(s, front), es[|es| - 1])
  }

  function MarkAfter(s: Stub, v: Option<Uint32>, m: Mark, es: seq<Event>): Mark {
    if es == [] then m
    else
      var front := es[..|es| - 1];
      NextMark(MarkAfter(s, v, m, front), Expected(s, v, front), Run(s, front), es[|es| - 1])
  }

  lemma InitialConsistent(npc: Uint32)
    ensures Consistent(Initial(npc), Some(npc), Readable)
  {
  }

  lemma HandleConsistent(s: Stub, v: Option<Uint32>, m: Mark, e: Event)
    requires Consistent(s, v, m)
    ensures Consistent(Handle(s, e), Expect(v, s, e), NextMark(m, v, s, e))
  {
  }

  lemma {:induction false} RunConsistent(s: Stub, v: Option<Uint32>, m: Mark, es: seq<Event>)
    requires Consistent(s, v, m)
    ensures Consistent(Run(s, es), Expected(s, v, es), MarkAfter(s, v, m, es))
  {
    if es != [] {
      var front := es[..|es| - 1];
      RunConsistent(s, v, m, front);
      HandleConsistent(Run(s, front), Expected(s, v, front), MarkAfter(s, v, m, front), es[|es| - 1]);
    }
  }

  /** Over every run, with cycle-step packets anywhere: the NPC reported when a packet can be
      answered is the expected one if and only if no cycle step was answered since the register
      was last written in this stall period, or the expected address is the zero it reads as.
      A cached value never survives an unstall. */
  lemma NpcIsAsExpected(s: Stub, v: Option<Uint32>, m: Mark, es: seq<Event>)
    requires Consistent(s, v, m)
    ensures var s', v', m' := Run(s, es), Expected(s, v, es), MarkAfter(s, v, m, es);
            && (!s'.waiting ==> v'.Some? && GetResult(s') == Reported(m', v'.value))
            && (!s'.waiting ==> (Some(GetResult(s')) == v' <==> !m'.Dropped? || v' == Some(0)))
            && (s'.stall.Unstalled? ==> !s'.cached)
  {
    RunConsistent(s, v, m, es);
  }

  /** Without cycle-step packets nothing is dropped: the stub waits only for a core it let run. */
  lemma {:induction false} NothingDropped(s: Stub, v: Option<Uint32>, m: Mark, es: seq<Event>)
    requires Consistent(s, v, m) && !m.Dropped? && (s.waiting ==> s.stall.Unstalled?) && CycleStep !in es
    ensures !MarkAfter(s, v, m, es).Dropped? && (Run(s, es).waiting ==> Run(s, es).stall.Unstalled?)
  {
    if es != [] {
      var front := es[..|es| - 1];
      assert es[|es| - 1] in es && forall e :: e in front ==> e in es;
      NothingDropped(s, v, m, front);
      RunConsistent(s, v, m, front);
    }
  }

  /** So without them every reported NPC is the expected one. */
  lemma NpcRightWithoutCycleSteps(npc: Uint32, es: seq<Event>)
    requires CycleStep !in es && !Run(Initial(npc), es).waiting
    ensures Some(GetResult(Run(Initial(npc), es))) == Expected(Initial(npc), Some(npc), es)
  {
    InitialConsistent(npc);
    NothingDropped(Initial(npc), Some(npc), Readable, es);
    NpcIsAsExpected(Initial(npc), Some(npc), Readable, es);
  }

  /** Reading does not disturb what later reads return; they are answered from the cache. */
  lemma GetIsIdempotent(s: Stub, v: Option<Uint32>, m: Mark)
    requires Consistent(s, v, m) && !s.waiting
    ensures GetResult(Handle(s, Get)) == GetResult(s) && Consistent(Handle(s, Get), v, m)
    ensures Handle(s, Get).cached && Handle(s, Get).value == GetResult(s) && Handle(s, Get).core == s.core
  {
  }

  /** What else a dropped cache does: the debugger sets the address zero, which is what the
      register reads as, so nothing is written and the core goes on from where it was. */
  lemma ZeroIsNotWritten(s: Stub, v: Option<Uint32>)
    requires Consistent(s, v, Dropped) && !s.waiting
    ensures Handle(s, Set(0)).core == s.core && Expect(v, s, Set(0)) == Some(0)
    ensures Handle(s, Continue(0)).core.npc == s.core.npc
  {
  }

  /** And it does go wrong: an address is set, a cycle-step packet drops the cache, and the
      debugger is told that the core is at zero. */
  lemma WrongNpcExists(npc: Uint32) returns (es: seq<Event>)
    requires npc != 8
    ensures !Run(Initial(npc), es).waiting && GetResult(Run(Initial(npc), es)) == 0
    ensures Expected(Initial(npc), Some(npc), es) == Some(8)
  {
    var s := Initial(npc);
    es := [Set(8), CycleStep, Poll(None)];
    assert es[..2] == [Set(8), CycleStep] && es[..2][..1] == [Set(8)] && es[..2][..1][..0] == [];
    assert Run(s, [Set(8)]) == Handle(s, Set(8)) && Expected(s, Some(npc), [Set(8)]) == Some(8);
    assert Run(s, [Set(8), CycleStep]) == Handle(Handle(s, Set(8)), CycleStep);
    assert Expected(s, Some(npc), [Set(8), CycleStep]) == Some(8);
  }

  // ---------------------------------------------------------------- single events

  /** A set address is reported at once. */
  lemma SetReported(s: Stub, v: Option<Uint32>, m: Mark, a: Uint32)
    requires Consistent(s, v, m) && !s.waiting
    ensures GetResult(Handle(s, Set(a))) == a && Expect(v, s, Set(a)) == Some(a)
  {
  }

  /** A core that is interrupted, or found stopped, is reported where it is, and one stopped at a
      breakpoint at the breakpoint. */
  lemma StopReported(s: Stub, v: Option<Uint32>, m: Mark, bp: Uint32)
    requires Consistent(s, v, m) && s.stall.Unstalled?
    ensures !Handle(s, Interrupt).waiting && GetResult(Handle(s, Interrupt)) == s.core.npc
    ensures Expect(v, s, Interrupt) == Some(s.core.npc)
    ensures !s.core.running ==>
              && !Handle(s, Poll(None)).waiting && GetResult(Handle(s, Poll(None))) == s.core.npc
              && Expect(v, s, Poll(None)) == Some(s.core.npc)
              && !Handle(s, Poll(Some(bp))).waiting && GetResult(Handle(s, Poll(Some(bp)))) == bp
              && Expect(v, s, Poll(Some(bp))) == Some(bp)
    ensures s.core.running ==> Handle(s, Poll(None)) == s
  {
  }

  /** Continuing lets the core run, from the address given if and only if it is not the zero that
      a dropped cache reports while the core is elsewhere. */
  lemma ContinueResumes(s: Stub, v: Option<Uint32>, m: Mark, a: Uint32)
    requires Consistent(s, v, m) && !s.waiting
    ensures var s' := Handle(s, Continue(a));
            && s'.core.running && s'.stall.Unstalled? && s'.waiting
            && (s'.core.npc == a <==> !(m.Dropped? && a == 0 && s.core.npc != 0))
  {
  }
}
