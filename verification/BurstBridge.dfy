/** The Wishbone-to-Avalon bridge with burst support (wb_to_avalon_bridge.v, burst_enable
    branch) as a step function on its registers, in parallel with an arbitrary in-order
    Avalon slave. The slave chooses waitrequest and readdatavalid freely in every cycle;
    it only may not answer a read it has not accepted in an earlier cycle. */
module BurstBridge {
  import opened WbBurst

  type Nibble = n: nat | n < 16
  type Cti = c: nat | c < 8
  type Word = nat

  const INC_BURST: Cti := 2

  datatype State = Idle | Read | Write | Burst | FlushPipe

  datatype Bridge = Bridge(state: State, pending: Nibble, left: Nibble, adr: Addr, readReq: bool)

  /** Everything the bridge samples at one clock edge. respData is the word the slave will
      return for a read it accepts in this cycle. */
  datatype Wires = Wires(
    rst: bool, adr: Addr, we: bool, cyc: bool, stb: bool, cti: Cti, bte: Bte,
    waitRequest: bool, readDataValid: bool, respData: Word)

  datatype Req = Req(addr: Addr, data: Word)

  /** The bridge and the reads the slave has accepted and not yet returned. */
  datatype System = System(b: Bridge, q: seq<Req>)

  // ---------------------------------------------------------------- combinational outputs

  predicate CycStb(w: Wires) { w.cyc && w.stb }

  predicate BurstReq(w: Wires) { CycStb(w) && w.cti == INC_BURST }

  function CurrAdr(b: Bridge, w: Wires): Addr { if b.state.Idle? then w.adr else b.adr }

  function NextAdr(b: Bridge, w: Wires): Addr { NextAddr(CurrAdr(b, w), w.bte) }

  predicate AvRead(b: Bridge, w: Wires) { (CycStb(w) && !w.we && b.state.Idle?) || b.readReq }

  predicate WbAck(b: Bridge, w: Wires) {
    (w.readDataValid && !b.state.FlushPipe?) || b.state.Write?
  }

  /** Beats the bridge pipelines for a burst type. */
  function BurstBeats(t: Bte): nat {
    match t
    case Wrap4 => 4
    case Linear => 8
    case Wrap8 => 8
    case Wrap16 => 16
  }

  // ---------------------------------------------------------------- the clocked block

  function Dec(n: Nibble): Nibble { if n == 0 then 15 else n - 1 }

  function Inc(n: Nibble): Nibble { if n == 15 then 0 else n + 1 }

  function StepIdle(b: Bridge, w: Wires): Bridge {
    var idle := b.(pending := 0, adr := w.adr, readReq := false);
    if !(CycStb(w) && !w.waitRequest) then idle
    else if w.we then idle.(state := Write)
    else if BurstReq(w) then
      Bridge(Burst, 1, BurstBeats(w.bte) - 2, NextAdr(b, w), true)
    else idle.(state := Read)
  }

  function StepBurst(b: Bridge, w: Wires): Bridge {
    var issue := !w.waitRequest && b.left != 0;
    var pending :=
      if issue then (if w.readDataValid then b.pending else Inc(b.pending))
      else if w.readDataValid then Dec(b.pending) else b.pending;
    var left := if issue then b.left - 1 else b.left;
    var adr := if issue then NextAdr(b, w) else b.adr;
    var allIssued := b.left == 0 && !(w.waitRequest && b.readReq);
    var state :=
      if w.readDataValid && !BurstReq(w) && b.pending != 0 then FlushPipe
      else if allIssued && w.readDataValid && b.pending == 0 then Idle
      else Burst;
    Bridge(state, pending, left, adr, !allIssued)
  }

  function StepFlush(b: Bridge, w: Wires): Bridge {
    if w.readDataValid then
      b.(readReq := false, pending := Dec(b.pending), state := if b.pending == 0 then Idle else FlushPipe)
    else b.(readReq := false)
  }

  function Step(b: Bridge, w: Wires): Bridge {
    var b' := match b.state
      case Idle => StepIdle(b, w)
      case Read => b.(readReq := false, state := if w.readDataValid then Idle else Read)
      case Burst => StepBurst(b, w)
      case FlushPipe => StepFlush(b, w)
      case Write => b.(readReq := false, state := Idle);
    if w.rst then b'.(readReq := false, state := Idle) else b'
  }

  // ---------------------------------------------------------------- bridge and slave together

  /** Latency at least one: only a read accepted earlier can be answered. */
  predicate SlaveOk(s: System, w: Wires) { w.readDataValid ==> s.q != [] }

  function Accepted(s: System, w: Wires): seq<Req> {
    if AvRead(s.b, w) && !w.waitRequest then [Req(CurrAdr(s.b, w), w.respData)] else []
  }

  /** One clock of both sides; reset empties the slave as well. */
  function Clock(s: System, w: Wires): System
    requires SlaveOk(s, w)
  {
    var rest := if w.readDataValid then s.q[1..] else s.q;
    System(Step(s.b, w), if w.rst then [] else rest + Accepted(s, w))
  }

  predicate AfterReset(s: System) { s.b.state.Idle? && !s.b.readReq && s.q == [] }

  predicate IsRun(states: seq<System>, ws: seq<Wires>) {
    && |states| == |ws| + 1
    && AfterReset(states[0])
    && forall i :: 0 <= i < |ws| ==> SlaveOk(states[i], ws[i]) && states[i + 1] == Clock(states[i], ws[i])
  }

  // ---------------------------------------------------------------- accounting

  /** A read request dropped in the first drain cycle leaves the counter one too high. */
  predicate Stuck(s: System) {
    s.b.state.FlushPipe? && !s.b.readReq && |s.q| == s.b.pending
  }

  predicate Draining(s: System) {
    s.b.state.FlushPipe? && |s.q| + (if s.b.readReq then 1 else 0) == s.b.pending + 1
  }

  predicate Accounted(s: System) {
    match s.b.state
    case Idle => !s.b.readReq && s.q == []
    case Write => !s.b.readReq && s.q == []
    case Read => !s.b.readReq && |s.q| == 1
    case Burst =>
      && s.b.pending + s.b.left <= 15
      && if s.b.readReq then |s.q| == s.b.pending else s.b.left == 0 && |s.q| == s.b.pending + 1
    case FlushPipe => Draining(s) || Stuck(s)
  }

  /** The one environment event that loses a read: waitrequest while the bridge drops the
      request it still asserts in its first drain cycle. */
  predicate Dropped(s: System, w: Wires) {
    s.b.state.FlushPipe? && s.b.readReq && w.waitRequest
  }

  lemma BurstKeepsAccount(s: System, w: Wires)
    requires Accounted(s) && SlaveOk(s, w) && s.b.state.Burst? && !w.rst
    ensures Accounted(Clock(s, w)) && !Stuck(Clock(s, w))
  {
  }

  /** Every cycle keeps the account, whatever master and slave do; the stuck state is
      entered by a dropped request and by nothing else, and left by reset alone. */
  lemma ClockKeepsAccount(s: System, w: Wires)
    requires Accounted(s) && SlaveOk(s, w)
    ensures Accounted(Clock(s, w))
    ensures Stuck(Clock(s, w)) <==> !w.rst && (Stuck(s) || Dropped(s, w))
  {
    if s.b.state.Burst? && !w.rst {
      BurstKeepsAccount(s, w);
    }
  }

  /** Accounting on whole runs: outstanding reads equal pending_reads until the last request
      is accepted and pending_reads + 1 after it, and IDLE means nothing is outstanding. */
  lemma {:induction false} RunAccounting(states: seq<System>, ws: seq<Wires>, n: nat)
    requires IsRun(states, ws) && n <= |ws|
    ensures Accounted(states[n])
    ensures states[n].b.state.Idle? ==> states[n].q == []
    ensures states[n].b.state.Burst? ==>
              |states[n].q| == states[n].b.pending + (if states[n].b.readReq then 0 else 1)
  {
    if n > 0 {
      RunAccounting(states, ws, n - 1);
      ClockKeepsAccount(states[n - 1], ws[n - 1]);
    }
  }

  /** No counter wraps while the bridge is busy: the registers move by exactly the number of
      reads accepted minus the number returned. */
  lemma CountersDoNotWrap(s: System, w: Wires)
    requires Accounted(s) && SlaveOk(s, w) && !w.rst
    requires s.b.state.Burst? || s.b.state.FlushPipe?
    ensures var b' := Step(s.b, w);
            !b'.state.Idle? ==>
              && b'.left == s.b.left - (if s.b.state.Burst? && !w.waitRequest && s.b.left != 0 then 1 else 0)
              && b'.pending == s.b.pending
                   + (if s.b.state.Burst? && !w.waitRequest && s.b.left != 0 then 1 else 0)
                   - (if w.readDataValid then 1 else 0)
  {
    if s.b.state.Burst? {
      BurstKeepsAccount(s, w);
    }
  }

  /** A drain that lost nothing ends exactly when the last outstanding read returns. */
  lemma DrainEndsWithLastRead(s: System, w: Wires)
    requires Draining(s) && SlaveOk(s, w) && !w.rst && !Dropped(s, w)
    ensures Clock(s, w).b.state.Idle? <==> w.readDataValid && |s.q| == 1 && !s.b.readReq
    ensures !Clock(s, w).b.state.Idle? ==> Draining(Clock(s, w))
  {
  }

  predicate ResetBetween(ws: seq<Wires>, i: nat, j: nat)
    requires i <= j <= |ws|
  {
    exists k :: i <= k < j && ws[k].rst
  }

  /** Some cycle before n dropped a request and no reset came since. */
  predicate DroppedSince(states: seq<System>, ws: seq<Wires>, n: nat)
    requires n <= |ws| < |states|
  {
    exists k :: 0 <= k < n && Dropped(states[k], ws[k]) && !ResetBetween(ws, k, n)
  }

  lemma ResetStep(ws: seq<Wires>, k: nat, n: nat)
    requires k < n <= |ws|
    ensures ResetBetween(ws, k, n) <==> ws[n - 1].rst || ResetBetween(ws, k, n - 1)
  {
  }

  lemma DroppedStep(states: seq<System>, ws: seq<Wires>, n: nat)
    requires 0 < n <= |ws| < |states|
    ensures DroppedSince(states, ws, n) <==>
            !ws[n - 1].rst && (DroppedSince(states, ws, n - 1) || Dropped(states[n - 1], ws[n - 1]))
  {
    forall k: nat | k < n
      ensures ResetBetween(ws, k, n) <==> ws[n - 1].rst || ResetBetween(ws, k, n - 1)
    {
      ResetStep(ws, k, n);
    }
    assert !ResetBetween(ws, n - 1, n - 1);
  }

  /** Exactly when the drain hangs. */
  lemma {:induction false} StuckIffDropped(states: seq<System>, ws: seq<Wires>, n: nat)
    requires IsRun(states, ws) && n <= |ws|
    ensures Stuck(states[n]) <==> DroppedSince(states, ws, n)
  {
    if n > 0 {
      StuckIffDropped(states, ws, n - 1);
      RunAccounting(states, ws, n - 1);
      ClockKeepsAccount(states[n - 1], ws[n - 1]);
      DroppedStep(states, ws, n);
    }
  }

  /** A stuck bridge stays in FLUSH_PIPE and acknowledges nothing until reset. */
  lemma StuckNeverAcks(s: System, w: Wires)
    requires Stuck(s) && SlaveOk(s, w)
    ensures !WbAck(s.b, w)
    ensures !w.rst ==> Stuck(Clock(s, w)) && !AvRead(Clock(s, w).b, w)
  {
    ClockKeepsAccount(s, w);
  }

  /** The loss is reachable: a four-beat burst abandoned after its first beat, with the slave
      waiting in the next cycle. */
  lemma DroppedRequestExists() returns (states: seq<System>, ws: seq<Wires>)
    ensures IsRun(states, ws) && |ws| == 3 && Stuck(states[3])
  {
    var s0 := System(Bridge(Idle, 0, 0, 0, false), []);
    var w0 := Wires(false, 0, false, true, true, INC_BURST, Wrap4, false, false, 7);
    var w1 := Wires(false, 0, false, true, true, 7, Wrap4, true, true, 7);
    var w2 := Wires(false, 0, false, false, false, 0, Wrap4, true, false, 7);
    var s1 := Clock(s0, w0);
    var s2 := Clock(s1, w1);
    states := [s0, s1, s2, Clock(s2, w2)];
    ws := [w0, w1, w2];
  }

  // ---------------------------------------------------------------- burst data

  /** The system with the reads accepted and the beats acknowledged since the burst began. */
  datatype Trace = Trace(s: System, accepted: seq<Req>, acked: seq<Req>)

  /** The master holds the burst of type t at address a until its last beat, which it may
      mark as end of burst. */
  predicate HoldsBurst(tr: Trace, w: Wires, a: Addr, t: Bte) {
    && SlaveOk(tr.s, w) && !w.rst
    && w.cyc && w.stb && !w.we && w.bte == t
    && (tr.s.b.state.Idle? ==> w.adr == a && w.cti == INC_BURST)
    && (|tr.acked| < BurstBeats(t) - 1 ==> w.cti == INC_BURST)
  }

  function ClockTrace(tr: Trace, w: Wires): Trace
    requires SlaveOk(tr.s, w)
  {
    Trace(
      Clock(tr.s, w),
      tr.accepted + Accepted(tr.s, w),
      if WbAck(tr.s.b, w) && tr.s.q != [] then tr.acked + [tr.s.q[0]] else tr.acked)
  }

  predicate Fresh(tr: Trace) { AfterReset(tr.s) && tr.accepted == [] && tr.acked == [] }

  predicate Done(tr: Trace) { tr.s.b.state.Idle? && tr.acked != [] }

  /** A run of one burst: every cycle is held, none comes after the bridge is back in IDLE. */
  predicate BurstRun(tr: Trace, ws: seq<Wires>, a: Addr, t: Bte)
    decreases |ws|
  {
    ws == [] ||
    (!Done(tr) && HoldsBurst(tr, ws[0], a, t) && BurstRun(ClockTrace(tr, ws[0]), ws[1..], a, t))
  }

  function BurstResult(tr: Trace, ws: seq<Wires>, a: Addr, t: Bte): Trace
    requires BurstRun(tr, ws, a, t)
    decreases |ws|
  {
    if ws == [] then tr else BurstResult(ClockTrace(tr, ws[0]), ws[1..], a, t)
  }

  predicate Addressed(reqs: seq<Req>, a: Addr, t: Bte) {
    forall k :: 0 <= k < |reqs| ==> reqs[k].addr == Beat(a, t, k)
  }

  predicate InBurst(tr: Trace, a: Addr, t: Bte) {
    var b := tr.s.b;
    && b.state.Burst? && Accounted(tr.s)
    && Addressed(tr.accepted, a, t)
    && |tr.accepted| == (if b.readReq then BurstBeats(t) - 1 - b.left else BurstBeats(t))
    && (b.readReq ==> b.adr == Beat(a, t, |tr.accepted|))
    && tr.acked + tr.s.q == tr.accepted
  }

  predicate Complete(tr: Trace, a: Addr, t: Bte) {
    && AfterReset(tr.s) && tr.acked == tr.accepted
    && |tr.acked| == BurstBeats(t) && Addressed(tr.acked, a, t)
  }

  predicate BurstInv(tr: Trace, a: Addr, t: Bte) {
    Fresh(tr) || InBurst(tr, a, t) || Complete(tr, a, t)
  }

  lemma FirstCycle(tr: Trace, w: Wires, a: Addr, t: Bte)
    requires Fresh(tr) && HoldsBurst(tr, w, a, t)
    ensures var tr' := ClockTrace(tr, w); if w.waitRequest then Fresh(tr') else InBurst(tr', a, t)
  {
    if !w.waitRequest {
      assert Beat(a, t, 1) == NextAddr(Beat(a, t, 0), t);
    }
  }

  lemma QueueMoves(acked: seq<Req>, q: seq<Req>, more: seq<Req>)
    ensures acked + (q + more) == acked + q + more
    ensures q != [] ==> acked + [q[0]] + (q[1..] + more) == acked + q + more
  {
  }

  lemma AckTakesHead(tr: Trace, w: Wires, a: Addr, t: Bte)
    requires InBurst(tr, a, t) && HoldsBurst(tr, w, a, t)
    ensures var tr' := ClockTrace(tr, w); tr'.acked + tr'.s.q == tr'.accepted
  {
    QueueMoves(tr.acked, tr.s.q, Accepted(tr.s, w));
  }

  lemma AcceptedInOrder(tr: Trace, w: Wires, a: Addr, t: Bte)
    requires InBurst(tr, a, t) && HoldsBurst(tr, w, a, t)
    ensures Addressed(ClockTrace(tr, w).accepted, a, t)
  {
  }

  lemma RequestsCounted(tr: Trace, w: Wires, a: Addr, t: Bte)
    requires InBurst(tr, a, t) && HoldsBurst(tr, w, a, t)
    ensures var tr', b' := ClockTrace(tr, w), Step(tr.s.b, w);
            |tr'.accepted| == (if b'.readReq then BurstBeats(t) - 1 - b'.left else BurstBeats(t))
  {
  }

  lemma NextBeat(a: Addr, t: Bte, k: nat)
    ensures Beat(a, t, k + 1) == NextAddr(Beat(a, t, k), t)
  {
  }

  lemma AddressMoves(b: Bridge, w: Wires)
    requires b.state.Burst? && !w.rst
    ensures Step(b, w).adr == if !w.waitRequest && b.left != 0 then NextAddr(b.adr, w.bte) else b.adr
    ensures Step(b, w).readReq == !(b.left == 0 && !(w.waitRequest && b.readReq))
  {
  }

  lemma AcceptedCount(tr: Trace, w: Wires)
    requires SlaveOk(tr.s, w) && tr.s.b.state.Burst?
    ensures |ClockTrace(tr, w).accepted| == |tr.accepted| + if tr.s.b.readReq && !w.waitRequest then 1 else 0
  {
  }

  /** The next read the bridge asks for is the next beat. */
  lemma NextRequested(tr: Trace, w: Wires, a: Addr, t: Bte)
    requires InBurst(tr, a, t) && HoldsBurst(tr, w, a, t)
    ensures Step(tr.s.b, w).readReq ==> Step(tr.s.b, w).adr == Beat(a, t, |ClockTrace(tr, w).accepted|)
  {
    AddressMoves(tr.s.b, w);
    AcceptedCount(tr, w);
    NextBeat(a, t, |tr.accepted|);
  }

  lemma BurstCycle(tr: Trace, w: Wires, a: Addr, t: Bte)
    requires InBurst(tr, a, t) && HoldsBurst(tr, w, a, t)
    ensures var tr' := ClockTrace(tr, w); InBurst(tr', a, t) || Complete(tr', a, t)
  {
    AckTakesHead(tr, w, a, t);
    AcceptedInOrder(tr, w, a, t);
    RequestsCounted(tr, w, a, t);
    NextRequested(tr, w, a, t);
    BurstKeepsAccount(tr.s, w);
    assert |tr.acked| + |tr.s.q| == |tr.accepted|;
  }

  /** A cycle moves the burst on when the slave accepts a request or returns a word. */
  predicate Productive(tr: Trace, w: Wires) {
    (AvRead(tr.s.b, w) && !w.waitRequest) || w.readDataValid
  }

  /** The data theorem: under every wait and valid pattern the k-th acknowledge carries the
      slave's word for the k-th wrap successor of the start address; the bridge is back in
      IDLE exactly when all beats are acknowledged, with nothing outstanding. */
  lemma {:induction false} BurstDelivers(tr: Trace, ws: seq<Wires>, a: Addr, t: Bte)
    requires BurstInv(tr, a, t) && BurstRun(tr, ws, a, t)
    ensures var r := BurstResult(tr, ws, a, t);
            && BurstInv(r, a, t)
            && |r.acked| <= BurstBeats(t) == (match t case Wrap4 => 4 case Linear => 8 case Wrap8 => 8 case Wrap16 => 16)
            && Addressed(r.acked, a, t)
            && r.acked <= r.accepted
            && (|r.acked| == BurstBeats(t) <==> Done(r))
            && (Done(r) ==> AfterReset(r.s))
    decreases |ws|
  {
    if ws != [] {
      if Fresh(tr) {
        FirstCycle(tr, ws[0], a, t);
      } else {
        BurstCycle(tr, ws[0], a, t);
      }
      BurstDelivers(ClockTrace(tr, ws[0]), ws[1..], a, t);
    }
  }

  /** Progress: each productive cycle accepts or acknowledges something, and there are at most
      two events per beat, so no pattern of waits can make the burst repeat or lose a beat. */
  lemma ProductiveCycleProgresses(tr: Trace, w: Wires, a: Addr, t: Bte)
    requires BurstInv(tr, a, t) && !Done(tr) && HoldsBurst(tr, w, a, t)
    ensures var tr' := ClockTrace(tr, w);
            && (Productive(tr, w) <==> |tr'.accepted| + |tr'.acked| > |tr.accepted| + |tr.acked|)
            && |tr'.accepted| + |tr'.acked| <= 2 * BurstBeats(t)
            && (Done(tr') <==> |tr'.accepted| + |tr'.acked| == 2 * BurstBeats(t))
  {
    if Fresh(tr) {
      FirstCycle(tr, w, a, t);
    } else {
      BurstCycle(tr, w, a, t);
    }
  }

  // ---------------------------------------------------------------- single accesses

  /** m_av_write_o */
  predicate AvWrite(b: Bridge, w: Wires) { CycStb(w) && w.we && b.state.Idle? }

  /** The master holds a read that is no incrementing burst, or a write. */
  predicate HoldsRead(w: Wires, a: Addr) { !w.rst && w.cyc && w.stb && !w.we && w.cti != 2 && w.adr == a }

  predicate HoldsWrite(w: Wires) { !w.rst && w.cyc && w.stb && w.we }

  /** The slave makes an access wait from cycle n on and accepts it in cycle i. */
  predicate AcceptedAt(ws: seq<Wires>, n: nat, i: nat) {
    n <= i < |ws| && !ws[i].waitRequest && forall k :: n <= k < i ==> ws[k].waitRequest
  }

  /** Until the access is accepted nothing moves. */
  lemma {:induction false} WaitsInIdle(states: seq<System>, ws: seq<Wires>, n: nat, k: nat)
    requires IsRun(states, ws) && n <= k <= |ws| && AfterReset(states[n])
    requires forall l :: n <= l < k ==> ws[l].waitRequest && !ws[l].rst && CycStb(ws[l])
    ensures AfterReset(states[k])
  {
    if k > n {
      WaitsInIdle(states, ws, n, k - 1);
    }
  }

  /** The word is awaited in READ, with nothing else asked for. */
  lemma {:induction false} AwaitsWord(states: seq<System>, ws: seq<Wires>, i: nat, k: nat, a: Addr)
    requires IsRun(states, ws) && i < k <= |ws| && AfterReset(states[i]) && !ws[i].waitRequest
    requires forall l :: i <= l < k ==> HoldsRead(ws[l], a)
    requires forall l :: i < l < k ==> !ws[l].readDataValid
    ensures states[k].b.state.Read? && !states[k].b.readReq && states[k].q == [Req(a, ws[i].respData)]
  {
    if k > i + 1 {
      AwaitsWord(states, ws, i, k - 1, a);
    }
  }

  /** A held read that is no burst, from any idle state of any run: it is asked for until it is
      accepted and not again; exactly one cycle acknowledges it, the one in which its word
      returns; after it the bridge is idle with nothing outstanding. */
  lemma SingleReadAcked(states: seq<System>, ws: seq<Wires>, n: nat, i: nat, j: nat, a: Addr)
    requires IsRun(states, ws) && n <= i < j < |ws| && states[n].b.state.Idle? && AcceptedAt(ws, n, i)
    requires forall k :: n <= k <= j ==> HoldsRead(ws[k], a)
    requires ws[j].readDataValid && forall k :: i < k < j ==> !ws[k].readDataValid
    ensures forall k :: n <= k <= j ==> (WbAck(states[k].b, ws[k]) <==> k == j)
    ensures forall k :: n <= k <= j ==> (AvRead(states[k].b, ws[k]) <==> k <= i) && !AvWrite(states[k].b, ws[k])
    ensures states[j].q == [Req(a, ws[i].respData)] && AfterReset(states[j + 1])
  {
    RunAccounting(states, ws, n);
    forall k | n <= k <= j
      ensures if k <= i then AfterReset(states[k]) else
              states[k].b.state.Read? && !states[k].b.readReq && states[k].q == [Req(a, ws[i].respData)]
    {
      WaitsInIdle(states, ws, n, if k <= i then k else i);
      if k > i {
        AwaitsWord(states, ws, i, k, a);
      }
    }
  }

  /** While the slave keeps it waiting, or the word is not there, no cycle acknowledges it. */
  lemma UnansweredReadNotAcked(states: seq<System>, ws: seq<Wires>, n: nat, m: nat, a: Addr)
    requires IsRun(states, ws) && n <= m < |ws| && states[n].b.state.Idle?
    requires forall k :: n <= k <= m ==> HoldsRead(ws[k], a) && !ws[k].readDataValid
    ensures forall k :: n <= k <= m ==> !WbAck(states[k].b, ws[k])
  {
    RunAccounting(states, ws, n);
    forall k | n <= k <= m
      ensures !states[k].b.state.Write?
    {
      NeverWrites(states, ws, n, k, a);
    }
  }

  lemma {:induction false} NeverWrites(states: seq<System>, ws: seq<Wires>, n: nat, k: nat, a: Addr)
    requires IsRun(states, ws) && n <= k <= |ws| && states[n].b.state.Idle?
    requires forall l :: n <= l < k ==> HoldsRead(ws[l], a)
    ensures states[k].b.state.Idle? || states[k].b.state.Read?
  {
    if k > n {
      NeverWrites(states, ws, n, k - 1, a);
    }
  }

  /** A held write, from any idle state of any run: it is driven until it is accepted and not
      again; exactly one cycle acknowledges it, the one after its acceptance; then the bridge is
      idle with nothing outstanding. */
  lemma SingleWriteAcked(states: seq<System>, ws: seq<Wires>, n: nat, i: nat)
    requires IsRun(states, ws) && n <= i && i + 1 < |ws| && states[n].b.state.Idle? && AcceptedAt(ws, n, i)
    requires forall k :: n <= k <= i + 1 ==> HoldsWrite(ws[k])
    ensures forall k :: n <= k <= i + 1 ==> (WbAck(states[k].b, ws[k]) <==> k == i + 1)
    ensures forall k :: n <= k <= i + 1 ==> (AvWrite(states[k].b, ws[k]) <==> k <= i) && !AvRead(states[k].b, ws[k])
    ensures AfterReset(states[i + 2])
  {
    RunAccounting(states, ws, n);
    forall k | n <= k <= i
      ensures AfterReset(states[k])
    {
      WaitsInIdle(states, ws, n, k);
    }
    assert HoldsWrite(ws[i]) && HoldsWrite(ws[i + 1]);
    assert states[i + 1] == Clock(states[i], ws[i]) && states[i + 2] == Clock(states[i + 1], ws[i + 1]);
    assert states[i + 1].b.state.Write? && states[i + 1].q == [];
  }

  /** A waiting write is not acknowledged. */
  lemma WaitingWriteNotAcked(states: seq<System>, ws: seq<Wires>, n: nat, m: nat)
    requires IsRun(states, ws) && n <= m < |ws| && states[n].b.state.Idle?
    requires forall k :: n <= k <= m ==> HoldsWrite(ws[k]) && ws[k].waitRequest
    ensures forall k :: n <= k <= m ==> !WbAck(states[k].b, ws[k])
  {
    RunAccounting(states, ws, n);
    forall k | n <= k <= m
      ensures AfterReset(states[k])
    {
      WaitsInIdle(states, ws, n, k);
    }
  }
}
