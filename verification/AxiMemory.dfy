/** axi4_memory: an AXI4-Lite memory whose five actions are postponed by arbitrary async bits
    on the falling and delay bits on the rising clock edge. */
module AxiMemory {

  import opened Common

  /** A 32-bit byte address by its upper 30 and lower 2 bits. */
  datatype Addr = Addr(word: nat, offset: nat)

  type Memory = map<nat, Lanes>

  /** 64*1024 bytes */
  const MEMORY_WORDS: nat := 0x4000

  /** 32'h1000_0000 */
  const CONSOLE: Addr := Addr(0x400_0000, 0)

  function Fetch(m: Memory, a: Addr): Lanes { if a.word in m then m[a.word] else Lanes(0, 0, 0, 0) }

  datatype Write = Write(addr: Addr, data: Lanes, strb: Select)

  /** A strobed update, or output to the console, which leaves memory alone. */
  function Store(m: Memory, w: Write): Memory {
    if w.addr.word < MEMORY_WORDS then m[w.addr.word := Merge(Fetch(m, w.addr), w.data, w.strb)] else m
  }

  predicate ReadOk(a: Addr) { a.word < MEMORY_WORDS }

  predicate WriteOk(a: Addr) { a.word < MEMORY_WORDS || a == CONSOLE }

  /** Signals the master drives. */
  datatype Wires = Wires(
    arvalid: bool, araddr: Addr, rready: bool,
    awvalid: bool, awaddr: Addr, wvalid: bool, wdata: Lanes, wstrb: Select, bready: bool)

  /** Which of the five actions an edge may perform: take AR, AW, W, answer R, answer B. */
  datatype Gates = Gates(ar: bool, aw: bool, w: bool, r: bool, b: bool)

  /** The registers of one request channel (AR, AW or W): its ready output, the latch for a
      request taken and not yet served, and the flag that the request on the wires has been
      taken already. */
  datatype Chan<T> = Chan(ready: bool, en: bool, fast: bool, held: T)

  datatype Beat = Beat(data: Lanes, strb: Select)

  datatype Axi = Axi(
    ar: Chan<Addr>, aw: Chan<Addr>, wd: Chan<Beat>,
    rvalid: bool, rdata: Lanes, bvalid: bool, mem: Memory, finished: bool)

  // ---------------------------------------------------------------- the edges as specifications

  predicate Takes<T>(c: Chan<T>, valid: bool, gate: bool) { valid && !c.en && !c.fast && gate }

  /** A request channel on the falling edge. */
  function NegChan<T>(c: Chan<T>, valid: bool, payload: T, gate: bool): Chan<T> {
    if Takes(c, valid, gate) then Chan(true, true, true, payload) else c
  }

  /** A request the master's handshake completes although it has not been taken yet. */
  function Latched<T>(c: Chan<T>, valid: bool, payload: T): Chan<T> {
    if valid && c.ready && !c.fast then c.(en := true, held := payload) else c
  }

  /** A request channel on the rising edge: ready and fast fall unless a request is taken. */
  function PosChan<T>(c: Chan<T>, valid: bool, payload: T, gate: bool): Chan<T> {
    var l := Latched(c, valid, payload);
    if Takes(l, valid, gate) then Chan(true, true, true, payload) else l.(ready := false, fast := false)
  }

  function Pending(s: Axi): Write { Write(s.aw.held, s.wd.held.data, s.wd.held.strb) }

  /** rvalid and bvalid as the block found them. */
  datatype Busy = Busy(r: bool, b: bool)

  predicate AnswersR(s: Axi, busy: Busy, g: Gates) { !busy.r && s.ar.en && g.r && ReadOk(s.ar.held) }

  predicate AnswersB(s: Axi, busy: Busy, g: Gates) { !busy.b && s.aw.en && s.wd.en && g.b }

  /** $finish is called for an address outside memory and console. */
  predicate Finishes(s: Axi, busy: Busy, g: Gates) {
    || (!busy.r && s.ar.en && g.r && !ReadOk(s.ar.held))
    || (AnswersB(s, busy, g) && !WriteOk(s.aw.held))
  }

  /** The two answering actions, after the request channels have moved. */
  function Answer(s: Axi, busy: Busy, g: Gates): Axi {
    var r, b := AnswersR(s, busy, g), AnswersB(s, busy, g);
    Axi(if r then s.ar.(en := false) else s.ar,
        if b then s.aw.(en := false) else s.aw,
        if b then s.wd.(en := false) else s.wd,
        s.rvalid || r, if r then Fetch(s.mem, s.ar.held) else s.rdata, s.bvalid || b,
        if b then Store(s.mem, Pending(s)) else s.mem,
        s.finished || Finishes(s, busy, g))
  }

  /** The request channels on a falling edge. */
  function MidNeg(s: Axi, w: Wires, g: Gates): Axi {
    s.(ar := NegChan(s.ar, w.arvalid, w.araddr, g.ar),
       aw := NegChan(s.aw, w.awvalid, w.awaddr, g.aw),
       wd := NegChan(s.wd, w.wvalid, Beat(w.wdata, w.wstrb), g.w))
  }

  /** The request channels on a rising edge, and the responses the master takes. */
  function MidPos(s: Axi, w: Wires, g: Gates): Axi {
    s.(ar := PosChan(s.ar, w.arvalid, w.araddr, g.ar),
       aw := PosChan(s.aw, w.awvalid, w.awaddr, g.aw),
       wd := PosChan(s.wd, w.wvalid, Beat(w.wdata, w.wstrb), g.w),
       rvalid := s.rvalid && !w.rready, bvalid := s.bvalid && !w.bready)
  }

  function AfterNegEdge(s: Axi, w: Wires, g: Gates): Axi {
    Answer(MidNeg(s, w, g), Busy(s.rvalid, s.bvalid), g)
  }

  function AfterPosEdge(s: Axi, w: Wires, g: Gates): Axi {
    Answer(MidPos(s, w, g), Busy(s.rvalid, s.bvalid), g)
  }

  // ---------------------------------------------------------------- the imperative code

  /** handle_axi_arvalid, handle_axi_awvalid and handle_axi_wvalid, and their guard. The latch
      (en, held) is assigned at once; ready and fast are the scheduled nonblocking updates. */
  method TakeRequest<T>(c: Chan<T>, fastBefore: bool, valid: bool, payload: T, gate: bool) returns (c': Chan<T>)
    ensures c' == if valid && !c.en && !fastBefore && gate then Chan(true, true, true, payload) else c
  {
    c' := c;
    if valid && !(c.en || fastBefore) && gate {
      c' := c'.(ready := true);
      c' := c'.(held := payload);
      c' := c'.(en := true);
      c' := c'.(fast := true);
    }
  }

  /** The register updates of a rising edge before the guarded actions. */
  method RisingChannel<T>(c: Chan<T>, valid: bool, payload: T, gate: bool) returns (c': Chan<T>)
    ensures c' == PosChan(c, valid, payload, gate)
  {
    c' := c.(ready := false, fast := false);
    if valid && c.ready && !c.fast {
      c' := c'.(held := payload, en := true);
    }
    c' := TakeRequest(c', c.fast, valid, payload, gate);
  }

  /** handle_axi_rvalid and handle_axi_bvalid with their guards. */
  method AnswerRequests(s: Axi, busy: Busy, g: Gates) returns (s': Axi)
    ensures s' == Answer(s, busy, g)
  {
    s' := s;
    if !busy.r && s.ar.en && g.r {
      if s.ar.held.word < MEMORY_WORDS {
        s' := s'.(rdata := Fetch(s.mem, s.ar.held), rvalid := true);
        s' := s'.(ar := s'.ar.(en := false));
      } else {
        s' := s'.(finished := true);
      }
    }
    if !busy.b && s.aw.en && s.wd.en && g.b {
      if s.aw.held.word < MEMORY_WORDS {
        s' := s'.(mem := Store(s.mem, Pending(s)));
      } else if s.aw.held != CONSOLE {
        s' := s'.(finished := true);
      }
      s' := s'.(bvalid := true);
      s' := s'.(aw := s'.aw.(en := false), wd := s'.wd.(en := false));
    }
  }

  /** always @(negedge clk) */
  method NegEdge(s: Axi, w: Wires, g: Gates) returns (s': Axi)
    ensures s' == AfterNegEdge(s, w, g)
  {
    var ar := TakeRequest(s.ar, s.ar.fast, w.arvalid, w.araddr, g.ar);
    var aw := TakeRequest(s.aw, s.aw.fast, w.awvalid, w.awaddr, g.aw);
    var wd := TakeRequest(s.wd, s.wd.fast, w.wvalid, Beat(w.wdata, w.wstrb), g.w);
    s' := AnswerRequests(s.(ar := ar, aw := aw, wd := wd), Busy(s.rvalid, s.bvalid), g);
  }

  /** always @(posedge clk) */
  method PosEdge(s: Axi, w: Wires, g: Gates) returns (s': Axi)
    ensures s' == AfterPosEdge(s, w, g)
  {
    s' := s;
    if s.rvalid && w.rready {
      s' := s'.(rvalid := false);
    }
    if s.bvalid && w.bready {
      s' := s'.(bvalid := false);
    }
    var ar := RisingChannel(s.ar, w.arvalid, w.araddr, g.ar);
    var aw := RisingChannel(s.aw, w.awvalid, w.awaddr, g.aw);
    var wd := RisingChannel(s.wd, w.wvalid, Beat(w.wdata, w.wstrb), g.w);
    s' := AnswerRequests(s'.(ar := ar, aw := aw, wd := wd), Busy(s.rvalid, s.bvalid), g);
  }

  function Reset(): Axi {
    var z := Lanes(0, 0, 0, 0);
    Axi(Chan(false, false, false, Addr(0, 0)), Chan(false, false, false, Addr(0, 0)),
        Chan(false, false, false, Beat(z, Select(false, false, false, false))),
        false, z, false, map[], false)
  }

  // ---------------------------------------------------------------- what happened so far

  /** Requests and responses accepted by handshake, reads served (with the number of writes
      before them) and writes performed. */
  datatype Log = Log(
    arAcc: seq<Addr>, awAcc: seq<Addr>, wAcc: seq<Beat>, rAcc: seq<Lanes>, bAcc: nat,
    readAddr: seq<Addr>, readData: seq<Lanes>, readAt: seq<nat>,
    writeAddr: seq<Addr>, writeBeat: seq<Beat>)

  datatype System = System(s: Axi, l: Log)

  function LogAnswer(l: Log, s: Axi, busy: Busy, g: Gates): Log {
    var l := if AnswersR(s, busy, g)
      then l.(readAddr := l.readAddr + [s.ar.held], readData := l.readData + [Fetch(s.mem, s.ar.held)],
              readAt := l.readAt + [|l.writeAddr|])
      else l;
    if AnswersB(s, busy, g)
      then l.(writeAddr := l.writeAddr + [s.aw.held], writeBeat := l.writeBeat + [s.wd.held])
      else l
  }

  function Accepted<T>(acc: seq<T>, c: Chan<T>, valid: bool, payload: T): seq<T> {
    if valid && c.ready then acc + [payload] else acc
  }

  function Handshakes(l: Log, s: Axi, w: Wires): Log {
    l.(arAcc := Accepted(l.arAcc, s.ar, w.arvalid, w.araddr),
       awAcc := Accepted(l.awAcc, s.aw, w.awvalid, w.awaddr),
       wAcc := Accepted(l.wAcc, s.wd, w.wvalid, Beat(w.wdata, w.wstrb)),
       rAcc := if s.rvalid && w.rready then l.rAcc + [s.rdata] else l.rAcc,
       bAcc := if s.bvalid && w.bready then l.bAcc + 1 else l.bAcc)
  }

  /** The falling and then the rising edge of one clock cycle, with the master's signals still. */
  function Neg(y: System, w: Wires, g: Gates): System {
    System(AfterNegEdge(y.s, w, g), LogAnswer(y.l, MidNeg(y.s, w, g), Busy(y.s.rvalid, y.s.bvalid), g))
  }

  function Pos(y: System, w: Wires, g: Gates): System {
    System(AfterPosEdge(y.s, w, g),
           LogAnswer(Handshakes(y.l, y.s, w), MidPos(y.s, w, g), Busy(y.s.rvalid, y.s.bvalid), g))
  }

  /** The master holds a request until the edge at which it sees ready. */
  predicate Holds<T(==)>(c: Chan<T>, valid: bool, payload: T, valid': bool, payload': T) {
    valid && !c.ready ==> valid' && payload' == payload
  }

  predicate MasterHolds(s: Axi, w: Wires, w': Wires) {
    && Holds(s.ar, w.arvalid, w.araddr, w'.arvalid, w'.araddr)
    && Holds(s.aw, w.awvalid, w.awaddr, w'.awvalid, w'.awaddr)
    && Holds(s.wd, w.wvalid, Beat(w.wdata, w.wstrb), w'.wvalid, Beat(w'.wdata, w'.wstrb))
  }

  predicate InRange(w: Wires) {
    (w.arvalid ==> ReadOk(w.araddr)) && (w.awvalid ==> WriteOk(w.awaddr))
  }

  // ---------------------------------------------------------------- conservation

  /** Requests accepted, plus the one on the wires if it was taken early, are the requests
      served, plus the one in the latch. */
  predicate Conserved<T(==)>(c: Chan<T>, valid: bool, payload: T, acc: seq<T>, served: seq<T>) {
    && c.ready == c.fast && (c.fast ==> valid)
    && acc + (if c.fast then [payload] else []) == served + (if c.en then [c.held] else [])
  }

  function StoreAll(m: Memory, addrs: seq<Addr>, beats: seq<Beat>): Memory
    requires |addrs| == |beats|
  {
    if addrs == [] then m
    else
      var n := |addrs| - 1;
      Store(StoreAll(m, addrs[..n], beats[..n]), Write(addrs[n], beats[n].data, beats[n].strb))
  }

  /** Every read returned what memory held after the writes performed before it. */
  predicate ReadsRight(l: Log, m: Memory)
    requires |l.writeAddr| == |l.writeBeat|
  {
    && |l.readAddr| == |l.readData| == |l.readAt|
    && forall k :: 0 <= k < |l.readAddr| ==>
                     && l.readAt[k] <= |l.writeAddr|
                     && l.readData[k] ==
                        Fetch(StoreAll(m, l.writeAddr[..l.readAt[k]], l.writeBeat[..l.readAt[k]]), l.readAddr[k])
  }

  predicate Answered(y: System, m: Memory) {
    && |y.l.writeAddr| == |y.l.writeBeat|
    && y.s.mem == StoreAll(m, y.l.writeAddr, y.l.writeBeat)
    && ReadsRight(y.l, m)
    && y.l.rAcc + (if y.s.rvalid then [y.s.rdata] else []) == y.l.readData
    && y.l.bAcc + (if y.s.bvalid then 1 else 0) == |y.l.writeAddr|
  }

  /** A request taken before its handshake is still latched or being answered. */
  predicate NotAhead(s: Axi) {
    && (s.ar.fast ==> s.ar.en || s.rvalid)
    && (s.aw.fast ==> s.aw.en || s.bvalid)
    && (s.wd.fast ==> s.wd.en || s.bvalid)
  }

  predicate LatchesInRange(s: Axi) {
    (s.ar.en ==> ReadOk(s.ar.held)) && (s.aw.en ==> WriteOk(s.aw.held)) && !s.finished
  }

  predicate Channels(y: System, w: Wires) {
    && Conserved(y.s.ar, w.arvalid, w.araddr, y.l.arAcc, y.l.readAddr)
    && Conserved(y.s.aw, w.awvalid, w.awaddr, y.l.awAcc, y.l.writeAddr)
    && Conserved(y.s.wd, w.wvalid, Beat(w.wdata, w.wstrb), y.l.wAcc, y.l.writeBeat)
  }

  /** The state before an edge, with the master driving w. */
  predicate Inv(y: System, w: Wires, m: Memory) {
    Channels(y, w) && Answered(y, m) && NotAhead(y.s) && LatchesInRange(y.s)
  }

  lemma NegConserves<T>(c: Chan<T>, valid: bool, payload: T, gate: bool, acc: seq<T>, served: seq<T>)
    requires Conserved(c, valid, payload, acc, served)
    ensures Conserved(NegChan(c, valid, payload, gate), valid, payload, acc, served)
  {
    if Takes(c, valid, gate) {
      assert acc + [] == acc && served + [] == served;
    }
  }

  lemma PosConserves<T>(
      c: Chan<T>, valid: bool, payload: T, gate: bool, acc: seq<T>, served: seq<T>, valid': bool, payload': T)
    requires Conserved(c, valid, payload, acc, served) && Holds(c, valid, payload, valid', payload')
    ensures Conserved(PosChan(c, valid, payload, gate), valid', payload', Accepted(acc, c, valid, payload), served)
  {
    var acc' := Accepted(acc, c, valid, payload);
    assert acc + [] == acc && acc' + [] == acc' && served + [] == served;
  }

  lemma ServeConserves<T>(c: Chan<T>, valid: bool, payload: T, acc: seq<T>, served: seq<T>)
    requires Conserved(c, valid, payload, acc, served) && c.en
    ensures Conserved(c.(en := false), valid, payload, acc, served + [c.held])
  {
    assert served + [c.held] + [] == served + [c.held];
  }

  lemma StoreAllAppend(m: Memory, addrs: seq<Addr>, beats: seq<Beat>, a: Addr, b: Beat)
    requires |addrs| == |beats|
    ensures StoreAll(m, addrs + [a], beats + [b]) == Store(StoreAll(m, addrs, beats), Write(a, b.data, b.strb))
  {
    assert (addrs + [a])[..|addrs|] == addrs && (beats + [b])[..|beats|] == beats;
  }

  /** Serving a read logs what memory holds now. */
  lemma ServeRead(y: System, w: Wires, m: Memory)
    requires Inv(y, w, m) && !y.s.rvalid && y.s.ar.en
    ensures var data := Fetch(y.s.mem, y.s.ar.held);
            Inv(System(y.s.(ar := y.s.ar.(en := false), rvalid := true, rdata := data),
                       y.l.(readAddr := y.l.readAddr + [y.s.ar.held], readData := y.l.readData + [data],
                            readAt := y.l.readAt + [|y.l.writeAddr|])), w, m)
  {
    ServeConserves(y.s.ar, w.arvalid, w.araddr, y.l.arAcc, y.l.readAddr);
    assert y.l.writeAddr[..|y.l.writeAddr|] == y.l.writeAddr && y.l.writeBeat[..|y.l.writeBeat|] == y.l.writeBeat;
    assert y.l.rAcc + [] == y.l.rAcc;
  }

  lemma ReadsStayRight(l: Log, m: Memory, a: Addr, b: Beat)
    requires |l.writeAddr| == |l.writeBeat| && ReadsRight(l, m)
    ensures ReadsRight(l.(writeAddr := l.writeAddr + [a], writeBeat := l.writeBeat + [b]), m)
  {
    forall k | 0 <= k < |l.readAddr|
      ensures (l.writeAddr + [a])[..l.readAt[k]] == l.writeAddr[..l.readAt[k]]
      ensures (l.writeBeat + [b])[..l.readAt[k]] == l.writeBeat[..l.readAt[k]]
    {
    }
  }

  lemma ServeWrite(y: System, w: Wires, m: Memory)
    requires Inv(y, w, m) && !y.s.bvalid && y.s.aw.en && y.s.wd.en
    ensures Inv(System(y.s.(aw := y.s.aw.(en := false), wd := y.s.wd.(en := false), bvalid := true,
                            mem := Store(y.s.mem, Pending(y.s))),
                       y.l.(writeAddr := y.l.writeAddr + [y.s.aw.held], writeBeat := y.l.writeBeat + [y.s.wd.held])),
                w, m)
  {
    ServeConserves(y.s.aw, w.awvalid, w.awaddr, y.l.awAcc, y.l.writeAddr);
    ServeConserves(y.s.wd, w.wvalid, Beat(w.wdata, w.wstrb), y.l.wAcc, y.l.writeBeat);
    StoreAllAppend(m, y.l.writeAddr, y.l.writeBeat, y.s.aw.held, y.s.wd.held);
    ReadsStayRight(y.l, m, y.s.aw.held, y.s.wd.held);
  }

  /** A served read leaves the write side alone, so the block's two answers compose. */
  lemma AnswerKeepsInv(y: System, w: Wires, m: Memory, busy: Busy, g: Gates)
    requires Inv(y, w, m) && (y.s.rvalid ==> busy.r) && (y.s.bvalid ==> busy.b)
    ensures Inv(System(Answer(y.s, busy, g), LogAnswer(y.l, y.s, busy, g)), w, m)
  {
    var y1 := y;
    if AnswersR(y.s, busy, g) {
      ServeRead(y, w, m);
      var data := Fetch(y.s.mem, y.s.ar.held);
      y1 := System(y.s.(ar := y.s.ar.(en := false), rvalid := true, rdata := data),
                   y.l.(readAddr := y.l.readAddr + [y.s.ar.held], readData := y.l.readData + [data],
                        readAt := y.l.readAt + [|y.l.writeAddr|]));
    }
    if AnswersB(y.s, busy, g) {
      ServeWrite(y1, w, m);
    }
  }

  lemma MidNegKeepsInv(y: System, w: Wires, m: Memory, g: Gates)
    requires Inv(y, w, m) && InRange(w)
    ensures Inv(System(MidNeg(y.s, w, g), y.l), w, m)
  {
    NegConserves(y.s.ar, w.arvalid, w.araddr, g.ar, y.l.arAcc, y.l.readAddr);
    NegConserves(y.s.aw, w.awvalid, w.awaddr, g.aw, y.l.awAcc, y.l.writeAddr);
    NegConserves(y.s.wd, w.wvalid, Beat(w.wdata, w.wstrb), g.w, y.l.wAcc, y.l.writeBeat);
  }

  lemma MidPosReads(y: System, w: Wires, g: Gates, w': Wires)
    requires Channels(y, w) && MasterHolds(y.s, w, w')
    ensures Conserved(MidPos(y.s, w, g).ar, w'.arvalid, w'.araddr, Handshakes(y.l, y.s, w).arAcc, y.l.readAddr)
  {
    PosConserves(y.s.ar, w.arvalid, w.araddr, g.ar, y.l.arAcc, y.l.readAddr, w'.arvalid, w'.araddr);
  }

  lemma MidPosAddresses(y: System, w: Wires, g: Gates, w': Wires)
    requires Channels(y, w) && MasterHolds(y.s, w, w')
    ensures Conserved(MidPos(y.s, w, g).aw, w'.awvalid, w'.awaddr, Handshakes(y.l, y.s, w).awAcc, y.l.writeAddr)
  {
    PosConserves(y.s.aw, w.awvalid, w.awaddr, g.aw, y.l.awAcc, y.l.writeAddr, w'.awvalid, w'.awaddr);
  }

  lemma MidPosBeats(y: System, w: Wires, g: Gates, w': Wires)
    requires Channels(y, w) && MasterHolds(y.s, w, w')
    ensures Conserved(MidPos(y.s, w, g).wd, w'.wvalid, Beat(w'.wdata, w'.wstrb), Handshakes(y.l, y.s, w).wAcc,
                      y.l.writeBeat)
  {
    PosConserves(y.s.wd, w.wvalid, Beat(w.wdata, w.wstrb), g.w, y.l.wAcc, y.l.writeBeat,
                 w'.wvalid, Beat(w'.wdata, w'.wstrb));
  }

  lemma MidPosChannels(y: System, w: Wires, g: Gates, w': Wires)
    requires Channels(y, w) && MasterHolds(y.s, w, w')
    ensures Channels(System(MidPos(y.s, w, g), Handshakes(y.l, y.s, w)), w')
  {
    MidPosReads(y, w, g, w');
    MidPosAddresses(y, w, g, w');
    MidPosBeats(y, w, g, w');
  }

  lemma MidPosAnswered(y: System, w: Wires, m: Memory, g: Gates)
    requires Answered(y, m)
    ensures Answered(System(MidPos(y.s, w, g), Handshakes(y.l, y.s, w)), m)
  {
    assert y.l.rAcc + [y.s.rdata] + [] == y.l.rAcc + [y.s.rdata];
  }

  lemma MidPosKeepsInv(y: System, w: Wires, m: Memory, g: Gates, w': Wires)
    requires Inv(y, w, m) && InRange(w) && MasterHolds(y.s, w, w')
    ensures Inv(System(MidPos(y.s, w, g), Handshakes(y.l, y.s, w)), w', m)
  {
    MidPosChannels(y, w, g, w');
    MidPosAnswered(y, w, m, g);
  }

  lemma NegKeepsInv(y: System, w: Wires, m: Memory, g: Gates)
    requires Inv(y, w, m) && InRange(w)
    ensures Inv(Neg(y, w, g), w, m)
  {
    MidNegKeepsInv(y, w, m, g);
    AnswerKeepsInv(System(MidNeg(y.s, w, g), y.l), w, m, Busy(y.s.rvalid, y.s.bvalid), g);
  }

  lemma PosKeepsInv(y: System, w: Wires, m: Memory, g: Gates, w': Wires)
    requires Inv(y, w, m) && InRange(w) && MasterHolds(y.s, w, w')
    ensures Inv(Pos(y, w, g), w', m)
  {
    MidPosKeepsInv(y, w, m, g, w');
    AnswerKeepsInv(System(MidPos(y.s, w, g), Handshakes(y.l, y.s, w)), w', m, Busy(y.s.rvalid, y.s.bvalid), g);
  }

  /** One clock cycle under any gates. */
  lemma CycleKeepsInv(y: System, w: Wires, m: Memory, gn: Gates, gp: Gates, w': Wires)
    requires Inv(y, w, m) && InRange(w) && MasterHolds(Neg(y, w, gn).s, w, w')
    ensures Inv(Neg(y, w, gn), w, m) && Inv(Pos(Neg(y, w, gn), w, gp), w', m)
  {
    NegKeepsInv(y, w, m, gn);
    PosKeepsInv(Neg(y, w, gn), w, m, gp, w');
  }

  // ---------------------------------------------------------------- runs

  /** One clock cycle of input: what the master drives and how the two edges are gated. */
  datatype Cycle = Cycle(w: Wires, neg: Gates, pos: Gates)

  function RunCycles(y: System, cs: seq<Cycle>): System
    decreases |cs|
  {
    if cs == [] then y else RunCycles(Pos(Neg(y, cs[0].w, cs[0].neg), cs[0].w, cs[0].pos), cs[1..])
  }

  /** The master stays in range and holds its requests; last is what it drives in the end. */
  predicate WellDriven(y: System, cs: seq<Cycle>, last: Wires)
    decreases |cs|
  {
    cs == [] ||
    var w' := if |cs| == 1 then last else cs[1].w;
    var n := Neg(y, cs[0].w, cs[0].neg);
    InRange(cs[0].w) && MasterHolds(n.s, cs[0].w, w') && WellDriven(Pos(n, cs[0].w, cs[0].pos), cs[1..], last)
  }

  lemma {:induction false} RunKeepsInv(y: System, cs: seq<Cycle>, last: Wires, m: Memory)
    requires WellDriven(y, cs, last) && Inv(y, if cs == [] then last else cs[0].w, m)
    ensures Inv(RunCycles(y, cs), last, m)
    decreases |cs|
  {
    if cs != [] {
      var w' := if |cs| == 1 then last else cs[1].w;
      CycleKeepsInv(y, cs[0].w, m, cs[0].neg, cs[0].pos, w');
      RunKeepsInv(Pos(Neg(y, cs[0].w, cs[0].neg), cs[0].w, cs[0].pos), cs[1..], last, m);
    }
  }

  function Empty(): Log { Log([], [], [], [], 0, [], [], [], [], []) }

  lemma ConservedPrefix<T>(c: Chan<T>, valid: bool, payload: T, acc: seq<T>, served: seq<T>)
    requires Conserved(c, valid, payload, acc, served)
    ensures forall k :: 0 <= k < |served| && k < |acc| ==> served[k] == acc[k]
    ensures |acc| + (if c.fast then 1 else 0) == |served| + (if c.en then 1 else 0)
  {
    var all := acc + (if c.fast then [payload] else []);
    assert forall k :: 0 <= k < |acc| ==> all[k] == acc[k];
    assert forall k :: 0 <= k < |served| ==> all[k] == served[k];
  }

  /** The k-th response accepted answers the k-th read request accepted. */
  predicate ReadsOnce(l: Log) {
    && |l.rAcc| <= |l.arAcc| <= |l.rAcc| + 2
    && |l.rAcc| <= |l.readData| == |l.readAddr|
    && forall k :: 0 <= k < |l.rAcc| ==> l.readAddr[k] == l.arAcc[k] && l.readData[k] == l.rAcc[k]
  }

  /** The writes performed are the address and data beats in order, one response each. */
  predicate WritesOnce(l: Log) {
    && l.bAcc <= |l.awAcc| <= l.bAcc + 2 && l.bAcc <= |l.wAcc| <= l.bAcc + 2
    && l.bAcc <= |l.writeAddr| == |l.writeBeat| <= l.bAcc + 1
    && (forall k :: 0 <= k < |l.writeAddr| && k < |l.awAcc| ==> l.writeAddr[k] == l.awAcc[k])
    && (forall k :: 0 <= k < |l.writeBeat| && k < |l.wAcc| ==> l.writeBeat[k] == l.wAcc[k])
  }

  lemma ReadSide(y: System, w: Wires, m: Memory)
    requires Inv(y, w, m)
    ensures ReadsOnce(y.l)
  {
    ConservedPrefix(y.s.ar, w.arvalid, w.araddr, y.l.arAcc, y.l.readAddr);
    var all := y.l.rAcc + (if y.s.rvalid then [y.s.rdata] else []);
    assert forall k :: 0 <= k < |y.l.rAcc| ==> all[k] == y.l.rAcc[k];
  }

  lemma WriteSide(y: System, w: Wires, m: Memory)
    requires Inv(y, w, m)
    ensures WritesOnce(y.l)
  {
    ConservedPrefix(y.s.aw, w.awvalid, w.awaddr, y.l.awAcc, y.l.writeAddr);
    ConservedPrefix(y.s.wd, w.wvalid, Beat(w.wdata, w.wstrb), y.l.wAcc, y.l.writeBeat);
  }

  /** Exactly once, for every choice of gates: reads and writes are served once each and in
      order, a read returns what memory held after some number of the writes, memory holds
      every write performed, and $finish is never reached. */
  lemma ExactlyOnce(cs: seq<Cycle>, last: Wires)
    requires WellDriven(System(Reset(), Empty()), cs, last)
    ensures var y := RunCycles(System(Reset(), Empty()), cs);
            && !y.s.finished && ReadsOnce(y.l) && WritesOnce(y.l) && ReadsRight(y.l, map[])
            && y.s.mem == StoreAll(map[], y.l.writeAddr, y.l.writeBeat)
  {
    var y0 := System(Reset(), Empty());
    RunKeepsInv(y0, cs, last, map[]);
    ReadSide(RunCycles(y0, cs), last, map[]);
    WriteSide(RunCycles(y0, cs), last, map[]);
  }

  // ---------------------------------------------------------------- byte lanes

  /** Lane i of a memory word after these writes: the last one to that word of memory with that
      lane's strobe set, or zero. */
  function LaneAfter(addrs: seq<Addr>, beats: seq<Beat>, word: nat, i: nat): Byte
    requires |addrs| == |beats| && i < 4
  {
    if addrs == [] then 0
    else
      var n := |addrs| - 1;
      if addrs[n].word == word && word < 0x4000 && Selects(beats[n].strb, i) then Lane(beats[n].data, i)
      else LaneAfter(addrs[..n], beats[..n], word, i)
  }

  lemma {:induction false} StoredLanes(addrs: seq<Addr>, beats: seq<Beat>, a: Addr, i: nat)
    requires |addrs| == |beats| && i < 4
    ensures Lane(Fetch(StoreAll(map[], addrs, beats), a), i) == LaneAfter(addrs, beats, a.word, i)
  {
    if addrs != [] {
      var n := |addrs| - 1;
      StoredLanes(addrs[..n], beats[..n], a, i);
      MergedLanes(Fetch(StoreAll(map[], addrs[..n], beats[..n]), addrs[n]), beats[n].data, beats[n].strb, i);
    }
  }

  /** Over every run each read returns, lane by lane, what the writes served before it left
      there: the data of the last one that strobed the lane, or the initial zero. */
  lemma ReadsReturnLastWrites(cs: seq<Cycle>, last: Wires, k: nat, i: nat)
    requires WellDriven(System(Reset(), Empty()), cs, last) && i < 4
    requires k < |RunCycles(System(Reset(), Empty()), cs).l.readData|
    ensures var l := RunCycles(System(Reset(), Empty()), cs).l;
            && k < |l.readAt| && k < |l.readAddr| && |l.writeAddr| == |l.writeBeat| && l.readAt[k] <= |l.writeAddr|
            && Lane(l.readData[k], i) ==
               LaneAfter(l.writeAddr[..l.readAt[k]], l.writeBeat[..l.readAt[k]], l.readAddr[k].word, i)
  {
    ExactlyOnce(cs, last);
    var l := RunCycles(System(Reset(), Empty()), cs).l;
    StoredLanes(l.writeAddr[..l.readAt[k]], l.writeBeat[..l.readAt[k]], l.readAddr[k], i);
  }

  /** A served write, seen in the memory array: the strobed lanes of the addressed word hold the
      data, the others what they held, no other word changes, and output to the console changes
      nothing. */
  lemma ServedWriteLanes(s: Axi, busy: Busy, g: Gates, word: nat)
    requires AnswersB(s, busy, g)
    ensures var before, after, a, b := s.mem, Answer(s, busy, g).mem, s.aw.held.word, s.wd.held;
            var old_ := if a in before then before[a] else Lanes(0, 0, 0, 0);
            && (a >= 0x4000 ==> after == before)
            && (a < 0x4000 ==>
                  && a in after
                  && after[a].b3 == (if b.strb.s3 then b.data.b3 else old_.b3)
                  && after[a].b2 == (if b.strb.s2 then b.data.b2 else old_.b2)
                  && after[a].b1 == (if b.strb.s1 then b.data.b1 else old_.b1)
                  && after[a].b0 == (if b.strb.s0 then b.data.b0 else old_.b0))
            && (word != a ==> (word in after <==> word in before) && (word in before ==> after[word] == before[word]))
  {
  }

  /** A served read answers with the addressed word of the memory array; without a served write
      the array stays as it is. */
  lemma ServedReadWord(s: Axi, busy: Busy, g: Gates)
    ensures AnswersR(s, busy, g) ==>
              && Answer(s, busy, g).rvalid
              && Answer(s, busy, g).rdata ==
                 (if s.ar.held.word in s.mem then s.mem[s.ar.held.word] else Lanes(0, 0, 0, 0))
    ensures !AnswersB(s, busy, g) ==> Answer(s, busy, g).mem == s.mem
  {
  }

  /** $finish is called exactly for a read that would be answered from byte address 65536 on, and
      for a write there that is not to 0x10000000; such a read gets no response. */
  lemma OutOfRangeFinishes(s: Axi, busy: Busy, g: Gates)
    requires !s.finished
    ensures var read := !busy.r && s.ar.en && g.r && 4 * s.ar.held.word + s.ar.held.offset >= 0x1_0000;
            var write := !busy.b && s.aw.en && s.wd.en && g.b && s.aw.held.word >= 0x4000
                         && !(s.aw.held.word == 0x400_0000 && s.aw.held.offset == 0);
            (s.ar.held.offset < 4 ==> (Answer(s, busy, g).finished <==> read || write))
            && (s.ar.held.offset < 4 && read ==> Answer(s, busy, g).rvalid == s.rvalid)
  {
  }

  /** A response and its data stay until the master takes them. */
  lemma ResponsesStay(s: Axi, w: Wires, gn: Gates, gp: Gates)
    ensures var n := AfterNegEdge(s, w, gn); var p := AfterPosEdge(n, w, gp);
            && (s.rvalid ==> n.rvalid && n.rdata == s.rdata)
            && (s.rvalid && !w.rready ==> p.rvalid && p.rdata == s.rdata)
            && (s.bvalid ==> n.bvalid)
            && (s.bvalid && !w.bready ==> p.bvalid)
  {
  }

  /** Nothing but a closed gate or an unaccepted response postpones a latched request. */
  lemma OpenGateServes(s: Axi, w: Wires, g: Gates)
    requires LatchesInRange(s) && InRange(w)
    ensures s.ar.en && !s.rvalid && g.r ==> AfterNegEdge(s, w, g).rvalid && !AfterNegEdge(s, w, g).ar.en
    ensures s.aw.en && s.wd.en && !s.bvalid && g.b ==>
              AfterNegEdge(s, w, g).bvalid && !AfterNegEdge(s, w, g).aw.en && !AfterNegEdge(s, w, g).wd.en
    ensures w.arvalid && !s.ar.en && !s.ar.fast && g.ar ==> AfterNegEdge(s, w, g).ar.ready
    ensures w.awvalid && !s.aw.en && !s.aw.fast && g.aw ==> AfterNegEdge(s, w, g).aw.ready
    ensures w.wvalid && !s.wd.en && !s.wd.fast && g.w ==> AfterNegEdge(s, w, g).wd.ready
  {
  }

  /** The same on the rising edge. */
  lemma OpenGateAnswersOnPosEdge(s: Axi, w: Wires, g: Gates)
    requires LatchesInRange(s) && InRange(w)
    ensures s.ar.en && !s.rvalid && g.r ==> AfterPosEdge(s, w, g).rvalid && !AfterPosEdge(s, w, g).ar.en
    ensures s.aw.en && s.wd.en && !s.bvalid && g.b ==>
              AfterPosEdge(s, w, g).bvalid && !AfterPosEdge(s, w, g).aw.en && !AfterPosEdge(s, w, g).wd.en
  {
  }

  lemma OpenGateTakesOnPosEdge(s: Axi, w: Wires, g: Gates)
    ensures w.arvalid && !s.ar.en && !s.ar.ready && !s.ar.fast && g.ar ==> AfterPosEdge(s, w, g).ar.ready
    ensures w.awvalid && !s.aw.en && !s.aw.ready && !s.aw.fast && g.aw ==> AfterPosEdge(s, w, g).aw.ready
    ensures w.wvalid && !s.wd.en && !s.wd.ready && !s.wd.fast && g.w ==> AfterPosEdge(s, w, g).wd.ready
  {
  }

  /** With its gates open and no response waiting, either edge takes a new read and answers it at
      once with the word at its address. */
  lemma ReadAnsweredAtOnce(s: Axi, w: Wires, g: Gates)
    requires g.ar && g.r && InRange(w) && !s.rvalid && !s.ar.en && !s.ar.fast && !s.ar.ready && w.arvalid
    ensures AfterNegEdge(s, w, g).rvalid && AfterNegEdge(s, w, g).rdata == Fetch(s.mem, w.araddr)
    ensures AfterPosEdge(s, w, g).rvalid && AfterPosEdge(s, w, g).rdata == Fetch(s.mem, w.araddr)
  {
  }

  /** And a new write, with its data at its address. */
  lemma WriteDoneAtOnce(s: Axi, w: Wires, g: Gates)
    requires g.aw && g.w && g.b && InRange(w) && !s.bvalid && w.awvalid && w.wvalid
    requires !s.aw.en && !s.aw.fast && !s.aw.ready && !s.wd.en && !s.wd.fast && !s.wd.ready
    ensures var done := Store(s.mem, Write(w.awaddr, w.wdata, w.wstrb));
            && AfterNegEdge(s, w, g).bvalid && AfterNegEdge(s, w, g).mem == done
            && AfterPosEdge(s, w, g).bvalid && AfterPosEdge(s, w, g).mem == done
  {
  }
}
