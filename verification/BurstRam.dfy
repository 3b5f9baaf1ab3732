/** ram_wb_b3: a Wishbone B3 memory with registered-feedback bursts, clocked against a flat
    memory that serves one beat at a time. */
module BurstRam {
  import Arith
  import opened Common
  import opened WbBurst

  /** Words by word index, wb_adr_i[mem_adr_width-1:2]. */
  type Memory = map<nat, Lanes>

  const ZERO_WORD: Lanes := Lanes(0, 0, 0, 0)
  const INDEX_SPACE: nat := 0x2000

  /** The cycle type; 3'b011 to 3'b110 are reserved. */
  datatype Cti = Classic | ConstBurst | IncBurst | EndOfBurst | Reserved

  datatype Ram = Ram(
    adr: nat, trans: bool, counter: nat, bteR: Bte, ctiR: Cti, ackR: bool, mem: Memory)

  datatype Wires = Wires(
    rst: bool, adr: nat, dat: Lanes, sel: Select, we: bool, bte: Bte, cti: Cti, cyc: bool, stb: bool)

  function Fetch(m: Memory, i: nat): Lanes { if i in m then m[i] else ZERO_WORD }

  // ---------------------------------------------------------------- combinational logic

  predicate TransStart(r: Ram, w: Wires) {
    (w.cti.ConstBurst? || w.cti.IncBurst?) && w.stb && !r.trans && w.cyc
  }

  predicate WrongAdr(r: Ram, w: Wires) { r.trans && r.adr != w.adr }

  predicate Ack(r: Ram, w: Wires) { r.ackR && w.stb && !WrongAdr(r, w) }

  predicate Err(r: Ram, w: Wires) { r.ackR && w.stb && WrongAdr(r, w) }

  predicate TransStop(r: Ram, w: Wires) {
    (w.cti.EndOfBurst? && w.stb && r.trans && Ack(r, w)) || Err(r, w)
  }

  /** Low address bits stepped into the latch, which keeps its upper bits. */
  function LatchLow(counter: nat, adr: nat, m: nat): nat
    requires m > 0
  {
    counter / m * m + (adr % m + 1) % m
  }

  /** The settled value of the burst_adr_counter latch. */
  function Counter(r: Ram, w: Wires): nat {
    if TransStart(r, w) then w.adr
    else if r.ctiR.IncBurst? && Ack(r, w) && r.trans then
      match r.bteR
      case Linear => (r.adr + 1) % INDEX_SPACE
      case Wrap4 => LatchLow(r.counter, r.adr, 4)
      case Wrap8 => LatchLow(r.counter, r.adr, 8)
      case Wrap16 => LatchLow(r.counter, r.adr, 16)
    else r.counter
  }

  function DatO(r: Ram): Lanes { Fetch(r.mem, r.adr) }

  // ---------------------------------------------------------------- the clocked blocks

  function NextAckR(r: Ram, w: Wires): bool {
    if w.rst then false
    else if !w.cyc then false
    else match w.cti
      case Classic => w.stb != r.ackR
      case ConstBurst => w.stb
      case IncBurst => w.stb
      case EndOfBurst => w.stb && !r.ackR
      case Reserved => r.ackR
  }

  function Step(r: Ram, w: Wires): Ram {
    Ram(
      if w.rst then 0
      else if r.trans then Counter(r, w)
      else if w.cyc && w.stb then w.adr
      else r.adr,
      if w.rst then false
      else if TransStart(r, w) then true
      else if TransStop(r, w) then false
      else r.trans,
      Counter(r, w),
      w.bte,
      w.cti,
      NextAckR(r, w),
      if w.we && Ack(r, w) then r.mem[r.adr := Merge(DatO(r), w.dat, w.sel)] else r.mem)
  }

  // ---------------------------------------------------------------- the bus master

  /** What a B3 master owes: nothing, the access it has presented, or the next beat of a burst
      (offered with this cti, or still to be offered). */
  datatype Master =
    | Idle
    | Single(adr: nat, cti: Cti)
    | InBurst(adr: nat, bte: Bte, kind: Cti, offered: Option<Cti>)

  /** The word index the standard prescribes for the next beat. */
  function NextIndex(i: nat, bte: Bte, kind: Cti): nat {
    if kind.ConstBurst? then i
    else match bte
      case Linear => (i + 1) % INDEX_SPACE
      case Wrap4 => StepLowField(i, 4, 1)
      case Wrap8 => StepLowField(i, 8, 1)
      case Wrap16 => StepLowField(i, 16, 1)
  }

  /** Signals a compliant master may drive: address and tags are those of the beat whenever the
      strobe is high, and held until the RAM answers. While the strobe is low they are free. */
  predicate Drives(m: Master, w: Wires) {
    && !w.rst
    && match m
       case Idle => w.cyc && w.stb ==> !w.cti.Reserved?
       case Single(a, c) => w.cyc && w.stb && w.adr == a && w.cti == c
       case InBurst(a, bte, kind, offered) =>
         && w.cyc
         && (w.stb ==> w.adr == a && w.bte == bte && (w.cti == kind || w.cti.EndOfBurst?))
         && (offered.Some? ==> w.stb && w.cti == offered.value)
  }

  function NextMaster(m: Master, w: Wires, ack: bool): Master {
    match m
    case Idle =>
      if !(w.cyc && w.stb) then Idle
      else if w.cti.Classic? || w.cti.EndOfBurst? then Single(w.adr, w.cti)
      else InBurst(w.adr, w.bte, w.cti, Some(w.cti))
    case Single(_, _) => if ack then Idle else m
    case InBurst(a, bte, kind, _) =>
      if !w.stb then m
      else if !ack then InBurst(a, bte, kind, Some(w.cti))
      else if w.cti.EndOfBurst? then Idle
      else InBurst(NextIndex(a, bte, kind), bte, kind, None)
  }

  /** The part of a master's past that matters to the RAM: nothing, a beat in the last cycle,
      only wait cycles with a classic or reserved tag since a beat, or a further beat of an incrementing
      burst directly after such wait cycles. */
  datatype Past = Even | Fresh | Stale | Lost

  /** The tags with which a wait cycle leaves the acknowledge register as it is. */
  predicate KeepsAck(c: Cti) { c.Classic? || c.Reserved? }

  function NextPast(p: Past, m: Master, w: Wires, ack: bool): Past {
    if !m.InBurst? then Even
    else if !w.stb then
      if p.Fresh? || p.Stale? then (if KeepsAck(w.cti) then Stale else Even) else p
    else if !ack then p
    else if w.cti.EndOfBurst? then Even
    else if p.Stale? && m.kind.IncBurst? then Lost
    else Fresh
  }

  // ---------------------------------------------------------------- one clock

  /** RAM and master agree on the addressed word, unless the burst is lost. */
  predicate InStep(r: Ram, m: Master, p: Past) {
    match m
    case Idle => p.Even? && !r.trans && !r.ackR
    case Single(a, c) => p.Even? && !r.trans && r.ackR && r.adr == a && (c.Classic? || c.EndOfBurst?)
    case InBurst(a, bte, kind, offered) =>
      && r.trans && r.counter == r.adr && (kind.ConstBurst? || kind.IncBurst?)
      && (r.adr == a <==> !p.Lost?)
      && (p.Even? ==> r.ackR == offered.Some?)
      && (p.Fresh? || p.Stale? ==> r.ackR && offered.None?)
      && (p.Lost? ==> kind.IncBurst? && (offered.Some? ==> r.ackR))
      && (p.Stale? ==> KeepsAck(r.ctiR))
      && (p.Fresh? ==> r.ctiR == kind && r.bteR == bte)
      && (p.Even? && offered.Some? ==> r.ctiR == offered.value && r.bteR == bte
                                       && (r.ctiR == kind || r.ctiR.EndOfBurst?))
  }

  /** The RAM answers a presented access. */
  predicate Answers(r: Ram, w: Wires) { r.ackR && w.stb }

  lemma NextMoves(i: nat, m: nat)
    requires m >= 2
    ensures (i + 1) % m != i
  {
    if i + 1 < m {
      Arith.ModUnique(i + 1, m, 0, i + 1);
    } else if i + 1 == m {
      Arith.ModUnique(i + 1, m, 1, 0);
    }
  }

  lemma IndexMoves(i: nat, bte: Bte)
    ensures NextIndex(i, bte, IncBurst) != i
  {
    if bte.Linear? {
      NextMoves(i, INDEX_SPACE);
    } else {
      StepLowFieldMoves(i, WrapBeats(bte), i / WrapBeats(bte));
    }
  }

  /** One clock of a RAM and a compliant master in step: the answer is an error if the burst is
      lost and otherwise an acknowledge for exactly the word addressed. */
  lemma StepInStep(r: Ram, m: Master, p: Past, w: Wires)
    requires InStep(r, m, p) && Drives(m, w)
    ensures Err(r, w) <==> Answers(r, w) && p.Lost?
    ensures Ack(r, w) <==> Answers(r, w) && !p.Lost?
    ensures Ack(r, w) ==> r.adr == w.adr && !m.Idle?
    ensures !Err(r, w) ==>
              InStep(Step(r, w), NextMaster(m, w, Ack(r, w)), NextPast(p, m, w, Ack(r, w)))
  {
    if m.InBurst? {
      IndexMoves(m.adr, m.bte);
    }
  }

  // ---------------------------------------------------------------- refinement

  /** One beat on a flat memory. */
  function FlatBeat(mem: Memory, w: Wires): Memory {
    if w.we then mem[w.adr := Merge(Fetch(mem, w.adr), w.dat, w.sel)] else mem
  }

  /** A run as its master sees it: the beats acknowledged, the word returned with each, and the
      errors. */
  datatype Trace = Trace(r: Ram, m: Master, past: Past, beats: seq<Wires>, data: seq<Lanes>, errors: nat)

  function Clock(t: Trace, w: Wires): Trace {
    var ack := Ack(t.r, w);
    Trace(
      Step(t.r, w), NextMaster(t.m, w, ack), NextPast(t.past, t.m, w, ack),
      if ack then t.beats + [w] else t.beats,
      if ack then t.data + [DatO(t.r)] else t.data,
      if Err(t.r, w) then t.errors + 1 else t.errors)
  }

  /** A run of a compliant master, up to the first error. */
  predicate Compliant(t: Trace, ws: seq<Wires>)
    decreases |ws|
  {
    ws == [] || (t.errors == 0 && Drives(t.m, ws[0]) && Compliant(Clock(t, ws[0]), ws[1..]))
  }

  function RunTrace(t: Trace, ws: seq<Wires>): Trace
    decreases |ws|
  {
    if ws == [] then t else RunTrace(Clock(t, ws[0]), ws[1..])
  }

  /** The flat memory before beat n of a list of beats. */
  function Flat(mem: Memory, beats: seq<Wires>): Memory {
    if beats == [] then mem else FlatBeat(Flat(mem, beats[..|beats| - 1]), beats[|beats| - 1])
  }

  /** The acknowledged beats read and byte-merged a flat memory one at a time. */
  predicate Refines(t: Trace, mem: Memory) {
    && (t.errors == 0 ==> InStep(t.r, t.m, t.past))
    && t.r.mem == Flat(mem, t.beats)
    && |t.data| == |t.beats|
    && forall n :: 0 <= n < |t.beats| ==> t.data[n] == Fetch(Flat(mem, t.beats[..n]), t.beats[n].adr)
  }

  lemma ClockRefines(t: Trace, w: Wires, mem: Memory)
    requires Refines(t, mem) && t.errors == 0 && Drives(t.m, w)
    ensures Refines(Clock(t, w), mem)
  {
    StepInStep(t.r, t.m, t.past, w);
    if Ack(t.r, w) {
      var beats := t.beats + [w];
      assert beats[..|t.beats|] == t.beats;
      forall n | 0 <= n < |beats|
        ensures (t.data + [DatO(t.r)])[n] == Fetch(Flat(mem, beats[..n]), beats[n].adr)
      {
        if n < |t.beats| {
          assert beats[..n] == t.beats[..n];
        }
      }
    }
  }

  /** For every compliant master and every run, the acknowledged beats read and byte-merge a
      flat memory one at a time at the addressed words. */
  lemma {:induction false} RunRefinesFlatMemory(t: Trace, ws: seq<Wires>, mem: Memory)
    requires Refines(t, mem) && Compliant(t, ws)
    ensures Refines(RunTrace(t, ws), mem)
    decreases |ws|
  {
    if ws != [] {
      ClockRefines(t, ws[0], mem);
      RunRefinesFlatMemory(Clock(t, ws[0]), ws[1..], mem);
    }
  }

  // ---------------------------------------------------------------- byte lanes

  /** Lane i of word a after these beats: the last write beat that addressed the word and
      selected the lane, or what was there before. */
  function LaneAfter(mem: Memory, beats: seq<Wires>, a: nat, i: nat): Byte
    requires i < 4
  {
    if beats == [] then (if a in mem then Lane(mem[a], i) else 0)
    else
      var w := beats[|beats| - 1];
      if w.we && w.adr == a && Selects(w.sel, i) then Lane(w.dat, i)
      else LaneAfter(mem, beats[..|beats| - 1], a, i)
  }

  lemma {:induction false} FlatLanes(mem: Memory, beats: seq<Wires>, a: nat, i: nat)
    requires i < 4
    ensures Lane(Fetch(Flat(mem, beats), a), i) == LaneAfter(mem, beats, a, i)
  {
    if beats != [] {
      var front, w := beats[..|beats| - 1], beats[|beats| - 1];
      FlatLanes(mem, front, a, i);
      MergedLanes(Fetch(Flat(mem, front), w.adr), w.dat, w.sel, i);
    }
  }

  /** For every compliant master and every run, each acknowledged beat returns, lane by lane,
      what was last written to that lane of the addressed word; other words and lanes that are
      not selected keep what they held. */
  lemma BeatsReadLastWrites(t: Trace, ws: seq<Wires>, mem: Memory, n: nat, i: nat)
    requires Refines(t, mem) && Compliant(t, ws) && n < |RunTrace(t, ws).beats| && i < 4
    ensures var e := RunTrace(t, ws);
            |e.data| == |e.beats| && Lane(e.data[n], i) == LaneAfter(mem, e.beats[..n], e.beats[n].adr, i)
  {
    RunRefinesFlatMemory(t, ws, mem);
    FlatLanes(mem, RunTrace(t, ws).beats[..n], RunTrace(t, ws).beats[n].adr, i);
  }

  /** One acknowledged write beat, seen in the memory array: the selected lanes of the addressed
      word hold the data, the others what they held, and no other word changes. */
  lemma WriteBeatLanes(t: Trace, w: Wires, mem: Memory, a: nat)
    requires Refines(t, mem) && t.errors == 0 && Drives(t.m, w) && Ack(t.r, w) && w.we
    ensures var before, after := t.r.mem, Clock(t, w).r.mem;
            var old_ := if w.adr in before then before[w.adr] else Lanes(0, 0, 0, 0);
            && w.adr in after
            && after[w.adr].b3 == (if w.sel.s3 then w.dat.b3 else old_.b3)
            && after[w.adr].b2 == (if w.sel.s2 then w.dat.b2 else old_.b2)
            && after[w.adr].b1 == (if w.sel.s1 then w.dat.b1 else old_.b1)
            && after[w.adr].b0 == (if w.sel.s0 then w.dat.b0 else old_.b0)
            && (a != w.adr ==> (a in after <==> a in before) && (a in before ==> after[a] == before[a]))
  {
    StepInStep(t.r, t.m, t.past, w);
  }

  /** One acknowledged beat returns the addressed word of the memory array, and one that does
      not write leaves the array alone. */
  lemma ReadBeatWord(t: Trace, w: Wires, mem: Memory)
    requires Refines(t, mem) && t.errors == 0 && Drives(t.m, w) && Ack(t.r, w)
    ensures Clock(t, w).data == t.data + [if w.adr in t.r.mem then t.r.mem[w.adr] else Lanes(0, 0, 0, 0)]
    ensures !w.we ==> Clock(t, w).r.mem == t.r.mem
  {
    StepInStep(t.r, t.m, t.past, w);
  }

  /** A clock without an acknowledge leaves the array alone and returns nothing. */
  lemma NoBeatNoChange(t: Trace, w: Wires)
    requires !Ack(t.r, w)
    ensures Clock(t, w).r.mem == t.r.mem && Clock(t, w).data == t.data
  {
  }

  /** The successor the standard prescribes is that of the bus functional model, on words. */
  lemma NextIndexIsNextAddr(i: nat, bte: Bte)
    requires i < INDEX_SPACE
    ensures NextIndex(i, bte, IncBurst) < INDEX_SPACE
    ensures 4 * NextIndex(i, bte, IncBurst) == if bte.Linear? && i + 1 == INDEX_SPACE then 0 else NextAddr(4 * i, bte)
  {
    if bte.Linear? {
      if i + 1 == INDEX_SPACE {
        Arith.ModUnique(i + 1, INDEX_SPACE, 1, 0);
      } else {
        Arith.ModUnique(i + 1, INDEX_SPACE, 0, i + 1);
        InSpace(4 * i + 4);
      }
    } else {
      var n := WrapBeats(bte);
      WordFieldIsByteField(i, n);
      WrapIsStep(4 * i, bte, 4 * n);
      StepStaysBelow(i, bte);
    }
  }

  lemma StepStaysBelow(i: nat, bte: Bte)
    requires i < INDEX_SPACE && !bte.Linear?
    ensures NextIndex(i, bte, IncBurst) < INDEX_SPACE
  {
  }

  function AfterReset(r: Ram, w: Wires): Trace { Trace(Step(r, w), Idle, Even, [], [], 0) }

  lemma ResetRefines(r: Ram, w: Wires)
    requires w.rst
    ensures Refines(AfterReset(r, w), Step(r, w).mem)
  {
  }

  // ---------------------------------------------------------------- which beats are served

  /** The tags of a run: no beat of an incrementing burst but its last comes directly after
      wait cycles that all carried neither a burst tag nor the end-of-burst tag. */
  predicate TagsKept(t: Trace, ws: seq<Wires>)
    decreases |ws|
  {
    ws == [] ||
    (!(t.past.Stale? && t.m.InBurst? && t.m.kind.IncBurst? && ws[0].stb && ws[0].cti.IncBurst?) &&
     TagsKept(Clock(t, ws[0]), ws[1..]))
  }

  lemma {:induction false} LostStays(t: Trace, ws: seq<Wires>, mem: Memory)
    requires Refines(t, mem) && Compliant(t, ws) && t.past.Lost? && (t.errors == 0 ==> t.m.InBurst?)
    ensures RunTrace(t, ws).past.Lost?
    decreases |ws|
  {
    if ws != [] {
      StepInStep(t.r, t.m, t.past, ws[0]);
      ClockRefines(t, ws[0], mem);
      LostStays(Clock(t, ws[0]), ws[1..], mem);
    }
  }

  lemma {:induction false} LostIffTagsDropped(t: Trace, ws: seq<Wires>, mem: Memory)
    requires Refines(t, mem) && Compliant(t, ws) && !t.past.Lost? && t.errors == 0
    ensures RunTrace(t, ws).past.Lost? <==> !TagsKept(t, ws)
    ensures RunTrace(t, ws).errors > 0 ==> RunTrace(t, ws).past.Lost?
    decreases |ws|
  {
    if ws != [] {
      var w, t' := ws[0], Clock(t, ws[0]);
      StepInStep(t.r, t.m, t.past, w);
      ClockRefines(t, w, mem);
      if t'.past.Lost? {
        LostStays(t', ws[1..], mem);
      } else {
        LostIffTagsDropped(t', ws[1..], mem);
      }
    }
  }

  /** The first answer to an access that is presented for as long as two cycles. */
  predicate Served(r: Ram, w: Wires, w': Wires) { Ack(r, w) || (!Err(r, w) && Ack(Step(r, w), w')) }

  predicate Refused(r: Ram, w: Wires, w': Wires) { Err(r, w) || (!Ack(r, w) && Err(Step(r, w), w')) }

  /** After every run of a compliant master, an access is answered in the second cycle at the
      latest; it is acknowledged if and only if the run kept its tags, and refused with an
      error if and only if it did not. */
  lemma ServedIffTagsKept(t: Trace, ws: seq<Wires>, mem: Memory, w: Wires, w': Wires)
    requires Refines(t, mem) && Compliant(t, ws) && !t.past.Lost? && t.errors == 0
    requires RunTrace(t, ws).errors == 0
    requires Drives(RunTrace(t, ws).m, w) && w.cyc && w.stb
    requires Drives(NextMaster(RunTrace(t, ws).m, w, Ack(RunTrace(t, ws).r, w)), w')
    ensures Served(RunTrace(t, ws).r, w, w') <==> TagsKept(t, ws)
    ensures Refused(RunTrace(t, ws).r, w, w') <==> !TagsKept(t, ws)
  {
    RunRefinesFlatMemory(t, ws, mem);
    LostIffTagsDropped(t, ws, mem);
    FirstAnswer(RunTrace(t, ws), w, w');
  }

  lemma FirstAnswer(e: Trace, w: Wires, w': Wires)
    requires InStep(e.r, e.m, e.past) && Drives(e.m, w) && w.cyc && w.stb
    requires Drives(NextMaster(e.m, w, Ack(e.r, w)), w')
    ensures Served(e.r, w, w') <==> !e.past.Lost?
    ensures Refused(e.r, w, w') <==> e.past.Lost?
  {
    StepInStep(e.r, e.m, e.past, w);
    if !Answers(e.r, w) {
      StepInStep(Step(e.r, w), NextMaster(e.m, w, false), NextPast(e.past, e.m, w, false), w');
      assert Answers(Step(e.r, w), w');
    }
  }

  /** A read beat of a linear burst, and a wait cycle with some tag. */
  function BeatAt(i: nat): Wires {
    Wires(false, i, ZERO_WORD, Select(true, true, true, true), false, Linear, IncBurst, true, true)
  }

  function Wait(c: Cti): Wires { BeatAt(0).(stb := false, cti := c) }

  lemma OneClock(t: Trace, w: Wires, ws: seq<Wires>)
    ensures RunTrace(t, [w] + ws) == RunTrace(Clock(t, w), ws)
    ensures t.errors == 0 && Drives(t.m, w) && Compliant(Clock(t, w), ws) ==> Compliant(t, [w] + ws)
    ensures !TagsKept(Clock(t, w), ws) ==> !TagsKept(t, [w] + ws)
  {
    assert ([w] + ws)[1..] == ws;
  }

  /** Compliant masters do drop their tags: a beat, a wait cycle with such a tag, a second beat
      that is acknowledged and a third that is refused. */
  lemma DroppedTagsExist(r: Ram, rst: Wires, tag: Cti) returns (ws: seq<Wires>)
    requires rst.rst && KeepsAck(tag)
    ensures var t := AfterReset(r, rst);
            Compliant(t, ws) && !TagsKept(t, ws) && |RunTrace(t, ws).beats| == 2 && RunTrace(t, ws).errors == 1
  {
    var t0 := AfterReset(r, rst);
    var t1 := Clock(t0, BeatAt(0));
    var t2 := Clock(t1, BeatAt(0));
    var t3 := Clock(t2, Wait(tag));
    var t4 := Clock(t3, BeatAt(1));
    assert t2.m == InBurst(1, Linear, IncBurst, None) && t2.past == Fresh;
    assert t3.past == Stale && t4.m == InBurst(2, Linear, IncBurst, None) && t4.errors == 0;
    OneClock(t4, BeatAt(2), []);
    OneClock(t3, BeatAt(1), [BeatAt(2)] + []);
    OneClock(t2, Wait(tag), [BeatAt(1)] + ([BeatAt(2)] + []));
    OneClock(t1, BeatAt(0), [Wait(tag)] + ([BeatAt(1)] + ([BeatAt(2)] + [])));
    ws := [BeatAt(0)] + ([BeatAt(0)] + ([Wait(tag)] + ([BeatAt(1)] + ([BeatAt(2)] + []))));
    OneClock(t0, BeatAt(0), ws[1..]);
    assert ws == [BeatAt(0)] + ws[1..];
  }
}
