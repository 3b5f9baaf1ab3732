/** The cached scan-chain selection of rsp-rtl_sim.c: current_chain and dbg_chain against the
    chain the debug unit has really selected. */
module ChainCache {
  import opened DebugPipes
  import opened PipeRuns

  const DC_WISHBONE: Word := 0
  const DC_CPU0: Word := 1
  const JI_IDCODE: Word := 2
  const JI_DEBUG: Word := 8

  /** Chain a call has to be served on. */
  predicate OnWishbone(r: Request) {
    r.WbWr? || r.WbRd32? || r.WbRd8? || r.WbBlockWr32? || r.WbBlockRd32?
  }

  predicate OnCpu(r: Request) { r.CpuCtrlWr? || r.CpuCtrlRd? || r.CpuWrReg? || r.CpuRdReg? }

  /** Chain selected in the device after these calls; -1 when nothing is known, as after a TAP
      reset or while another instruction is loaded. */
  function DeviceChain(calls: seq<Call>): int {
    if calls == [] then -1
    else match calls[|calls| - 1]
      case SetDebugChain(c) => c
      case ResetTap => -1
      case SetIr(_) => -1
      case _ => DeviceChain(calls[..|calls| - 1])
  }

  /** Every Wishbone call is served with chain 0 and every CPU call with chain 1. */
  predicate ServedRight(calls: seq<Call>) {
    forall i :: 0 <= i < |calls| ==>
                  && (OnWishbone(calls[i]) ==> DeviceChain(calls[..i]) == DC_WISHBONE)
                  && (OnCpu(calls[i]) ==> DeviceChain(calls[..i]) == DC_CPU0)
  }

  datatype Cache = Cache(currentChain: int, dbgChain: int, calls: seq<Call>)

  predicate Agrees(c: Cache) {
    && ServedRight(c.calls)
    && (c.currentChain == -1 || c.currentChain == c.dbgChain == DeviceChain(c.calls))
  }

  // ---------------------------------------------------------------- the functions as specifications

  function Issue(c: Cache, r: Call): Cache { c.(calls := c.calls + [r]) }

  function Reset(c: Cache): Cache {
    c.(calls := c.calls + [ResetTap, SetIr(JI_IDCODE), ReadJtagId, SetIr(JI_DEBUG)], currentChain := -1)
  }

  function SetChain(c: Cache, chain: int): Cache
    requires -1 <= chain < 0x1_0000_0000
  {
    if c.currentChain == chain then c
    else Cache(chain, chain, c.calls + [SetDebugChain(if chain == -1 then 0xffff_ffff else chain)])
  }

  function Num(b: bool): nat { if b then 1 else 0 }

  /** dbg_ctrl: the control word packed from its two arguments. */
  function CtrlWord(reset: nat, stall: nat): Word { LowBit(stall) + 2 * LowBit(reset) }

  /** What dbg_cpu0_write_ctrl makes of data bits 1 and 0: it passes data & 2 and data & 1. */
  function CtrlSent(reset: bool, stall: bool): Word { CtrlWord(2 * Num(reset), Num(stall)) }

  /** What dbg_cpu0_read_ctrl makes of the word returned: bit 0 is reset and bit 1 stall. */
  function CtrlReceived(resp: Word): nat { 2 * LowBit(resp) + LowBit(Half(resp)) }

  /** x & 1 */
  function LowBit(x: nat): (b: nat)
    ensures b <= 1
  {
    x % 2
  }

  /** x >> 1 */
  function Half(x: nat): nat { x / 2 }

  // ---------------------------------------------------------------- the imperative code

  class RtlSim {
    var currentChain: int
    var dbgChain: int
    /** Calls made over the pipes so far. */
    var calls: seq<Call>

    function State(): Cache
      reads this
    {
      Cache(currentChain, dbgChain, calls)
    }

    ghost predicate Valid()
      reads this
    {
      Agrees(State()) && -1 <= dbgChain < 0x1_0000_0000
    }

    constructor ()
      ensures Valid() && State() == Cache(-1, -1, [])
    {
      currentChain, dbgChain, calls := -1, -1, [];
    }

    method DbgReset()
      requires Valid()
      modifies this
      ensures Valid() && State() == Reset(old(State()))
    {
      calls := calls + [ResetTap];
      calls := calls + [SetIr(JI_IDCODE)];
      calls := calls + [ReadJtagId];
      calls := calls + [SetIr(JI_DEBUG)];
      currentChain := -1;
      ResetAgrees(old(State()));
      assert calls == Reset(old(State())).calls;
    }

    method DbgSetChain(chain: int)
      requires -1 <= chain < 0x1_0000_0000
      modifies this
      ensures State() == SetChain(old(State()), chain)
    {
      if currentChain == chain {
        return;
      }
      dbgChain := chain;
      calls := calls + [SetDebugChain(if chain == -1 then 0xffff_ffff else chain)];
      currentChain := chain;
    }

    /** dbg_wb_*: all select the Wishbone chain and then make their one call. */
    method DbgWb(r: Call)
      requires Valid() && OnWishbone(r)
      modifies this
      ensures Valid() && State() == Issue(SetChain(old(State()), DC_WISHBONE), r)
    {
      DbgSetChain(DC_WISHBONE);
      SelectAgrees(old(State()), DC_WISHBONE);
      IssueAgrees(State(), r);
      calls := calls + [r];
    }

    /** dbg_cpu0_read and dbg_cpu0_write */
    method DbgCpu0(r: Call)
      requires Valid() && (r.CpuRdReg? || r.CpuWrReg?)
      modifies this
      ensures Valid() && State() == Issue(SetChain(old(State()), DC_CPU0), r)
    {
      DbgSetChain(DC_CPU0);
      SelectAgrees(old(State()), DC_CPU0);
      IssueAgrees(State(), r);
      calls := calls + [r];
    }

    /** dbg_ctrl: reselects whatever dbg_chain names. */
    method DbgCtrl(reset: nat, stall: nat)
      requires -1 <= dbgChain < 0x1_0000_0000
      modifies this
      ensures State() == Issue(SetChain(old(State()), old(dbgChain)), CpuCtrlWr(CtrlWord(reset, stall)))
    {
      DbgSetChain(dbgChain);
      calls := calls + [CpuCtrlWr(CtrlWord(reset, stall))];
    }

    /** resp is the word the simulator returns. */
    method DbgCtrlRead(resp: Word) returns (reset: nat, stall: nat)
      requires -1 <= dbgChain < 0x1_0000_0000
      modifies this
      ensures State() == Issue(SetChain(old(State()), old(dbgChain)), CpuCtrlRd)
      ensures reset == LowBit(resp) && stall == LowBit(Half(resp))
    {
      DbgSetChain(dbgChain);
      DbgSetChain(dbgChain);
      calls := calls + [CpuCtrlRd];
      reset, stall := LowBit(resp), LowBit(Half(resp));
    }

    method DbgCpu0WriteCtrl(reset: bool, stall: bool)
      requires Valid()
      modifies this
      ensures Valid()
      ensures State() == Issue(SetChain(old(State()), DC_CPU0), CpuCtrlWr(CtrlSent(reset, stall)))
    {
      DbgSetChain(DC_CPU0);
      SelectAgrees(old(State()), DC_CPU0);
      IssueAgrees(State(), CpuCtrlWr(CtrlSent(reset, stall)));
      DbgCtrl(2 * Num(reset), Num(stall));
    }

    method DbgCpu0ReadCtrl(resp: Word) returns (data: nat)
      requires Valid()
      modifies this
      ensures Valid() && State() == Issue(SetChain(old(State()), DC_CPU0), CpuCtrlRd)
      ensures data == CtrlReceived(resp)
    {
      DbgSetChain(DC_CPU0);
      SelectAgrees(old(State()), DC_CPU0);
      IssueAgrees(State(), CpuCtrlRd);
      var r, s := DbgCtrlRead(resp);
      data := 2 * r + s;
    }
  }

  // ---------------------------------------------------------------- agreement

  lemma DeviceChainAppend(calls: seq<Call>, r: Call)
    ensures DeviceChain(calls + [r]) ==
            match r
            case SetDebugChain(c) => c
            case ResetTap => -1
            case SetIr(_) => -1
            case _ => DeviceChain(calls)
  {
    assert (calls + [r])[..|calls|] == calls;
  }

  lemma ServedAppend(calls: seq<Call>, r: Call)
    requires ServedRight(calls)
    requires OnWishbone(r) ==> DeviceChain(calls) == DC_WISHBONE
    requires OnCpu(r) ==> DeviceChain(calls) == DC_CPU0
    ensures ServedRight(calls + [r])
  {
    forall i | 0 <= i < |calls| + 1
      ensures (calls + [r])[..i] == calls[..i]
    {
    }
    assert calls[..|calls|] == calls;
  }

  lemma ResetAgrees(c: Cache)
    requires Agrees(c)
    ensures Agrees(Reset(c))
  {
    var c1 := c.calls + [ResetTap];
    var c2 := c1 + [SetIr(JI_IDCODE)];
    var c3 := c2 + [ReadJtagId];
    ServedAppend(c.calls, ResetTap);
    ServedAppend(c1, SetIr(JI_IDCODE));
    ServedAppend(c2, ReadJtagId);
    ServedAppend(c3, SetIr(JI_DEBUG));
    assert Reset(c).calls == c3 + [SetIr(JI_DEBUG)];
  }

  /** After selecting a chain it really is the selected one, although a redundant selection
      sends nothing. */
  lemma SelectAgrees(c: Cache, chain: Word)
    requires Agrees(c)
    ensures Agrees(SetChain(c, chain))
    ensures SetChain(c, chain).currentChain == chain && DeviceChain(SetChain(c, chain).calls) == chain
    ensures SetChain(SetChain(c, chain), chain) == SetChain(c, chain)
  {
    ServedAppend(c.calls, SetDebugChain(chain));
    DeviceChainAppend(c.calls, SetDebugChain(chain));
  }

  lemma IssueAgrees(c: Cache, r: Call)
    requires Agrees(c) && c.currentChain != -1 && !r.SetDebugChain? && !r.ResetTap? && !r.SetIr?
    requires OnWishbone(r) ==> c.currentChain == DC_WISHBONE
    requires OnCpu(r) ==> c.currentChain == DC_CPU0
    ensures Agrees(Issue(c, r))
  {
    ServedAppend(c.calls, r);
    DeviceChainAppend(c.calls, r);
  }

  /** dbg_cpu0_write_ctrl passes data & 2 where dbg_ctrl keeps only bit 0, so a reset request
      never reaches the device: the word sent is the word asked for exactly if bit 1 is clear. */
  lemma ResetBitIsLost(reset: bool, stall: bool)
    ensures CtrlSent(reset, stall) == Num(stall)
    ensures CtrlSent(reset, stall) == 2 * Num(reset) + Num(stall) <==> !reset
  {
    SmallWords();
    if reset {
      assert Num(reset) == 1;
    }
  }

  /** The two control bits as debug_cpu_wr_ctrl shifts them out, bit 1 first. */
  function CtrlShifted(ctrl: Word): seq<nat> { [LowBit(Half(ctrl)), LowBit(ctrl)] }

  /** The control word that debug_cpu_rd_ctrl makes of the bits shifted in: the first is bit 0. */
  function CtrlCollected(bits: seq<nat>): nat
    requires |bits| == 2
  {
    LowBit(bits[0]) + 2 * LowBit(bits[1])
  }

  /** The two directions number the bits the other way round and dbg_cpu0_read_ctrl puts them
      back: from a device that returns its control bits in the order it got them, the word read
      is the word written. */
  lemma CtrlRoundTrip(reset: bool, stall: bool)
    ensures var ctrl := CtrlWord(Num(reset), Num(stall));
            CtrlReceived(CtrlCollected(CtrlShifted(ctrl))) == ctrl == 2 * Num(reset) + Num(stall)
  {
    SmallWords();
    if reset {
      LinkKeeps(if stall then 3 else 2);
    } else {
      LinkKeeps(if stall then 1 else 0);
    }
  }

  lemma LinkKeeps(ctrl: Word)
    requires ctrl < 4
    ensures CtrlReceived(CtrlCollected(CtrlShifted(ctrl))) == ctrl
  {
    SmallWords();
    if ctrl == 0 {
      assert CtrlShifted(0) == [0, 0] && CtrlCollected([0, 0]) == 0;
    } else if ctrl == 1 {
      assert CtrlShifted(1) == [0, 1] && CtrlCollected([0, 1]) == 2;
    } else if ctrl == 2 {
      assert CtrlShifted(2) == [1, 0] && CtrlCollected([1, 0]) == 1;
    } else {
      assert CtrlShifted(3) == [1, 1] && CtrlCollected([1, 1]) == 3;
    }
  }

  lemma SmallWords()
    ensures LowBit(0) == 0 && LowBit(1) == 1 && LowBit(2) == 0 && LowBit(3) == 1
    ensures Half(0) == 0 && Half(1) == 0 && Half(2) == 1 && Half(3) == 1
  {
  }

  // ---------------------------------------------------------------- runs

  datatype Op = OpReset | OpAccess(r: Call) | OpWriteCtrl(reset: bool, stall: bool) | OpReadCtrl

  /** The functions gdb.c calls. */
  predicate IsAccess(r: Call) { OnWishbone(r) || r.CpuRdReg? || r.CpuWrReg? }

  function Do(c: Cache, op: Op): Cache {
    match op
    case OpReset => Reset(c)
    case OpAccess(r) =>
      if !IsAccess(r) then c else Issue(SetChain(c, if OnWishbone(r) then DC_WISHBONE else DC_CPU0), r)
    case OpWriteCtrl(reset, stall) => Issue(SetChain(c, DC_CPU0), CpuCtrlWr(CtrlSent(reset, stall)))
    case OpReadCtrl => Issue(SetChain(c, DC_CPU0), CpuCtrlRd)
  }

  function DoAll(ops: seq<Op>): Cache {
    if ops == [] then Cache(-1, -1, []) else Do(DoAll(ops[..|ops| - 1]), ops[|ops| - 1])
  }

  /** A call behind the selection of its chain. */
  lemma CallAgrees(c: Cache, r: Call)
    requires Agrees(c) && (OnWishbone(r) || OnCpu(r))
    ensures Agrees(Issue(SetChain(c, if OnWishbone(r) then DC_WISHBONE else DC_CPU0), r))
  {
    var chain := if OnWishbone(r) then DC_WISHBONE else DC_CPU0;
    SelectAgrees(c, chain);
    IssueAgrees(SetChain(c, chain), r);
  }

  lemma DoAgrees(c: Cache, op: Op)
    requires Agrees(c)
    ensures Agrees(Do(c, op))
  {
    match op {
      case OpReset => ResetAgrees(c);
      case OpAccess(r) =>
        if IsAccess(r) {
          CallAgrees(c, r);
        }
      case OpWriteCtrl(reset, stall) => CallAgrees(c, CpuCtrlWr(CtrlSent(reset, stall)));
      case OpReadCtrl => CallAgrees(c, CpuCtrlRd);
    }
  }

  /** Over every run including resets the cache is empty or tells the truth. */
  lemma {:induction false} CacheAlwaysAgrees(ops: seq<Op>)
    ensures Agrees(DoAll(ops))
  {
    if ops != [] {
      CacheAlwaysAgrees(ops[..|ops| - 1]);
      DoAgrees(DoAll(ops[..|ops| - 1]), ops[|ops| - 1]);
    }
  }

  lemma StoredOnSameChain(r: Call)
    ensures OnWishbone(Stored(r)) == OnWishbone(r) && OnCpu(Stored(r)) == OnCpu(r)
  {
  }

  lemma ServedOnChain(calls: seq<Call>, r: Request, i: nat)
    requires ServedRight(calls) && i < |calls| && r == Stored(calls[i])
    ensures OnWishbone(r) ==> DeviceChain(calls[..i]) == DC_WISHBONE
    ensures OnCpu(r) ==> DeviceChain(calls[..i]) == DC_CPU0
  {
    StoredOnSameChain(calls[i]);
  }

  /** Cache and pipes together: under every interleaving of the two processes, what the
      simulator executes is executed on the chain it needs. */
  lemma ExecutedOnRightChain(ops: seq<Op>, steps: seq<Step>, i: nat)
    requires AllFit(DoAll(ops).calls) && IsRun(Start(DoAll(ops).calls), steps)
    requires i < |After(Start(DoAll(ops).calls), steps).executed|
    ensures var calls := DoAll(ops).calls;
            var r := After(Start(calls), steps).executed[i].request;
            && i < |calls| && r == Stored(calls[i])
            && (OnWishbone(r) ==> DeviceChain(calls[..i]) == 0)
            && (OnCpu(r) ==> DeviceChain(calls[..i]) == 1)
  {
    var calls := DoAll(ops).calls;
    CacheAlwaysAgrees(ops);
    ExecutedAsSent(calls, steps, i);
    ServedOnChain(calls, After(Start(calls), steps).executed[i].request, i);
  }

  // ---------------------------------------------------------------- what reaches the device

  /** The instruction the TAP holds after these calls; -1 when nothing has been loaded since the
      last reset. */
  function LoadedInstr(calls: seq<Call>): int {
    if calls == [] then -1
    else match calls[|calls| - 1]
      case SetIr(instr) => instr
      case ResetTap => -1
      case _ => LoadedInstr(calls[..|calls| - 1])
  }

  /** Every chain selection finds the debug instruction loaded. */
  predicate SelectionsLoaded(calls: seq<Call>) {
    forall i :: 0 <= i < |calls| && calls[i].SetDebugChain? ==> LoadedInstr(calls[..i]) == 8
  }

  lemma LoadedAppend(calls: seq<Call>, r: Call)
    ensures LoadedInstr(calls + [r]) ==
            match r
            case SetIr(instr) => instr
            case ResetTap => -1
            case _ => LoadedInstr(calls)
    ensures SelectionsLoaded(calls + [r]) <==>
            SelectionsLoaded(calls) && (r.SetDebugChain? ==> LoadedInstr(calls) == 8)
  {
    var more := calls + [r];
    assert more[..|calls|] == calls;
    forall i | 0 <= i < |calls|
      ensures more[..i] == calls[..i] && more[i] == calls[i]
    {
    }
    if SelectionsLoaded(more) && r.SetDebugChain? {
      assert more[|calls|].SetDebugChain?;
    }
    if SelectionsLoaded(more) {
      forall i | 0 <= i < |calls| && calls[i].SetDebugChain?
        ensures LoadedInstr(calls[..i]) == 8
      {
        assert more[i].SetDebugChain?;
      }
    }
  }

  predicate Issues(op: Op) { op.OpWriteCtrl? || op.OpReadCtrl? || (op.OpAccess? && IsAccess(op.r)) }

  /** No access comes before the first reset. */
  predicate ResetFirst(ops: seq<Op>) {
    forall i :: 0 <= i < |ops| && Issues(ops[i]) ==> OpReset in ops[..i]
  }

  lemma ResetLoads(c: Cache)
    ensures LoadedInstr(Reset(c).calls) == 8
    ensures SelectionsLoaded(Reset(c).calls) <==> SelectionsLoaded(c.calls)
  {
    var c1 := c.calls + [ResetTap];
    var c2 := c1 + [SetIr(JI_IDCODE)];
    var c3 := c2 + [ReadJtagId];
    LoadedAppend(c.calls, ResetTap);
    LoadedAppend(c1, SetIr(JI_IDCODE));
    LoadedAppend(c2, ReadJtagId);
    LoadedAppend(c3, SetIr(JI_DEBUG));
    assert Reset(c).calls == c3 + [SetIr(JI_DEBUG)];
  }

  lemma AccessLoads(c: Cache, chain: Word, r: Call)
    requires !r.SetDebugChain? && !r.ResetTap? && !r.SetIr?
    ensures var e := Issue(SetChain(c, chain), r);
            && LoadedInstr(e.calls) == LoadedInstr(c.calls)
            && (SelectionsLoaded(e.calls) <==>
                  SelectionsLoaded(c.calls) && (c.currentChain == chain || LoadedInstr(c.calls) == 8))
  {
    LoadedAppend(c.calls, SetDebugChain(chain));
    LoadedAppend(SetChain(c, chain).calls, r);
  }

  lemma ResetFirstSnoc(ops: seq<Op>)
    requires ops != []
    ensures var front, op := ops[..|ops| - 1], ops[|ops| - 1];
            && (OpReset in ops <==> OpReset in front || op == OpReset)
            && (ResetFirst(ops) <==> ResetFirst(front) && (Issues(op) ==> OpReset in front))
  {
    var front, op := ops[..|ops| - 1], ops[|ops| - 1];
    assert ops == front + [op];
    forall i | 0 <= i < |front|
      ensures ops[..i] == front[..i] && ops[i] == front[i]
    {
    }
    if ResetFirst(ops) {
      forall i | 0 <= i < |front| && Issues(front[i])
        ensures OpReset in front[..i]
      {
        assert Issues(ops[i]);
      }
    }
  }

  /** Over every run each chain selection finds JI_DEBUG loaded if and only if no access comes
      before the first reset. */
  lemma {:induction false} SelectionsFindDebug(ops: seq<Op>)
    ensures LoadedInstr(DoAll(ops).calls) == (if OpReset in ops then 8 else -1)
    ensures SelectionsLoaded(DoAll(ops).calls) <==> ResetFirst(ops)
    ensures ResetFirst(ops) && OpReset !in ops ==> DoAll(ops).currentChain == -1
  {
    if ops != [] {
      var front, op := ops[..|ops| - 1], ops[|ops| - 1];
      SelectionsFindDebug(front);
      ResetFirstSnoc(ops);
      DoLoads(DoAll(front), op);
    }
  }

  lemma DoLoads(c: Cache, op: Op)
    ensures LoadedInstr(Do(c, op).calls) == (if op == OpReset then 8 else LoadedInstr(c.calls))
    ensures SelectionsLoaded(Do(c, op).calls) ==> SelectionsLoaded(c.calls)
    ensures SelectionsLoaded(c.calls) && (Issues(op) ==> LoadedInstr(c.calls) == 8) ==> SelectionsLoaded(Do(c, op).calls)
    ensures Issues(op) && c.currentChain == -1 && LoadedInstr(c.calls) != 8 ==> !SelectionsLoaded(Do(c, op).calls)
    ensures !Issues(op) && op != OpReset ==> Do(c, op) == c
  {
    match op {
      case OpReset => ResetLoads(c);
      case OpAccess(r) =>
        if IsAccess(r) {
          AccessLoads(c, if OnWishbone(r) then DC_WISHBONE else DC_CPU0, r);
        }
      case OpWriteCtrl(reset, stall) => AccessLoads(c, DC_CPU0, CpuCtrlWr(CtrlSent(reset, stall)));
      case OpReadCtrl => AccessLoads(c, DC_CPU0, CpuCtrlRd);
    }
  }

  /** The calls that are neither selections nor parts of a reset. */
  function Requests(calls: seq<Call>): seq<Call> {
    if calls == [] then []
    else
      var r := calls[|calls| - 1];
      Requests(calls[..|calls| - 1]) +
      if r.SetDebugChain? || r.ResetTap? || r.SetIr? || r.ReadJtagId? then [] else [r]
  }

  /** What an operation asks for. */
  function AskedBy(op: Op): seq<Call> {
    match op
    case OpReset => []
    case OpAccess(r) => if IsAccess(r) then [r] else []
    case OpWriteCtrl(_, stall) => [CpuCtrlWr(if stall then 1 else 0)]
    case OpReadCtrl => [CpuCtrlRd]
  }

  function Asked(ops: seq<Op>): seq<Call> {
    if ops == [] then [] else Asked(ops[..|ops| - 1]) + AskedBy(ops[|ops| - 1])
  }

  lemma RequestsAppend(calls: seq<Call>, r: Call)
    ensures Requests(calls + [r]) ==
            Requests(calls) + if r.SetDebugChain? || r.ResetTap? || r.SetIr? || r.ReadJtagId? then [] else [r]
  {
    assert (calls + [r])[..|calls|] == calls;
  }

  lemma ResetAsks(c: Cache)
    ensures Requests(Reset(c).calls) == Requests(c.calls)
  {
    var c1 := c.calls + [ResetTap];
    var c2 := c1 + [SetIr(JI_IDCODE)];
    var c3 := c2 + [ReadJtagId];
    RequestsAppend(c.calls, ResetTap);
    RequestsAppend(c1, SetIr(JI_IDCODE));
    RequestsAppend(c2, ReadJtagId);
    RequestsAppend(c3, SetIr(JI_DEBUG));
    assert Reset(c).calls == c3 + [SetIr(JI_DEBUG)];
  }

  lemma AccessAsks(c: Cache, chain: Word, r: Call)
    requires OnWishbone(r) || OnCpu(r)
    ensures Requests(Issue(SetChain(c, chain), r).calls) == Requests(c.calls) + [r]
  {
    RequestsAppend(c.calls, SetDebugChain(chain));
    assert Requests(c.calls) + [] == Requests(c.calls);
    RequestsAppend(SetChain(c, chain).calls, r);
  }

  lemma WriteWordAsks(c: Cache, w: Word, sent: Word)
    requires w == sent
    ensures Requests(Issue(SetChain(c, DC_CPU0), CpuCtrlWr(w)).calls) == Requests(c.calls) + [CpuCtrlWr(sent)]
  {
    AccessAsks(c, DC_CPU0, CpuCtrlWr(w));
  }

  lemma WriteCtrlAsks(c: Cache, reset: bool, stall: bool)
    ensures Requests(Issue(SetChain(c, DC_CPU0), CpuCtrlWr(CtrlSent(reset, stall))).calls) ==
            Requests(c.calls) + [CpuCtrlWr(if stall then 1 else 0)]
  {
    ResetBitIsLost(reset, stall);
    WriteWordAsks(c, CtrlSent(reset, stall), if stall then 1 else 0);
  }

  lemma OpAsks(c: Cache, op: Op)
    ensures Requests(Do(c, op).calls) == Requests(c.calls) + AskedBy(op)
  {
    match op {
      case OpReset =>
        ResetAsks(c);
        assert Requests(c.calls) + [] == Requests(c.calls);
      case OpAccess(r) =>
        if IsAccess(r) {
          AccessAsks(c, if OnWishbone(r) then DC_WISHBONE else DC_CPU0, r);
        } else {
          assert Requests(c.calls) + [] == Requests(c.calls);
        }
      case OpWriteCtrl(reset, stall) => WriteCtrlAsks(c, reset, stall);
      case OpReadCtrl => AccessAsks(c, DC_CPU0, CpuCtrlRd);
    }
  }

  /** Over every run each access issues its request exactly once, in order, whatever selections
      and resets go with it. */
  lemma {:induction false} EachAccessAsksOnce(ops: seq<Op>)
    ensures Requests(DoAll(ops).calls) == Asked(ops)
  {
    if ops != [] {
      EachAccessAsksOnce(ops[..|ops| - 1]);
      OpAsks(DoAll(ops[..|ops| - 1]), ops[|ops| - 1]);
    }
  }
}
