/** ps2: the PS/2 UART. The synchronised data line, the debounced falling edges of the PS/2
    clock and the watchdog drive one state machine that receives and sends 11-bit frames. */
module Ps2 {
  import opened Common

  datatype State = Idle | WriteRequest | Start | Data | Parity | Stop

  /** What one clock of the state machine sees. */
  datatype In = In(fall: bool, data: bool, wdt: bool, obfSet: bool, dataI: Octet, errClr: bool, ibfClr: bool)

  datatype Flags = Flags(dataO: Octet, ibf: bool, parityErr: bool, frameErr: bool)

  /** data_i_reg and obf_set, and the registered value driven on the data line. */
  datatype Output = Output(dataReg: Octet, obfSet: bool, dataOut: bool)

  /** shift[0] is bit 0, the bit shifted out; cnt is the 3-bit shift counter. */
  datatype Uart = Uart(state: State, writing: bool, cnt: nat, shift: seq<bool>, out: Output, flags: Flags)

  // ---------------------------------------------------------------- one clock

  function ShiftParity(r: seq<bool>): bool
    requires |r| == 9
  {
    (((((((r[0] != r[1]) != r[2]) != r[3]) != r[4]) != r[5]) != r[6]) != r[7])
  }

  predicate Receiving(s: State) { s == Start || s == Data || s == Parity }

  function NextShift(u: Uart, i: In): seq<bool>
    requires |u.shift| == 9
  {
    if u.out.obfSet && u.state == WriteRequest then u.out.dataReg + [false]
    else if u.state == Start && u.writing then u.shift[..8] + [!ShiftParity(u.shift)]
    else if !u.writing && i.fall && (u.state == Data || u.state == Start) then u.shift[1..] + [i.data]
    else if u.writing && i.fall && (u.state == Data || u.state == Parity) then u.shift[1..] + [true]
    else u.shift
  }

  function NextCount(u: Uart, i: In): nat {
    if u.state == Start then 0
    else if i.fall && u.state == Data then (if u.cnt >= 7 then 0 else u.cnt + 1)
    else u.cnt
  }

  datatype Control = Control(state: State, writing: bool)

  function NextControl(u: Uart, i: In): Control {
    match u.state
    case Idle =>
      if u.out.obfSet && !u.writing then Control(WriteRequest, true)
      else Control(if i.fall then Start else Idle, u.writing)
    case WriteRequest => Control(if i.wdt then Start else WriteRequest, u.writing)
    case Start =>
      if i.wdt then Control(Idle, false) else Control(if i.fall then Data else Start, u.writing)
    case Data =>
      if i.wdt then Control(Idle, false) else Control(if i.fall && u.cnt == 7 then Parity else Data, u.writing)
    case Parity =>
      if i.wdt then Control(Idle, false) else Control(if i.fall then Stop else Parity, u.writing)
    case Stop =>
      if !u.writing then Control(Idle, false)
      else if (i.fall && !i.data) || i.wdt then Control(Idle, false)
      else Control(Stop, true)
  }

  function NextFlags(u: Uart, i: In): Flags
    requires |u.shift| == 9
  {
    var ends := !u.writing && u.state == Stop;
    var good := u.shift[8] != ShiftParity(u.shift);
    Flags(
      if ends then u.shift[..8] else u.flags.dataO,
      !i.ibfClr && ((ends && good) || u.flags.ibf),
      !i.errClr && ((ends && !good) || u.flags.parityErr),
      !i.errClr && ((Receiving(u.state) && i.wdt) || u.flags.frameErr))
  }

  function NextOutput(u: Uart, i: In): Output
    requires |u.shift| == 9
  {
    Output(
      if i.obfSet then i.dataI else u.out.dataReg,
      i.obfSet || (u.out.obfSet && u.state != WriteRequest),
      if !u.writing then u.out.dataOut
      else if u.state == WriteRequest || u.state == Start then false
      else if u.state == Data || u.state == Parity then u.shift[0]
      else true)
  }

  function Step(u: Uart, i: In): (u': Uart)
    requires |u.shift| == 9
    ensures |u'.shift| == 9
  {
    var c := NextControl(u, i);
    Uart(c.state, c.writing, NextCount(u, i), NextShift(u, i), NextOutput(u, i), NextFlags(u, i))
  }

  function Run(u: Uart, ins: seq<In>): (u': Uart)
    requires |u.shift| == 9
    ensures |u'.shift| == 9
    decreases |ins|
  {
    if ins == [] then u else Run(Step(u, ins[0]), ins[1..])
  }

  // ---------------------------------------------------------------- parity

  function OddOnes(b: seq<bool>): bool { if b == [] then false else b[0] != OddOnes(b[1..]) }

  /** Odd parity is an odd number of ones. */
  lemma {:induction false} OddOnesCounts(b: seq<bool>)
    ensures OddOnes(b) <==> multiset(b)[true] % 2 == 1
  {
    if b != [] {
      OddOnesCounts(b[1..]);
      assert b == [b[0]] + b[1..];
      assert multiset(b) == multiset{b[0]} + multiset(b[1..]);
    }
  }

  lemma {:induction false} OddOnesAppend(a: seq<bool>, b: seq<bool>)
    ensures OddOnes(a + b) == (OddOnes(a) != OddOnes(b))
  {
    if a == [] {
      assert a + b == b;
    } else {
      assert (a + b)[1..] == a[1..] + b;
      OddOnesAppend(a[1..], b);
    }
  }

  /** The parity tree of the eight low bits. */
  lemma ParityTree(r: seq<bool>)
    requires |r| == 9
    ensures ShiftParity(r) == OddOnes(r[..8])
    ensures (r[8] != ShiftParity(r)) == OddOnes(r)
  {
    ParityOf(r, 8);
    ParityOf(r, 9);
    assert r[..9] == r;
    PrefixParities(r);
  }

  lemma ParityOf(r: seq<bool>, n: nat)
    requires 0 < n <= |r|
    ensures OddOnes(r[..n]) == (OddOnes(r[..n - 1]) != r[n - 1])
  {
    OddOnesAppend(r[..n - 1], [r[n - 1]]);
    assert r[..n] == r[..n - 1] + [r[n - 1]];
  }

  lemma PrefixParities(r: seq<bool>)
    requires |r| == 9
    ensures OddOnes(r[..8]) == ShiftParity(r)
  {
    assert r[..0] == [];
    ParityOf(r, 1); ParityOf(r, 2); ParityOf(r, 3); ParityOf(r, 4);
    ParityOf(r, 5); ParityOf(r, 6); ParityOf(r, 7); ParityOf(r, 8);
  }

  /** Bits inverted where the mask says so. */
  function Flipped(b: seq<bool>, mask: seq<bool>): (r: seq<bool>)
    requires |b| == |mask|
    ensures |r| == |b|
  {
    if b == [] then [] else [b[0] != mask[0]] + Flipped(b[1..], mask[1..])
  }

  lemma {:induction false} FlippedParity(b: seq<bool>, mask: seq<bool>)
    requires |b| == |mask|
    ensures OddOnes(Flipped(b, mask)) == (OddOnes(b) != OddOnes(mask))
  {
    if b != [] {
      assert Flipped(b, mask)[1..] == Flipped(b[1..], mask[1..]);
      FlippedParity(b[1..], mask[1..]);
    }
  }

  /** Start bit, data bits from bit 0, odd parity bit, stop bit. */
  function Frame(b: Octet): (f: seq<bool>)
    ensures |f| == 11 && !f[0] && f[1..9] == b && f[10]
  {
    var f := [false] + b + [!OddOnes(b), true];
    assert f[1..9] == b;
    f
  }

  lemma FrameIsGood(b: Octet)
    ensures OddOnes(Frame(b)[1..10]) && multiset(Frame(b)[1..10])[true] % 2 == 1
  {
    OddOnesCounts(Frame(b)[1..10]);
    OddOnesAppend(b, [!OddOnes(b)]);
    assert Frame(b)[1..10] == b + [!OddOnes(b)];
  }

  // ---------------------------------------------------------------- receiving

  /** The simple form of the receiver: the line sampled at the falls since the frame began. */
  datatype Collector = Collector(cur: seq<bool>, flags: Flags)

  function Collect(r: Collector, i: In): (r': Collector)
    requires |r.cur| <= 11
    ensures |r'.cur| <= 11
  {
    var ends := |r.cur| == 11;
    var late := 0 < |r.cur| < 11 && i.wdt;
    Collector(
      if ends || late then [] else if i.fall then r.cur + [i.data] else r.cur,
      Flags(
        if ends then r.cur[1..9] else r.flags.dataO,
        !i.ibfClr && ((ends && OddOnes(r.cur[1..10])) || r.flags.ibf),
        !i.errClr && ((ends && !OddOnes(r.cur[1..10])) || r.flags.parityErr),
        !i.errClr && (late || r.flags.frameErr)))
  }

  function CollectAll(r: Collector, ins: seq<In>): (r': Collector)
    requires |r.cur| <= 11
    ensures |r'.cur| <= 11
    decreases |ins|
  {
    if ins == [] then r else CollectAll(Collect(r, ins[0]), ins[1..])
  }

  function StateAfter(falls: nat): State {
    if falls == 0 then Idle else if falls == 1 then Start else if falls <= 9 then Data
    else if falls == 10 then Parity else Stop
  }

  predicate Controls(c: Control, cnt: nat, falls: nat) {
    !c.writing && c.state == StateAfter(falls) && (c.state == Data ==> cnt == falls - 2)
  }

  /** The bits after the start bit are at the top of the shift register. */
  predicate Shifts(shift: seq<bool>, cur: seq<bool>) {
    && |shift| == 9 && |cur| <= 11
    && (1 <= |cur| <= 10 ==> shift[10 - |cur|..] == cur[1..])
    && (|cur| == 11 ==> shift == cur[1..10])
  }

  /** The registers of a UART that is not sending and has seen the falls of r.cur. */
  predicate Receives(u: Uart, r: Collector) {
    && Shifts(u.shift, r.cur)
    && Controls(Control(u.state, u.writing), u.cnt, |r.cur|)
    && !u.out.obfSet && u.flags == r.flags
  }

  lemma ShiftInAppends(shift: seq<bool>, cur: seq<bool>, bit: bool)
    requires Shifts(shift, cur) && 1 <= |cur| <= 9
    ensures Shifts(shift[1..] + [bit], cur + [bit])
  {
    var n := |cur|;
    assert (shift[1..] + [bit])[9 - n..] == shift[10 - n..] + [bit] == cur[1..] + [bit] == (cur + [bit])[1..];
  }

  lemma StopBitKeeps(shift: seq<bool>, cur: seq<bool>, bit: bool)
    requires Shifts(shift, cur) && |cur| == 10
    ensures Shifts(shift, cur + [bit])
  {
    assert shift == shift[0..] == cur[1..] == (cur + [bit])[1..10];
  }

  lemma StartBitFits(shift: seq<bool>, bit: bool)
    requires |shift| == 9
    ensures Shifts(shift, [bit])
  {
    assert shift[9..] == [] == [bit][1..];
  }

  lemma StepControls(u: Uart, r: Collector, i: In)
    requires |r.cur| <= 11 && Controls(Control(u.state, u.writing), u.cnt, |r.cur|) && !u.out.obfSet
    ensures Controls(NextControl(u, i), NextCount(u, i), |Collect(r, i).cur|)
  {
    var n := |r.cur|;
    if n == 0 {
    } else if n == 1 {
    } else if n <= 9 {
    } else if n == 10 {
    } else {
    }
  }

  lemma StepShifts(u: Uart, r: Collector, i: In)
    requires Receives(u, r) && !i.obfSet
    ensures Shifts(NextShift(u, i), Collect(r, i).cur)
  {
    var n := |r.cur|;
    if n == 11 || (n > 0 && i.wdt) || !i.fall {
    } else if n == 0 {
      StartBitFits(u.shift, i.data);
    } else if n == 10 {
      StopBitKeeps(u.shift, r.cur, i.data);
    } else {
      ShiftInAppends(u.shift, r.cur, i.data);
    }
  }

  lemma StepFlags(u: Uart, r: Collector, i: In)
    requires Receives(u, r)
    ensures NextFlags(u, i) == Collect(r, i).flags
  {
    if |r.cur| == 11 {
      ParityTree(u.shift);
      assert u.shift[..8] == r.cur[1..9];
    }
  }

  lemma StepReceives(u: Uart, r: Collector, i: In)
    requires Receives(u, r) && !i.obfSet
    ensures Receives(Step(u, i), Collect(r, i))
  {
    StepControls(u, r, i);
    StepShifts(u, r, i);
    StepFlags(u, r, i);
  }

  /** Without a write request the UART is the collector, whatever the line, the clock, the
      watchdog and the host's flag clears do. */
  lemma {:induction false} ReceiverIsCollector(u: Uart, r: Collector, ins: seq<In>)
    requires Receives(u, r) && NoRequests(ins)
    ensures Receives(Run(u, ins), CollectAll(r, ins))
    decreases |ins|
  {
    if ins != [] {
      StepReceives(u, r, ins[0]);
      ReceiverIsCollector(Step(u, ins[0]), Collect(r, ins[0]), ins[1..]);
    }
  }

  /** The line at each fall of the clock. */
  function Falls(ins: seq<In>): seq<bool> {
    if ins == [] then [] else (if ins[0].fall then [ins[0].data] else []) + Falls(ins[1..])
  }

  /** No two falls in successive clocks; just says whether one came right before. */
  predicate Apart(just: bool, ins: seq<In>)
    decreases |ins|
  {
    ins == [] || (!(just && ins[0].fall) && Apart(ins[0].fall, ins[1..]))
  }

  type Eleven = f: seq<bool> | |f| == 11
    witness [false, false, false, false, false, false, false, false, false, false, false]

  /** The frames that end while the collector runs. */
  function Delivered(r: Collector, ins: seq<In>): seq<Eleven>
    requires |r.cur| <= 11
    decreases |ins|
  {
    if ins == [] then [] else (if |r.cur| == 11 then [r.cur] else []) + Delivered(Collect(r, ins[0]), ins[1..])
  }

  function Concat(fs: seq<Eleven>): seq<bool> { if fs == [] then [] else fs[0] + Concat(fs[1..]) }

  /** Some frame has odd parity, as it should, or some frame has not. */
  predicate SomeParity(fs: seq<Eleven>, odd: bool) {
    fs != [] && (OddOnes(fs[0][1..10]) == odd || SomeParity(fs[1..], odd))
  }

  function LastByte(fs: seq<Eleven>, before: Octet): Octet {
    if fs == [] then before else fs[|fs| - 1][1..9]
  }

  predicate NoRequests(ins: seq<In>) { ins != [] ==> !ins[0].obfSet && NoRequests(ins[1..]) }

  /** The watchdog does not fire within a frame. */
  predicate Timely(r: Collector, ins: seq<In>)
    requires |r.cur| <= 11
    decreases |ins|
  {
    ins != [] ==> (0 < |r.cur| < 11 ==> !ins[0].wdt) && Timely(Collect(r, ins[0]), ins[1..])
  }

  predicate Unread(ins: seq<In>) { ins != [] ==> !ins[0].errClr && !ins[0].ibfClr && Unread(ins[1..]) }

  /** Falls that come apart and in time are cut into frames of eleven, none lost or doubled. */
  lemma {:induction false} FramesInOrder(r: Collector, ins: seq<In>, just: bool)
    requires |r.cur| <= 11 && (|r.cur| == 11 ==> just) && Apart(just, ins) && Timely(r, ins)
    ensures r.cur + Falls(ins) == Concat(Delivered(r, ins)) + CollectAll(r, ins).cur
    decreases |ins|
  {
    var ds, end := Delivered(r, ins), CollectAll(r, ins).cur;
    if ins == [] {
      assert r.cur + [] == r.cur && [] + r.cur == r.cur;
    } else {
      var r' := Collect(r, ins[0]);
      FramesInOrder(r', ins[1..], ins[0].fall);
      var rest := Delivered(r', ins[1..]);
      if |r.cur| == 11 {
        assert [] + Falls(ins[1..]) == Falls(ins[1..]);
        assert ds[0] == r.cur && ds[1..] == rest;
        Regroup(r.cur, Concat(rest), end);
      } else {
        Regroup(r.cur, if ins[0].fall then [ins[0].data] else [], Falls(ins[1..]));
        assert r.cur + [] == r.cur && ds == rest;
      }
    }
  }

  /** The output register holds the last frame's byte and each flag tells whether some frame
      so far had the right or the wrong parity. */
  lemma {:induction false} FlagsTellFrames(r: Collector, ins: seq<In>)
    requires |r.cur| <= 11 && Timely(r, ins) && Unread(ins)
    ensures var ds := Delivered(r, ins);
            CollectAll(r, ins).flags ==
            Flags(LastByte(ds, r.flags.dataO), r.flags.ibf || SomeParity(ds, true),
                  r.flags.parityErr || SomeParity(ds, false), r.flags.frameErr)
    decreases |ins|
  {
    if ins != [] {
      var r' := Collect(r, ins[0]);
      FlagsTellFrames(r', ins[1..]);
      var ds, rest := Delivered(r, ins), Delivered(r', ins[1..]);
      if |r.cur| == 11 {
        assert ds[0] == r.cur && ds[1..] == rest;
      } else {
        assert ds == rest;
      }
    }
  }

  /** Eleven falls and a clock without one deliver exactly these eleven bits. */
  lemma OneFrame(r: Collector, ins: seq<In>)
    requires r.cur == [] && Apart(false, ins) && Timely(r, ins)
    requires |Falls(ins)| == 11 && !ins[|ins| - 1].fall
    ensures Delivered(r, ins) == [Falls(ins)]
  {
    FramesInOrder(r, ins, false);
    EndsBetweenFrames(r, ins);
    var ds := Delivered(r, ins);
    assert [] + Falls(ins) == Falls(ins);
    assert [] + CollectAll(r, ins).cur == CollectAll(r, ins).cur;
    if ds != [] {
      ConcatLength(ds[1..]);
      assert ds[1..] == [];
      assert Concat(ds) == ds[0] + [] == ds[0];
      assert |CollectAll(r, ins).cur| == 0;
      assert ds[0] + [] == Falls(ins);
    }
  }

  lemma {:induction false} ConcatLength(fs: seq<Eleven>)
    ensures |Concat(fs)| >= |fs| * 11
  {
    if fs != [] {
      ConcatLength(fs[1..]);
    }
  }

  /** A clock without a fall leaves no complete frame behind. */
  lemma {:induction false} EndsBetweenFrames(r: Collector, ins: seq<In>)
    requires |r.cur| <= 11 && ins != [] && !ins[|ins| - 1].fall
    ensures |CollectAll(r, ins).cur| <= 10
    decreases |ins|
  {
    var r' := Collect(r, ins[0]);
    if |ins| == 1 {
      assert CollectAll(r, ins) == CollectAll(r', []) == r';
    } else {
      EndsBetweenFrames(r', ins[1..]);
    }
  }

  /** Falls apart and in time, no write request, and the host clears no flag. */
  predicate Undisturbed(u: Uart, ins: seq<In>) {
    Apart(false, ins) && Timely(Collector([], u.flags), ins) && NoRequests(ins) && Unread(ins)
  }

  /** What one frame leaves in the registers. */
  function AfterFrame(before: Flags, f: Eleven): Flags {
    Flags(f[1..9], before.ibf || OddOnes(f[1..10]), before.parityErr || !OddOnes(f[1..10]), before.frameErr)
  }

  lemma OneFrameFlags(r: Collector, f: Eleven, ins: seq<In>)
    requires r.cur == [] && Apart(false, ins) && Timely(r, ins) && Unread(ins)
    requires Falls(ins) == f && !ins[|ins| - 1].fall
    ensures CollectAll(r, ins).flags == AfterFrame(r.flags, f)
  {
    OneFrame(r, ins);
    FlagsTellFrames(r, ins);
    var ds := [f];
    assert ds[1..] == [] && !SomeParity(ds[1..], true) && !SomeParity(ds[1..], false);
  }

  lemma FrameReceived(u: Uart, f: Eleven, ins: seq<In>)
    requires Receives(u, Collector([], u.flags)) && Undisturbed(u, ins)
    requires Falls(ins) == f && !ins[|ins| - 1].fall
    ensures Run(u, ins).flags == AfterFrame(u.flags, f)
  {
    var r := Collector([], u.flags);
    ReceiverIsCollector(u, r, ins);
    OneFrameFlags(r, f, ins);
  }

  /** An idle UART clocked through a byte's frame delivers the byte. */
  lemma ByteReceived(u: Uart, b: Octet, ins: seq<In>)
    requires Receives(u, Collector([], u.flags)) && Undisturbed(u, ins)
    requires Falls(ins) == Frame(b) && !ins[|ins| - 1].fall
    ensures Run(u, ins).flags == Flags(b, true, u.flags.parityErr, u.flags.frameErr)
  {
    FrameReceived(u, Frame(b), ins);
    FrameIsGood(b);
  }

  /** Wrong data or parity bits are reported, and keep the buffer from filling, if and only if
      their number is odd; the start and stop bits are not looked at. */
  lemma OddErrorsReported(u: Uart, b: Octet, mask: seq<bool>, start: bool, stop: bool, ins: seq<In>)
    requires Receives(u, Collector([], u.flags)) && Undisturbed(u, ins)
    requires |mask| == 9 && Falls(ins) == [start] + Flipped(Frame(b)[1..10], mask) + [stop]
    requires !ins[|ins| - 1].fall
    ensures Run(u, ins).flags.ibf == (u.flags.ibf || !OddOnes(mask))
    ensures Run(u, ins).flags.parityErr == (u.flags.parityErr || OddOnes(mask))
  {
    var f := [start] + Flipped(Frame(b)[1..10], mask) + [stop];
    assert f[1..10] == Flipped(Frame(b)[1..10], mask);
    FrameReceived(u, f, ins);
    FrameIsGood(b);
    FlippedParity(Frame(b)[1..10], mask);
  }

  // ---------------------------------------------------------------- sending

  /** A UART sending b that has seen n falls since it let go of the clock; just says whether
      the last fall was in the clock before. */
  predicate Sends(u: Uart, b: Octet, n: nat, just: bool) {
    && |u.shift| == 9 && n <= 10
    && u.writing && !u.out.obfSet
    && u.state == (if n == 0 then Start else if n <= 8 then Data else if n == 9 then Parity else Stop)
    && (u.state == Data ==> u.cnt == n - 1)
    && (if n == 0 then u.shift[..8] == b else u.shift[..10 - n] == Frame(b)[n..10])
    && (!just || n == 0 ==> u.out.dataOut == Frame(b)[n])
  }

  /** A write request on its way: in the output register, then in the shift register. */
  predicate Requests(u: Uart, b: Octet) {
    && |u.shift| == 9
    && ((u.state == Idle && !u.writing && u.out.obfSet && u.out.dataReg == b)
        || (u.state == WriteRequest && u.writing && u.out.obfSet && u.out.dataReg == b)
        || (u.state == WriteRequest && u.writing && !u.out.obfSet && u.shift[..8] == b && !u.out.dataOut))
  }

  lemma StepRequests(u: Uart, b: Octet, i: In)
    requires Requests(u, b) && !i.obfSet
    ensures if u.state == WriteRequest && i.wdt then Sends(Step(u, i), b, 0, false) else Requests(Step(u, i), b)
  {
    assert (b + [false])[..8] == b;
  }

  lemma ShiftOutDrops(shift: seq<bool>, f: seq<bool>, n: nat)
    requires |shift| == 9 && |f| == 11 && 1 <= n <= 9 && shift[..10 - n] == f[n..10]
    ensures shift[0] == f[n] && (shift[1..] + [true])[..9 - n] == f[n + 1..10]
  {
    assert shift[0] == shift[..10 - n][0];
    assert (shift[1..] + [true])[..9 - n] == shift[..10 - n][1..];
  }

  lemma StepSends(u: Uart, b: Octet, n: nat, just: bool, i: In)
    requires Sends(u, b, n, just) && !i.obfSet && !i.wdt && !(just && i.fall) && (n == 10 ==> !i.fall)
    ensures Sends(Step(u, i), b, if i.fall then n + 1 else n, i.fall)
  {
    if n == 0 {
      ParityTree(u.shift);
      assert (b + [!OddOnes(b)])[..9] == Frame(b)[1..10];
    } else if n <= 9 {
      ShiftOutDrops(u.shift, Frame(b), n);
    }
  }

  /** A UART and what it drove at each fall since it let go of the clock. */
  datatype Sender = Sender(u: Uart, line: seq<bool>)

  predicate Clocking(u: Uart) { u.writing && u.state != WriteRequest }

  function Drive(s: Sender, i: In): (s': Sender)
    requires |s.u.shift| == 9
    ensures |s'.u.shift| == 9
  {
    Sender(Step(s.u, i), if i.fall && Clocking(s.u) then s.line + [s.u.out.dataOut] else s.line)
  }

  function DriveAll(s: Sender, ins: seq<In>): (s': Sender)
    requires |s.u.shift| == 9
    ensures |s'.u.shift| == 9
    decreases |ins|
  {
    if ins == [] then s else DriveAll(Drive(s, ins[0]), ins[1..])
  }

  /** Until the eleventh fall no second write request, and no watchdog in the device's turn. */
  predicate Clocked(s: Sender, ins: seq<In>)
    requires |s.u.shift| == 9
    decreases |ins|
  {
    ins != [] ==>
      && (|s.line| < 11 ==> !ins[0].obfSet && (Clocking(s.u) ==> !ins[0].wdt))
      && Clocked(Drive(s, ins[0]), ins[1..])
  }

  predicate OnTheWay(s: Sender, b: Octet, just: bool) {
    || (s.line == [] && Requests(s.u, b))
    || (|s.line| <= 10 && Sends(s.u, b, |s.line|, just) && s.line <= Frame(b))
    || (|s.u.shift| == 9 && Frame(b) <= s.line)
  }

  lemma LineGrows(line: seq<bool>, f: seq<bool>)
    requires line <= f && |line| < |f|
    ensures line + [f[|line|]] <= f
  {
  }

  /** The next bit goes out at a fall; the eleventh completes the frame. */
  lemma FallOnTheWay(s: Sender, b: Octet, i: In)
    requires |s.line| <= 10 && Sends(s.u, b, |s.line|, false) && s.line <= Frame(b)
    requires i.fall && !i.obfSet && !i.wdt
    ensures OnTheWay(Drive(s, i), b, true)
  {
    LineGrows(s.line, Frame(b));
    if |s.line| < 10 {
      StepSends(s.u, b, |s.line|, false, i);
    }
  }

  lemma WaitOnTheWay(s: Sender, b: Octet, just: bool, i: In)
    requires |s.line| <= 10 && Sends(s.u, b, |s.line|, just) && s.line <= Frame(b)
    requires !i.fall && !i.obfSet && !i.wdt
    ensures OnTheWay(Drive(s, i), b, false)
  {
    StepSends(s.u, b, |s.line|, just, i);
  }

  lemma StepOnTheWay(s: Sender, b: Octet, just: bool, i: In)
    requires OnTheWay(s, b, just) && !(just && i.fall)
    requires |s.line| < 11 ==> !i.obfSet && (Clocking(s.u) ==> !i.wdt)
    ensures OnTheWay(Drive(s, i), b, i.fall)
  {
    if s.line == [] && Requests(s.u, b) {
      StepRequests(s.u, b, i);
    } else if |s.line| <= 10 {
      if i.fall {
        FallOnTheWay(s, b, i);
      } else {
        WaitOnTheWay(s, b, just, i);
      }
    }
  }

  lemma {:induction false} StaysOnTheWay(s: Sender, b: Octet, just: bool, ins: seq<In>)
    requires OnTheWay(s, b, just) && Apart(just, ins) && Clocked(s, ins)
    ensures OnTheWay(DriveAll(s, ins), b, true)
    decreases |ins|
  {
    if ins != [] {
      StepOnTheWay(s, b, just, ins[0]);
      StaysOnTheWay(Drive(s, ins[0]), b, ins[0].fall, ins[1..]);
    }
  }

  /** From a write request the device samples the byte's frame, start bit first. */
  lemma FrameSent(u: Uart, b: Octet, ins: seq<In>, just: bool)
    requires Requests(u, b) && Apart(just, ins) && Clocked(Sender(u, []), ins)
    ensures var line := DriveAll(Sender(u, []), ins).line; line <= Frame(b) || Frame(b) <= line
  {
    StaysOnTheWay(Sender(u, []), b, just, ins);
  }

  /** The acknowledge, the line low at the eleventh fall, ends the write without an error; the
      UART is then ready to receive or to send again. Only it or the watchdog ends it. */
  lemma AcknowledgeEnds(u: Uart, b: Octet, just: bool, i: In)
    requires Sends(u, b, 10, just)
    ensures Step(u, i).writing <==> !((i.fall && !i.data) || i.wdt)
    ensures !Step(u, i).writing && !i.obfSet ==> Receives(Step(u, i), Collector([], Step(u, i).flags))
    ensures !i.errClr ==> Step(u, i).flags.frameErr == u.flags.frameErr
  {
  }

  /** What one UART sends another receives. */
  lemma Loopback(tx: Uart, b: Octet, sent: seq<In>, rx: Uart, received: seq<In>)
    requires Requests(tx, b) && Apart(false, sent) && Clocked(Sender(tx, []), sent)
    requires |DriveAll(Sender(tx, []), sent).line| == 11
    requires Receives(rx, Collector([], rx.flags)) && Undisturbed(rx, received)
    requires Falls(received) == DriveAll(Sender(tx, []), sent).line && !received[|received| - 1].fall
    ensures Run(rx, received).flags == Flags(b, true, rx.flags.parityErr, rx.flags.frameErr)
  {
    FrameSent(tx, b, sent, false);
    ByteReceived(rx, b, received);
  }

  // ---------------------------------------------------------------- debouncer and watchdog

  datatype Debounce = Stable | WaitStable | Rise | Fall

  /** The debouncer and the watchdog on the synchronised PS/2 clock. */
  datatype Front = Front(db: Debounce, dcnt: nat, clean: bool, wdt: nat)

  function FrontStep(f: Front, clk: bool): Front {
    var carry := f.dcnt >= 128;
    Front(
      match f.db
      case Stable => if f.clean == clk then Stable else if clk then Rise else Fall
      case WaitStable => if carry then Stable else WaitStable
      case Rise => WaitStable
      case Fall => WaitStable,
      if f.db == Fall || f.db == Rise || carry then 0 else f.dcnt + 1,
      if f.db == Rise then true else if f.db == Fall then false else f.clean,
      if f.db == Fall || f.wdt >= 128 then 0 else if carry then f.wdt + 1 else f.wdt)
  }

  /** since counts the clocks after the last fall. */
  datatype Timed = Timed(f: Front, since: nat)

  function TimedStep(t: Timed, clk: bool): Timed {
    Timed(FrontStep(t.f, clk), if t.f.db == Fall then 1 else t.since + 1)
  }

  function FrontRun(t: Timed, clks: seq<bool>): Timed
    decreases |clks|
  {
    if clks == [] then t else FrontRun(TimedStep(t, clks[0]), clks[1..])
  }

  /** 128 carries of the debounce counter, which come 129 clocks apart at the least */
  const WATCHDOG_CLOCKS: nat := 16512

  predicate FrontInv(t: Timed) {
    && t.f.dcnt <= 128 && t.f.wdt <= 128 && t.f.wdt * 129 + t.f.dcnt <= t.since
    && (t.f.db == Rise ==> !t.f.clean) && (t.f.db == Fall ==> t.f.clean)
    && (t.f.db == WaitStable ==> t.since >= (if t.f.clean then 132 else 1) + t.f.dcnt)
    && (t.f.db == Stable ==> t.since >= (if t.f.clean then 261 else 130))
    && (t.f.db == Rise ==> t.since >= 131)
    && (t.f.db == Fall ==> t.since >= 262)
  }

  lemma FrontStepKeepsInv(t: Timed, clk: bool)
    requires FrontInv(t)
    ensures FrontInv(TimedStep(t, clk))
  {
  }

  /** Whatever the PS/2 clock does, debounced falls are at least 262 clocks apart, and the
      watchdog does not fire within 16512 clocks after a fall. */
  lemma {:induction false} FallsApartAndInTime(t: Timed, clks: seq<bool>)
    requires FrontInv(t)
    ensures var e := FrontRun(t, clks);
            (e.f.db == Fall ==> e.since >= 262) && (e.f.wdt >= 128 ==> e.since >= WATCHDOG_CLOCKS)
    decreases |clks|
  {
    if clks != [] {
      FrontStepKeepsInv(t, clks[0]);
      FallsApartAndInTime(TimedStep(t, clks[0]), clks[1..]);
    }
  }

  /** The state machine fed by the debouncer and the watchdog. */
  predicate Fed(t: Timed, clks: seq<bool>, ins: seq<In>)
    decreases |clks|
  {
    && |clks| == |ins|
    && (ins != [] ==>
          && ins[0].fall == (t.f.db == Fall) && ins[0].wdt == (t.f.wdt >= 128)
          && Fed(TimedStep(t, clks[0]), clks[1..], ins[1..]))
  }

  /** Within a frame the falls follow each other in less than the watchdog's time. */
  predicate Prompt(t: Timed, r: Collector, clks: seq<bool>, ins: seq<In>)
    requires |clks| == |ins| && |r.cur| <= 11
    decreases |clks|
  {
    ins != [] ==>
      && (0 < |r.cur| < 11 ==> t.since < WATCHDOG_CLOCKS)
      && Prompt(TimedStep(t, clks[0]), Collect(r, ins[0]), clks[1..], ins[1..])
  }

  /** What reception asks of the debounced clock holds of every waveform that keeps the pace. */
  lemma {:induction false} PromptIsTimely(t: Timed, r: Collector, clks: seq<bool>, ins: seq<In>, just: bool)
    requires FrontInv(t) && Fed(t, clks, ins) && |r.cur| <= 11 && Prompt(t, r, clks, ins) && (just ==> t.since == 1)
    ensures Apart(just, ins) && Timely(r, ins)
    decreases |clks|
  {
    if ins != [] {
      FrontStepKeepsInv(t, clks[0]);
      PromptIsTimely(TimedStep(t, clks[0]), Collect(r, ins[0]), clks[1..], ins[1..], ins[0].fall);
    }
  }

  /** From the PS/2 clock to the byte: whatever waveform the debouncer sees, if its falls keep
      the pace and the line has a byte's frame at them, the byte ends up in the register. */
  lemma WaveformReceived(u: Uart, t: Timed, clks: seq<bool>, ins: seq<In>, b: Octet)
    requires Receives(u, Collector([], u.flags)) && NoRequests(ins) && Unread(ins)
    requires FrontInv(t) && Fed(t, clks, ins) && Prompt(t, Collector([], u.flags), clks, ins)
    requires Falls(ins) == Frame(b) && !ins[|ins| - 1].fall
    ensures Run(u, ins).flags == Flags(b, true, u.flags.parityErr, u.flags.frameErr)
  {
    PromptIsTimely(t, Collector([], u.flags), clks, ins, false);
    ByteReceived(u, b, ins);
  }

  // ---------------------------------------------------------------- whole waveforms

  function Level(level: bool, n: nat): (clks: seq<bool>)
    ensures |clks| == n && forall k :: 0 <= k < n ==> clks[k] == level
  {
    seq(n, k => level)
  }

  /** The state machine's input for a PS/2 clock and a data line, without host activity. */
  function Feed(t: Timed, clks: seq<bool>, line: seq<bool>): (ins: seq<In>)
    requires |clks| == |line|
    ensures |ins| == |clks|
    decreases |clks|
  {
    if clks == [] then []
    else
      [In(t.f.db == Fall, line[0], t.f.wdt >= 128, false,
          [false, false, false, false, false, false, false, false], false, false)] +
      Feed(TimedStep(t, clks[0]), clks[1..], line[1..])
  }

  lemma {:induction false} FeedIsFed(t: Timed, clks: seq<bool>, line: seq<bool>)
    requires |clks| == |line|
    ensures Fed(t, clks, Feed(t, clks, line)) && NoRequests(Feed(t, clks, line)) && Unread(Feed(t, clks, line))
    decreases |clks|
  {
    if clks != [] {
      assert Feed(t, clks, line)[1..] == Feed(TimedStep(t, clks[0]), clks[1..], line[1..]);
      FeedIsFed(TimedStep(t, clks[0]), clks[1..], line[1..]);
    }
  }

  /** The debouncer has settled, or is about to settle, on this level. */
  predicate Settling(t: Timed, level: bool) {
    FrontInv(t) && (t.f.db.Stable? || t.f.db.WaitStable?) && t.f.clean == level
  }

  predicate Settled(t: Timed, level: bool) { Settling(t, level) && t.f.db.Stable? }

  function InFrame(r: Collector): bool { 0 < |r.cur| < 11 }

  /** Once an edge is seen, holding the level gives no further one and settles the debouncer
      129 clocks later at the latest. */
  lemma {:induction false} LevelHeld(t: Timed, r: Collector, level: bool, clks: seq<bool>, line: seq<bool>)
    requires Settling(t, level) && |r.cur| <= 11 && |clks| == |line|
    requires forall k :: 0 <= k < |clks| ==> clks[k] == level
    requires InFrame(r) ==> t.since + |clks| <= WATCHDOG_CLOCKS
    ensures var e, ins := FrontRun(t, clks), Feed(t, clks, line);
            && Falls(ins) == [] && Prompt(t, r, clks, ins)
            && Settling(e, level) && e.since == t.since + |clks|
            && (t.f.db.Stable? || t.f.dcnt + |clks| >= 129 ==> Settled(e, level))
            && CollectAll(r, ins).cur == (if |r.cur| == 11 && clks != [] then [] else r.cur)
    decreases |clks|
  {
    if clks != [] {
      var ins, t' := Feed(t, clks, line), TimedStep(t, clks[0]);
      assert ins[1..] == Feed(t', clks[1..], line[1..]);
      FrontStepKeepsInv(t, clks[0]);
      LevelHeld(t', Collect(r, ins[0]), level, clks[1..], line[1..]);
    }
  }

  /** The debouncer is complete: a settled high clock that goes low gives a fall in the next
      clock, and one that goes high again after that a rise. */
  lemma EdgeSeen(t: Timed, level: bool)
    requires Settled(t, !level)
    ensures TimedStep(t, level).f.db == (if level then Rise else Fall)
    ensures Settling(TimedStep(TimedStep(t, level), level), level)
    ensures TimedStep(TimedStep(t, level), level).f.dcnt == 0
    ensures TimedStep(TimedStep(t, level), level).since == if level then t.since + 2 else 1
  {
    FrontStepKeepsInv(t, level);
    FrontStepKeepsInv(TimedStep(t, level), level);
  }

  /** One clock of a waveform. */
  lemma FeedClock(t: Timed, clks: seq<bool>, line: seq<bool>)
    requires |clks| == |line| >= 1
    ensures var i := Feed(t, clks, line)[0];
            i.fall == (t.f.db == Fall) && i.wdt == (t.f.wdt >= 128) && i.data == line[0] && !i.obfSet
    ensures Feed(t, clks, line)[1..] == Feed(TimedStep(t, clks[0]), clks[1..], line[1..])
  {
  }

  lemma FallsClock(ins: seq<In>)
    requires ins != []
    ensures Falls(ins) == if ins[0].fall then [ins[0].data] + Falls(ins[1..]) else Falls(ins[1..])
  {
    if !ins[0].fall {
      assert [] + Falls(ins[1..]) == Falls(ins[1..]);
    }
  }

  /** What the first two clocks of a new level do to the collector. */
  function Collected2(t: Timed, r: Collector, clks: seq<bool>, line: seq<bool>): (r2: Collector)
    requires |clks| == |line| >= 2 && |r.cur| <= 11
    ensures |r2.cur| <= 11
  {
    Collect(Collect(r, Feed(t, clks, line)[0]), Feed(TimedStep(t, clks[0]), clks[1..], line[1..])[0])
  }

  /** A waveform that begins with a settled level and then changes it: an edge in the second
      clock, and then what the level held from there gives. */
  lemma EdgeThenHeld(t: Timed, r: Collector, level: bool, clks: seq<bool>, line: seq<bool>)
    requires Settled(t, !level) && |r.cur| <= 10 && |clks| == |line| >= 131
    requires forall k :: 0 <= k < |clks| ==> clks[k] == level
    requires InFrame(r) ==> t.since + (if level then |clks| else 2) <= WATCHDOG_CLOCKS
    requires |clks| <= WATCHDOG_CLOCKS
    ensures var t2 := TimedStep(TimedStep(t, level), level);
            var e, ins, r2 := FrontRun(t2, clks[2..]), Feed(t2, clks[2..], line[2..]), Collected2(t, r, clks, line);
            && r2.cur == (if level then r.cur else r.cur + [line[1]])
            && Falls(ins) == [] && Prompt(t2, r2, clks[2..], ins)
            && Settled(e, level) && e.since == (if level then t.since + |clks| else |clks| - 1)
            && CollectAll(r2, ins).cur == (if |r2.cur| == 11 then [] else r2.cur)
  {
    EdgeSeen(t, level);
    FrontStepKeepsInv(t, level);
    FeedClock(t, clks, line);
    FeedClock(TimedStep(t, level), clks[1..], line[1..]);
    LevelHeld(TimedStep(TimedStep(t, level), level), Collected2(t, r, clks, line), level, clks[2..], line[2..]);
  }

  lemma TwoSteps(t: Timed, r: Collector, clks: seq<bool>, line: seq<bool>)
    requires |clks| == |line| >= 2 && |r.cur| <= 11
    ensures var t2 := TimedStep(TimedStep(t, clks[0]), clks[1]);
            && FrontRun(t, clks) == FrontRun(t2, clks[2..])
            && Feed(t, clks, line)[1..][1..] == Feed(t2, clks[2..], line[2..])
  {
    FeedClock(t, clks, line);
    FeedClock(TimedStep(t, clks[0]), clks[1..], line[1..]);
    assert clks[1..][1..] == clks[2..] && line[1..][1..] == line[2..];
  }

  lemma TwoCollected(t: Timed, r: Collector, clks: seq<bool>, line: seq<bool>)
    requires |clks| == |line| >= 2 && |r.cur| <= 11
    ensures var t2 := TimedStep(TimedStep(t, clks[0]), clks[1]);
            CollectAll(r, Feed(t, clks, line)) ==
            CollectAll(Collected2(t, r, clks, line), Feed(t2, clks[2..], line[2..]))
  {
    FeedClock(t, clks, line);
    TwoSteps(t, r, clks, line);
  }

  lemma TwoFalls(t: Timed, clks: seq<bool>, line: seq<bool>, r: Collector)
    requires |clks| == |line| >= 2 && t.f.db != Fall && |r.cur| <= 11
    ensures var t1 := TimedStep(t, clks[0]); var t2 := TimedStep(t1, clks[1]);
            Falls(Feed(t, clks, line)) ==
            (if t1.f.db == Fall then [line[1]] else []) + Falls(Feed(t2, clks[2..], line[2..]))
  {
    FeedClock(t, clks, line);
    FeedClock(TimedStep(t, clks[0]), clks[1..], line[1..]);
    TwoSteps(t, r, clks, line);
    FallsClock(Feed(t, clks, line));
    FallsClock(Feed(t, clks, line)[1..]);
    var rest := Falls(Feed(TimedStep(TimedStep(t, clks[0]), clks[1]), clks[2..], line[2..]));
    assert [] + rest == rest;
  }

  lemma TwoPrompt(t: Timed, r: Collector, clks: seq<bool>, line: seq<bool>)
    requires |clks| == |line| >= 2 && |r.cur| <= 11
    requires var t1 := TimedStep(t, clks[0]); var t2 := TimedStep(t1, clks[1]);
             Prompt(t2, Collected2(t, r, clks, line), clks[2..], Feed(t2, clks[2..], line[2..]))
    requires InFrame(r) ==> t.since < WATCHDOG_CLOCKS
    requires InFrame(Collect(r, Feed(t, clks, line)[0])) ==> TimedStep(t, clks[0]).since < WATCHDOG_CLOCKS
    ensures Prompt(t, r, clks, Feed(t, clks, line))
  {
    var ins, t1 := Feed(t, clks, line), TimedStep(t, clks[0]);
    var r1 := Collect(r, ins[0]);
    FeedClock(t, clks, line);
    TwoSteps(t, r, clks, line);
    assert clks[1..][1..] == clks[2..];
    assert Prompt(t1, r1, clks[1..], ins[1..]);
  }

  /** A level that goes low and is held gives exactly one fall, at its second clock. */
  lemma LowGivesOneFall(t: Timed, r: Collector, clks: seq<bool>, line: seq<bool>)
    requires Settled(t, true) && |r.cur| <= 10 && |clks| == |line| >= 131
    requires forall k :: 0 <= k < |clks| ==> !clks[k]
    requires InFrame(r) ==> t.since + 2 <= WATCHDOG_CLOCKS
    requires |clks| <= WATCHDOG_CLOCKS
    ensures var e, ins := FrontRun(t, clks), Feed(t, clks, line);
            && Falls(ins) == [line[1]] && Prompt(t, r, clks, ins)
            && Settled(e, false) && e.since == |clks| - 1
            && CollectAll(r, ins).cur == (if |r.cur| == 10 then [] else r.cur + [line[1]])
  {
    EdgeSeen(t, false);
    EdgeThenHeld(t, r, false, clks, line);
    TwoSteps(t, r, clks, line);
    TwoCollected(t, r, clks, line);
    TwoFalls(t, clks, line, r);
    FeedClock(t, clks, line);
    assert InFrame(Collect(r, Feed(t, clks, line)[0])) ==> InFrame(r);
    TwoPrompt(t, r, clks, line);
    assert [line[1]] + [] == [line[1]];
  }

  lemma HighSeen(t: Timed, r: Collector, clks: seq<bool>, line: seq<bool>)
    requires Settled(t, false) && |r.cur| <= 10 && |clks| == |line| >= 131
    requires forall k :: 0 <= k < |clks| ==> clks[k]
    requires |clks| <= WATCHDOG_CLOCKS && (InFrame(r) ==> t.since + |clks| <= WATCHDOG_CLOCKS)
    ensures Falls(Feed(t, clks, line)) == [] && Prompt(t, r, clks, Feed(t, clks, line))
  {
    EdgeThenHeld(t, r, true, clks, line);
    RisingFalls(t, r, clks, line);
    RisingPrompt(t, r, clks, line);
  }

  lemma HighEnds(t: Timed, r: Collector, clks: seq<bool>, line: seq<bool>)
    requires Settled(t, false) && |r.cur| <= 10 && |clks| == |line| >= 131
    requires forall k :: 0 <= k < |clks| ==> clks[k]
    requires |clks| <= WATCHDOG_CLOCKS && (InFrame(r) ==> t.since + |clks| <= WATCHDOG_CLOCKS)
    ensures Settled(FrontRun(t, clks), true) && FrontRun(t, clks).since == t.since + |clks|
  {
    EdgeThenHeld(t, r, true, clks, line);
    TwoSteps(t, r, clks, line);
  }

  lemma HighCollects(t: Timed, r: Collector, clks: seq<bool>, line: seq<bool>)
    requires Settled(t, false) && |r.cur| <= 10 && |clks| == |line| >= 131
    requires forall k :: 0 <= k < |clks| ==> clks[k]
    requires |clks| <= WATCHDOG_CLOCKS && (InFrame(r) ==> t.since + |clks| <= WATCHDOG_CLOCKS)
    ensures CollectAll(r, Feed(t, clks, line)).cur == r.cur
  {
    EdgeThenHeld(t, r, true, clks, line);
    TwoCollected(t, r, clks, line);
  }

  /** A level that goes high and is held gives no fall. */
  lemma HighGivesNoFall(t: Timed, r: Collector, clks: seq<bool>, line: seq<bool>)
    requires Settled(t, false) && |r.cur| <= 10 && |clks| == |line| >= 131
    requires forall k :: 0 <= k < |clks| ==> clks[k]
    requires |clks| <= WATCHDOG_CLOCKS && (InFrame(r) ==> t.since + |clks| <= WATCHDOG_CLOCKS)
    ensures var e, ins := FrontRun(t, clks), Feed(t, clks, line);
            && Falls(ins) == [] && Prompt(t, r, clks, ins)
            && Settled(e, true) && e.since == t.since + |clks|
            && CollectAll(r, ins).cur == r.cur
  {
    HighSeen(t, r, clks, line);
    HighEnds(t, r, clks, line);
    HighCollects(t, r, clks, line);
  }

  lemma RisingFalls(t: Timed, r: Collector, clks: seq<bool>, line: seq<bool>)
    requires Settled(t, false) && |clks| == |line| >= 2 && clks[0] && clks[1] && |r.cur| <= 10
    requires Falls(Feed(TimedStep(TimedStep(t, true), true), clks[2..], line[2..])) == []
    ensures Falls(Feed(t, clks, line)) == []
  {
    EdgeSeen(t, true);
    TwoFalls(t, clks, line, r);
  }

  lemma RisingPrompt(t: Timed, r: Collector, clks: seq<bool>, line: seq<bool>)
    requires Settled(t, false) && |clks| == |line| >= 2 && clks[0] && clks[1] && |r.cur| <= 10
    requires InFrame(r) ==> t.since + 2 <= WATCHDOG_CLOCKS
    requires var t2 := TimedStep(TimedStep(t, true), true);
             Prompt(t2, Collected2(t, r, clks, line), clks[2..], Feed(t2, clks[2..], line[2..]))
    ensures Prompt(t, r, clks, Feed(t, clks, line))
  {
    FeedClock(t, clks, line);
    TwoPrompt(t, r, clks, line);
  }

  lemma {:induction false} FallsJoined(a: seq<In>, b: seq<In>)
    ensures Falls(a + b) == Falls(a) + Falls(b)
  {
    if a == [] {
      assert a + b == b;
    } else {
      assert (a + b)[1..] == a[1..] + b;
      FallsJoined(a[1..], b);
      Regroup(if a[0].fall then [a[0].data] else [], Falls(a[1..]), Falls(b));
    }
  }

  lemma {:induction false} CollectJoined(r: Collector, a: seq<In>, b: seq<In>)
    requires |r.cur| <= 11
    ensures CollectAll(r, a + b) == CollectAll(CollectAll(r, a), b)
    decreases |a|
  {
    if a == [] {
      assert a + b == b;
    } else {
      assert (a + b)[1..] == a[1..] + b;
      CollectJoined(Collect(r, a[0]), a[1..], b);
    }
  }

  lemma {:induction false} FeedJoined(t: Timed, c1: seq<bool>, l1: seq<bool>, c2: seq<bool>, l2: seq<bool>)
    requires |c1| == |l1| && |c2| == |l2|
    ensures FrontRun(t, c1 + c2) == FrontRun(FrontRun(t, c1), c2)
    ensures Feed(t, c1 + c2, l1 + l2) == Feed(t, c1, l1) + Feed(FrontRun(t, c1), c2, l2)
    decreases |c1|
  {
    if c1 == [] {
      assert c1 + c2 == c2 && l1 + l2 == l2;
    } else {
      assert (c1 + c2)[1..] == c1[1..] + c2 && (l1 + l2)[1..] == l1[1..] + l2;
      FeedJoined(TimedStep(t, c1[0]), c1[1..], l1[1..], c2, l2);
    }
  }

  lemma {:induction false} PromptJoined(t: Timed, r: Collector, c1: seq<bool>, a: seq<In>, c2: seq<bool>, b: seq<In>)
    requires |c1| == |a| && |c2| == |b| && |r.cur| <= 11
    requires Prompt(t, r, c1, a) && Prompt(FrontRun(t, c1), CollectAll(r, a), c2, b)
    ensures Prompt(t, r, c1 + c2, a + b)
    decreases |c1|
  {
    if c1 == [] {
      assert c1 + c2 == c2 && a + b == b;
    } else {
      HeadAndTail(c1, c2);
      HeadAndTail(a, b);
      PromptJoined(TimedStep(t, c1[0]), Collect(r, a[0]), c1[1..], a[1..], c2, b);
    }
  }

  /** Two clocks after the last fall, the last clock was none. */
  lemma {:induction false} QuietSince(t: Timed, clks: seq<bool>, line: seq<bool>)
    requires |clks| == |line| > 0 && FrontRun(t, clks).since >= 2
    ensures !Feed(t, clks, line)[|clks| - 1].fall
    decreases |clks|
  {
    FeedClock(t, clks, line);
    var t1 := TimedStep(t, clks[0]);
    if |clks| > 1 {
      QuietSince(t1, clks[1..], line[1..]);
    } else {
      assert FrontRun(t, clks) == FrontRun(t1, []) == t1;
    }
  }

  /** A stretch of a waveform: these falls are seen at the given pace, none in its last clock,
      and it leaves the debouncer and the collector like this. */
  predicate Stretch(
      t: Timed, r: Collector, clks: seq<bool>, line: seq<bool>, falls: seq<bool>, t': Timed, r': Collector)
  {
    && |clks| == |line| && |r.cur| <= 11
    && FrontRun(t, clks) == t' && CollectAll(r, Feed(t, clks, line)) == r'
    && Falls(Feed(t, clks, line)) == falls && Prompt(t, r, clks, Feed(t, clks, line))
    && (clks != [] ==> !Feed(t, clks, line)[|clks| - 1].fall)
  }

  lemma StretchesJoin(
      t: Timed, r: Collector, c1: seq<bool>, l1: seq<bool>, f1: seq<bool>, t1: Timed, r1: Collector,
      c2: seq<bool>, l2: seq<bool>, f2: seq<bool>, t2: Timed, r2: Collector)
    requires Stretch(t, r, c1, l1, f1, t1, r1) && Stretch(t1, r1, c2, l2, f2, t2, r2)
    ensures Stretch(t, r, c1 + c2, l1 + l2, f1 + f2, t2, r2)
  {
    var a, b := Feed(t, c1, l1), Feed(t1, c2, l2);
    FeedJoined(t, c1, l1, c2, l2);
    FallsJoined(a, b);
    CollectJoined(r, a, b);
    PromptJoined(t, r, c1, a, c2, b);
    LastOf(a, b, c1, c2);
  }

  lemma LastOf(a: seq<In>, b: seq<In>, c1: seq<bool>, c2: seq<bool>)
    requires |a| == |c1| && |b| == |c2|
    requires (a != [] ==> !a[|a| - 1].fall) && (b != [] ==> !b[|b| - 1].fall)
    ensures c1 + c2 != [] ==> !(a + b)[|c1 + c2| - 1].fall
  {
  }

  /** One period of the PS/2 clock: the data line while the clock is low and while it is high. */
  datatype Period = Period(low: seq<bool>, high: seq<bool>)

  /** Both levels last long enough to be debounced, and the period is shorter than the watchdog's
      time. */
  predicate Admissible(p: Period) {
    |p.low| >= 131 && |p.high| >= 131 && |p.low| + |p.high| < WATCHDOG_CLOCKS
  }

  function ClockOf(ps: seq<Period>): seq<bool> {
    if ps == [] then [] else Level(false, |ps[0].low|) + Level(true, |ps[0].high|) + ClockOf(ps[1..])
  }

  function LineOf(ps: seq<Period>): (line: seq<bool>)
    ensures |line| == |ClockOf(ps)|
  {
    if ps == [] then [] else ps[0].low + ps[0].high + LineOf(ps[1..])
  }

  /** The data line one clock after each falling edge. */
  function Sampled(ps: seq<Period>): (bits: seq<bool>)
    requires forall k :: 0 <= k < |ps| ==> Admissible(ps[k])
    ensures |bits| == |ps| && forall k :: 0 <= k < |ps| ==> Admissible(ps[k]) && bits[k] == ps[k].low[1]
  {
    if ps == [] then []
    else
      assert Admissible(ps[0]);
      [ps[0].low[1]] + Sampled(ps[1..])
  }

  lemma ItsStretch(t: Timed, r: Collector, clks: seq<bool>, line: seq<bool>, falls: seq<bool>)
    requires |clks| == |line| > 0 && |r.cur| <= 11 && FrontRun(t, clks).since >= 2
    requires Falls(Feed(t, clks, line)) == falls && Prompt(t, r, clks, Feed(t, clks, line))
    ensures Stretch(t, r, clks, line, falls, FrontRun(t, clks), CollectAll(r, Feed(t, clks, line)))
  {
    QuietSince(t, clks, line);
  }

  lemma LowStretch(t: Timed, r: Collector, clks: seq<bool>, line: seq<bool>) returns (t': Timed, r': Collector)
    requires Settled(t, true) && |r.cur| <= 10 && 131 <= |clks| == |line| <= WATCHDOG_CLOCKS
    requires forall k :: 0 <= k < |clks| ==> !clks[k]
    requires InFrame(r) ==> t.since + 2 <= WATCHDOG_CLOCKS
    ensures Stretch(t, r, clks, line, [line[1]], t', r')
    ensures Settled(t', false) && t'.since == |line| - 1
    ensures r'.cur == (if |r.cur| == 10 then [] else r.cur + [line[1]])
  {
    t', r' := FrontRun(t, clks), CollectAll(r, Feed(t, clks, line));
    LowGivesOneFall(t, r, clks, line);
    ItsStretch(t, r, clks, line, [line[1]]);
  }

  lemma HighStretch(t: Timed, r: Collector, clks: seq<bool>, line: seq<bool>) returns (t': Timed, r': Collector)
    requires Settled(t, false) && |r.cur| <= 10 && 131 <= |clks| == |line| <= WATCHDOG_CLOCKS
    requires forall k :: 0 <= k < |clks| ==> clks[k]
    requires InFrame(r) ==> t.since + |clks| <= WATCHDOG_CLOCKS
    ensures Stretch(t, r, clks, line, [], t', r')
    ensures Settled(t', true) && t'.since == t.since + |line| && r'.cur == r.cur
  {
    t', r' := FrontRun(t, clks), CollectAll(r, Feed(t, clks, line));
    HighGivesNoFall(t, r, clks, line);
    ItsStretch(t, r, clks, line, []);
  }

  lemma LowThenHigh(t: Timed, r: Collector, low: seq<bool>, high: seq<bool>, l1: seq<bool>, l2: seq<bool>)
    returns (t': Timed, r': Collector)
    requires Settled(t, true) && |r.cur| <= 10 && |low| == |l1| >= 131 && |high| == |l2| >= 131
    requires forall k :: 0 <= k < |low| ==> !low[k]
    requires forall k :: 0 <= k < |high| ==> high[k]
    requires |low| + |high| < WATCHDOG_CLOCKS && (InFrame(r) ==> t.since + 2 <= WATCHDOG_CLOCKS)
    ensures Stretch(t, r, low + high, l1 + l2, [l1[1]] + [], t', r')
    ensures Settled(t', true) && t'.since + 2 <= WATCHDOG_CLOCKS
    ensures r'.cur == (if |r.cur| == 10 then [] else r.cur + [l1[1]])
  {
    var t1, r1 := LowStretch(t, r, low, l1);
    t', r' := HighStretch(t1, r1, high, l2);
    StretchesJoin(t, r, low, l1, [l1[1]], t1, r1, high, l2, [], t', r');
  }

  /** One period clocks in one bit and keeps the pace. */
  lemma PeriodStretch(t: Timed, r: Collector, p: Period) returns (t': Timed, r': Collector)
    requires Settled(t, true) && |r.cur| <= 10 && Admissible(p)
    requires InFrame(r) ==> t.since + 2 <= WATCHDOG_CLOCKS
    ensures Stretch(t, r, Level(false, |p.low|) + Level(true, |p.high|), p.low + p.high, [p.low[1]], t', r')
    ensures Settled(t', true) && t'.since + 2 <= WATCHDOG_CLOCKS
    ensures r'.cur == (if |r.cur| == 10 then [] else r.cur + [p.low[1]])
  {
    t', r' := LowThenHigh(t, r, Level(false, |p.low|), Level(true, |p.high|), p.low, p.high);
    assert [p.low[1]] + [] == [p.low[1]];
  }

  /** Periods clock in exactly their bits. */
  lemma {:induction false} PeriodsStretch(t: Timed, r: Collector, ps: seq<Period>) returns (t': Timed, r': Collector)
    requires Settled(t, true) && |r.cur| + |ps| <= 11 && |r.cur| <= 10
    requires forall k :: 0 <= k < |ps| ==> Admissible(ps[k])
    requires InFrame(r) ==> t.since + 2 <= WATCHDOG_CLOCKS
    ensures Stretch(t, r, ClockOf(ps), LineOf(ps), Sampled(ps), t', r') && Settled(t', true)
    decreases |ps|
  {
    if ps == [] {
      t', r' := t, r;
      assert Feed(t, [], []) == [];
    } else {
      var p := ps[0];
      assert Admissible(p);
      var t1, r1 := PeriodStretch(t, r, p);
      t', r' := PeriodsStretch(t1, r1, ps[1..]);
      StretchesJoin(t, r, Level(false, |p.low|) + Level(true, |p.high|), p.low + p.high, [p.low[1]], t1, r1,
                    ClockOf(ps[1..]), LineOf(ps[1..]), Sampled(ps[1..]), t', r');
    }
  }

  /** From a waveform alone: eleven admissible periods of the PS/2 clock, with a byte's frame on
      the data line one clock after each falling edge and anything in between, leave the byte in
      the data register of an idle UART. */
  lemma FrameOnWires(u: Uart, t: Timed, ps: seq<Period>, b: Octet)
    requires Receives(u, Collector([], u.flags)) && Settled(t, true) && |ps| == 11
    requires forall k :: 0 <= k < |ps| ==> Admissible(ps[k])
    requires Sampled(ps) == Frame(b)
    ensures Run(u, Feed(t, ClockOf(ps), LineOf(ps))).flags == Flags(b, true, u.flags.parityErr, u.flags.frameErr)
  {
    var t', r' := PeriodsStretch(t, Collector([], u.flags), ps);
    StretchReceived(u, t, ClockOf(ps), LineOf(ps), b, t', r');
  }

  lemma StretchReceived(u: Uart, t: Timed, clks: seq<bool>, line: seq<bool>, b: Octet, t': Timed, r': Collector)
    requires Receives(u, Collector([], u.flags)) && FrontInv(t)
    requires Stretch(t, Collector([], u.flags), clks, line, Frame(b), t', r')
    ensures Run(u, Feed(t, clks, line)).flags == Flags(b, true, u.flags.parityErr, u.flags.frameErr)
  {
    FeedIsFed(t, clks, line);
    assert clks != [];
    WaveformReceived(u, t, clks, Feed(t, clks, line), b);
  }

  /** The host's clears win over what sets a flag; the watchdog ends a frame under way, in either
      direction, with a frame error, and nothing else sets that flag. */
  lemma FlagRules(u: Uart, i: In)
    requires |u.shift| == 9
    ensures var u' := Step(u, i);
            && (i.errClr ==> !u'.flags.parityErr && !u'.flags.frameErr)
            && (i.ibfClr ==> !u'.flags.ibf)
            && (!i.errClr && u.flags.parityErr ==> u'.flags.parityErr)
            && (!i.ibfClr && u.flags.ibf ==> u'.flags.ibf)
            && (!i.errClr ==> (u'.flags.frameErr <==>
                  u.flags.frameErr || (i.wdt && (u.state == Start || u.state == Data || u.state == Parity))))
            && (i.wdt && (u.state == Start || u.state == Data || u.state == Parity) ==> u'.state == Idle && !u'.writing)
            && (u'.flags.dataO != u.flags.dataO ==> u.state == Stop && !u.writing)
  {
  }

  // ---------------------------------------------------------------- host writes

  /** A byte waits in the output register. */
  predicate Pending(u: Uart, b: Octet) { |u.shift| == 9 && !u.writing && u.out.obfSet && u.out.dataReg == b }

  /** A host write of b to a UART that is not sending leaves b waiting to be sent. */
  lemma HostWrites(u: Uart, b: Octet, i: In)
    requires |u.shift| == 9 && !u.writing && u.state != WriteRequest && i.obfSet && i.dataI == b
    ensures Pending(Step(u, i), b) || Requests(Step(u, i), b)
    ensures u.state == Idle && !u.out.obfSet && !i.fall ==> Requests(Step(u, i), b)
  {
  }

  /** It waits for the end of a frame that is being received, and in the idle state it is a write
      request. */
  lemma PendingWaits(u: Uart, b: Octet, i: In)
    requires Pending(u, b) && u.state != WriteRequest && !i.obfSet
    ensures u.state == Idle ==> Requests(u, b)
    ensures u.state != Idle ==> Pending(Step(u, i), b) && Step(u, i).state != WriteRequest
  {
  }

  /** From a write request the watchdog lets the device begin, and every fall from then on takes
      one bit of the frame, until all eleven are out. */
  lemma {:induction false} FallsTakeBits(s: Sender, b: Octet, just: bool, ins: seq<In>)
    requires OnTheWay(s, b, just) && (Clocking(s.u) || |s.line| >= 11) && Apart(just, ins) && Clocked(s, ins)
    ensures |DriveAll(s, ins).line| >= (if |s.line| + |Falls(ins)| <= 11 then |s.line| + |Falls(ins)| else 11)
    decreases |ins|
  {
    if ins != [] {
      var s' := Drive(s, ins[0]);
      StepOnTheWay(s, b, just, ins[0]);
      FallsClock(ins);
      StillClocking(s, b, just, ins[0]);
      FallsTakeBits(s', b, ins[0].fall, ins[1..]);
    }
  }

  lemma StillClocking(s: Sender, b: Octet, just: bool, i: In)
    requires OnTheWay(s, b, just) && (Clocking(s.u) || |s.line| >= 11) && !(just && i.fall)
    requires |s.line| < 11 ==> !i.obfSet && (Clocking(s.u) ==> !i.wdt)
    ensures Clocking(Drive(s, i).u) || |Drive(s, i).line| >= 11
    ensures |Drive(s, i).line| >= |s.line|
    ensures |s.line| < 11 && i.fall ==> |Drive(s, i).line| == |s.line| + 1
  {
    if |s.line| <= 10 {
      assert Sends(s.u, b, |s.line|, just);
    }
  }

  /** So eleven falls after the watchdog has ended the request the whole frame is out. */
  lemma FrameCompletes(u: Uart, b: Octet, i: In, ins: seq<In>)
    requires Requests(u, b) && u.state == WriteRequest && i.wdt && !i.obfSet && Apart(i.fall, ins)
    requires Clocked(Sender(Step(u, i), []), ins) && |Falls(ins)| >= 11
    ensures Frame(b) <= DriveAll(Sender(Step(u, i), []), ins).line
  {
    var s := Sender(Step(u, i), []);
    StepRequests(u, b, i);
    SendsFrom(s, b, i.fall);
    FallsTakeBits(s, b, i.fall, ins);
    StaysOnTheWay(s, b, i.fall, ins);
  }

  lemma SendsFrom(s: Sender, b: Octet, just: bool)
    requires s.line == [] && Sends(s.u, b, 0, false)
    ensures OnTheWay(s, b, just) && Clocking(s.u)
  {
    assert [] <= Frame(b);
  }

  // ---------------------------------------------------------------- the watchdog

  /** Without edges the watchdog counts every 129th clock, up to 128. */
  lemma {:induction false} WatchdogCounts(t: Timed, level: bool, n: nat)
    requires Settling(t, level) && t.f.wdt * 129 + t.f.dcnt + n <= WATCHDOG_CLOCKS
    ensures var e := FrontRun(t, Level(level, n));
            Settling(e, level) && e.f.wdt * 129 + e.f.dcnt == t.f.wdt * 129 + t.f.dcnt + n
    decreases n
  {
    var clks := Level(level, n);
    if n > 0 {
      FrontStepKeepsInv(t, level);
      assert clks[1..] == Level(level, n - 1);
      WatchdogCounts(TimedStep(t, level), level, n - 1);
    }
  }

  /** So after a fall it fires, if no further edge comes: 16512 clocks after the clock that
      follows the fall. */
  lemma WatchdogFires(t: Timed)
    requires FrontInv(t) && t.f.db == Fall
    ensures FrontRun(TimedStep(t, false), Level(false, 16512)).f.wdt == 128
  {
    FrontStepKeepsInv(t, false);
    WatchdogCounts(TimedStep(t, false), false, 16512);
  }
}
