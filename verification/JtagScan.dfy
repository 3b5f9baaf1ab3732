/** jtagServer: a scan of the JTAG chain, resumed once per simulation step. Every call moves the
    clock generator a little; the driver shifts a buffer out on TDI while it samples TDO. */
module JtagScan {
  import opened Common

  function Zero(): Octet { [false, false, false, false, false, false, false, false] }

  const TWO64: nat := 0x1_0000_0000_0000_0000

  /** t - time in 64-bit unsigned arithmetic */
  function Elapsed(t: nat, time: nat): int { if t >= time then t - time else t - time + TWO64 }

  // ---------------------------------------------------------------- one call, as functions

  /** The static variables of gen_clk. */
  datatype Gen = Gen(begin: bool, low: bool, time: nat, cur: nat, captureDone: bool)

  datatype Clocked = Clocked(g: Gen, tck: bool, captured: bool, done: bool)

  /** gen_clk with get_tdo set. */
  function GenClk(period: nat, nb: nat, g: Gen, t: nat, tck: bool, tdo: bool, captured: bool): Clocked {
    var time := if g.begin then t else g.time;
    var over := Elapsed(t, time) > period;
    if g.cur >= nb * period then Clocked(Gen(true, g.low, time, g.cur, false), tck, captured, true)
    else if g.low then
      Clocked(Gen(false, !over, if over then t else time, g.cur, false), false, captured, false)
    else
      Clocked(Gen(false, over, if over then t else time, g.cur + 1, true), true,
              if g.captureDone then captured else tdo, false)
  }

  function Restarted(g: Gen): Gen { g.(cur := 0, begin := true, low := true) }

  /** The static variables of do_scan_chain. */
  datatype Scan = Scan(i: nat, j: nat, start: bool, data: Octet, captured: bool)

  datatype Pins = Pins(tms: bool, tck: bool, tdi: bool)

  /** The arguments that stay the same over the calls of one scan. */
  datatype Chain = Chain(length: nat, nbBits: nat, out: Option<seq<Octet>>, flip: bool)

  datatype Tap = Tap(gen: Gen, scan: Scan, pins: Pins, bufIn: seq<Octet>)

  datatype Status = InProgress | Done

  datatype Called = Called(tap: Tap, status: Status)

  function Remainder(nbBits: nat): nat { nbBits % 8 }

  function BitsIn(c: Chain, i: nat): nat {
    if i == c.length - 1 then (if Remainder(c.nbBits) == 0 then 8 else Remainder(c.nbBits)) else 8
  }

  predicate Fits(c: Chain, bufIn: seq<Octet>) {
    |bufIn| >= c.length && (c.out.Some? ==> |c.out.value| >= c.length)
  }

  function OutByte(c: Chain, i: nat): Octet
    requires i < c.length && (c.out.Some? ==> |c.out.value| >= c.length)
  {
    if c.out.Some? then c.out.value[i] else Zero()
  }

  /** The first call of a byte. */
  function Load(c: Chain, p: Tap): (p': Tap)
    requires p.scan.i < c.length && Fits(c, p.bufIn)
    ensures |p'.bufIn| == |p.bufIn|
  {
    if p.scan.start then
      p.(scan := p.scan.(data := OutByte(c, p.scan.i), start := false), bufIn := p.bufIn[p.scan.i := Zero()])
    else p
  }

  function BitPins(c: Chain, s: Scan, p: Pins): Pins {
    var last := s.j + 1 == BitsIn(c, s.i) && s.i == c.length - 1;
    p.(tdi := s.data[0], tms := p.tms || (last && c.flip))
  }

  /** One call within a bit. */
  function BitCall(period: nat, c: Chain, p: Tap, t: nat, tdo: bool): (p': Tap)
    requires p.scan.i < |p.bufIn| && p.scan.j < 8
    ensures |p'.bufIn| == |p.bufIn|
  {
    var s, pins := p.scan, BitPins(c, p.scan, p.pins);
    var r := GenClk(period, 1, p.gen, t, pins.tck, tdo, s.captured);
    if r.done then
      Tap(Restarted(r.g), Scan(s.i, s.j + 1, s.start, s.data[1..] + [false], r.captured), pins.(tck := r.tck),
          p.bufIn[s.i := p.bufIn[s.i][s.j := r.captured]])
    else Tap(r.g, s.(captured := r.captured), pins.(tck := r.tck), p.bufIn)
  }

  function Call(period: nat, c: Chain, p: Tap, t: nat, tdo: bool): (r: Called)
    requires Fits(c, p.bufIn)
    ensures |r.tap.bufIn| == |p.bufIn|
  {
    if p.scan.i < c.length then
      var l := Load(c, p);
      if l.scan.j < BitsIn(c, l.scan.i) then Called(BitCall(period, c, l, t, tdo), InProgress)
      else Called(l.(scan := l.scan.(i := l.scan.i + 1, j := 0, start := true)), InProgress)
    else
      Called(p.(scan := p.scan.(i := 0, j := 0, start := true), pins := p.pins.(tdi := false, tms := false)), Done)
  }

  // ---------------------------------------------------------------- the imperative code

  class JtagServer {
    const period: nat
    var gen: Gen
    var scan: Scan
    var pins: Pins

    constructor (tckPeriod: nat)
      ensures period == tckPeriod
      ensures gen == Gen(true, true, 0, 0, false) && scan == Scan(0, 0, true, Zero(), false)
      ensures pins == Pins(false, false, false)
    {
      period := tckPeriod;
      gen := Gen(true, true, 0, 0, false);
      scan := Scan(0, 0, true, Zero(), false);
      pins := Pins(false, false, false);
    }

    function Snapshot(bufIn: array<Octet>): Tap
      reads this, bufIn
    {
      Tap(gen, scan, pins, bufIn[..])
    }

    method GenClkOnce(t: nat, nb: nat, tdo: bool) returns (done: bool)
      modifies this`gen, this`pins, this`scan
      ensures var r := GenClk(period, nb, old(gen), t, old(pins).tck, tdo, old(scan).captured);
              done == r.done && gen == r.g && pins == old(pins).(tck := r.tck) &&
              scan == old(scan).(captured := r.captured)
    {
      if gen.begin {
        gen := gen.(begin := false, time := t);
      }
      if gen.cur < nb * period {
        if gen.low {
          gen := gen.(captureDone := false);
          pins := pins.(tck := false);
          if Elapsed(t, gen.time) > period {
            gen := gen.(time := t, low := false);
          }
        } else {
          pins := pins.(tck := true);
          if !gen.captureDone {
            gen := gen.(captureDone := true);
            scan := scan.(captured := tdo);
          }
          if Elapsed(t, gen.time) > period {
            gen := gen.(time := t, low := true);
          }
          gen := gen.(cur := gen.cur + 1);
        }
        return false;
      }
      gen := gen.(captureDone := false, begin := true);
      return true;
    }

    method GenClkRestart()
      modifies this`gen
      ensures gen == Restarted(old(gen))
    {
      gen := gen.(cur := 0);
      gen := gen.(begin := true, low := true);
    }

    method SetPins(c: Chain)
      modifies this`pins
      ensures pins == BitPins(c, scan, old(pins))
    {
      pins := pins.(tdi := false);
      if scan.data[0] {
        pins := pins.(tdi := true);
      }
      if scan.j == BitsIn(c, scan.i) - 1 && scan.i == c.length - 1 && c.flip {
        pins := pins.(tms := true);
      }
    }

    method StoreBit(bufIn: array<Octet>)
      requires scan.i < bufIn.Length && scan.j < 8
      modifies this`scan, bufIn
      ensures scan == old(scan).(j := old(scan).j + 1, data := old(scan).data[1..] + [false])
      ensures bufIn[..] == old(bufIn[..])[scan.i := old(bufIn[scan.i])[old(scan).j := scan.captured]]
    {
      if scan.captured {
        bufIn[scan.i] := bufIn[scan.i][scan.j := true];
      } else {
        bufIn[scan.i] := bufIn[scan.i][scan.j := false];
      }
      scan := scan.(j := scan.j + 1, data := scan.data[1..] + [false]);
    }

    method DoBit(t: nat, c: Chain, bufIn: array<Octet>, tdo: bool)
      requires scan.i < bufIn.Length && scan.j < 8
      modifies this, bufIn
      ensures Snapshot(bufIn) == BitCall(period, c, old(Snapshot(bufIn)), t, tdo)
    {
      SetPins(c);
      var done := GenClkOnce(t, 1, tdo);
      if done {
        StoreBit(bufIn);
        GenClkRestart();
      }
    }

    method DoScanChain(t: nat, c: Chain, bufIn: array<Octet>, tdo: bool) returns (status: Status)
      requires Fits(c, bufIn[..])
      modifies this, bufIn
      ensures Called(Snapshot(bufIn), status) == Call(period, c, old(Snapshot(bufIn)), t, tdo)
    {
      if scan.i < c.length {
        if scan.start {
          bufIn[scan.i] := Zero();
          scan := scan.(data := if c.out.Some? then c.out.value[scan.i] else Zero(), start := false);
        }
        if scan.j < BitsIn(c, scan.i) {
          DoBit(t, c, bufIn, tdo);
          return InProgress;
        }
        scan := scan.(i := scan.i + 1, j := 0, start := true);
        return InProgress;
      }
      pins := pins.(tdi := false, tms := false);
      scan := scan.(i := 0, j := 0, start := true);
      return Done;
    }
  }

  // ---------------------------------------------------------------- what the scan has done

  /** TDI, TMS and TDO at each rising edge of TCK. */
  datatype Log = Log(tdi: seq<bool>, tms: seq<bool>, tdo: seq<bool>)

  datatype System = System(tap: Tap, log: Log, status: Status)

  function Observe(l: Log, before: Pins, after: Pins, tdo: bool): Log {
    if !before.tck && after.tck then Log(l.tdi + [after.tdi], l.tms + [after.tms], l.tdo + [tdo]) else l
  }

  function Tick(period: nat, c: Chain, s: System, t: nat, tdo: bool): (s': System)
    requires Fits(c, s.tap.bufIn)
    ensures |s'.tap.bufIn| == |s.tap.bufIn|
  {
    var r := Call(period, c, s.tap, t, tdo);
    System(r.tap, Observe(s.log, s.tap.pins, r.tap.pins, tdo), r.status)
  }

  function Flat(bytes: seq<Octet>): seq<bool> {
    if bytes == [] then [] else Flat(bytes[..|bytes| - 1]) + bytes[|bytes| - 1]
  }

  function Repeat(b: bool, n: nat): (r: seq<bool>)
    ensures |r| == n
  {
    if n == 0 then [] else Repeat(b, n - 1) + [b]
  }

  lemma {:induction false} RepeatAll(b: bool, n: nat)
    ensures forall k :: 0 <= k < n ==> Repeat(b, n)[k] == b
  {
    if n > 0 {
      RepeatAll(b, n - 1);
    }
  }

  // ---------------------------------------------------------------- the clock of one bit

  /** The clock generator k calls after its restart, before the call at time t. The first
      period + 2 calls keep TCK low, the next period calls high, and one more ends the bit. */
  predicate GenAt(period: nat, g: Gen, t: nat, k: nat) {
    if k == 0 then g.begin && g.low && g.cur == 0
    else if k <= period + 1 then !g.begin && g.low && g.cur == 0 && t == g.time + k
    else
      && k <= 2 * period + 2 && !g.begin && !g.low
      && g.cur == k - (period + 2) && t == g.time + (k - period - 1)
      && g.captureDone == (k > period + 2)
  }

  lemma GenStep(period: nat, g: Gen, t: nat, k: nat, tck: bool, tdo: bool, captured: bool)
    requires period > 0 && GenAt(period, g, t, k)
    ensures var r := GenClk(period, 1, g, t, tck, tdo, captured);
            && r.done == (k == 2 * period + 2)
            && (if r.done then r.tck == tck && GenAt(period, Restarted(r.g), t + 1, 0)
                else r.tck == (k >= period + 2) && GenAt(period, r.g, t + 1, k + 1))
            && r.captured == (if k == period + 2 then tdo else captured)
  {
  }

  // ---------------------------------------------------------------- the invariant of a scan

  /** length is the number of bytes that nbBits bits take. */
  predicate Whole(c: Chain) {
    8 * c.length - 8 < c.nbBits <= 8 * c.length
  }

  lemma LastBits(c: Chain, i: nat)
    requires Whole(c) && i < c.length
    ensures BitsIn(c, i) == if i == c.length - 1 then c.nbBits - 8 * i else 8
    ensures 0 < BitsIn(c, i) <= 8
  {
  }

  /** The bits of the first i bytes sent, bit 0 of each byte first. */
  function SentBits(c: Chain, i: nat): (r: seq<bool>)
    requires i <= c.length && (c.out.Some? ==> |c.out.value| >= c.length)
    ensures |r| == 8 * i
  {
    if i == 0 then [] else SentBits(c, i - 1) + OutByte(c, i - 1)
  }

  predicate TdiInv(c: Chain, s: Scan, tdi: seq<bool>, high: bool)
    requires s.i < c.length && (c.out.Some? ==> |c.out.value| >= c.length)
  {
    && s.j + (if high then 1 else 0) <= 8
    && s.data[..8 - s.j] == OutByte(c, s.i)[s.j..]
    && tdi == SentBits(c, s.i) + OutByte(c, s.i)[..s.j + (if high then 1 else 0)]
  }

  predicate TdoInv(bufIn: seq<Octet>, s: Scan, tdo: seq<bool>, high: bool)
    requires s.i < |bufIn|
  {
    && s.j <= 8
    && tdo == Flat(bufIn[..s.i]) + bufIn[s.i][..s.j] + (if high then [s.captured] else [])
    && forall x :: s.j <= x < 8 ==> !bufIn[s.i][x]
  }

  predicate ClockInv(period: nat, g: Gen, tck: bool, t: nat, k: nat) {
    GenAt(period, g, t, k) && (k > 0 ==> tck == (k > period + 2))
  }

  /** Within a byte, k calls into bit j. */
  predicate InByte(period: nat, c: Chain, p: Tap, l: Log, t: nat, k: nat) {
    && Fits(c, p.bufIn) && p.scan.i < c.length && !p.scan.start
    && p.scan.j <= BitsIn(c, p.scan.i) && (p.scan.j == BitsIn(c, p.scan.i) ==> k == 0)
    && ClockInv(period, p.gen, p.pins.tck, t, k)
    && TdiInv(c, p.scan, l.tdi, k > period + 2)
    && TdoInv(p.bufIn, p.scan, l.tdo, k > period + 2)
  }

  /** Before the first call of a byte. */
  predicate AtByte(period: nat, c: Chain, p: Tap, l: Log, t: nat) {
    && Fits(c, p.bufIn) && p.scan.i < c.length && p.scan.start && p.scan.j == 0
    && GenAt(period, p.gen, t, 0)
    && l.tdi == SentBits(c, p.scan.i) && l.tdo == Flat(p.bufIn[..p.scan.i])
  }

  /** After the last bit: exactly nbBits bits went out, and what came in fills the buffer, the
      bits of the last byte that were not needed being zero. */
  predicate AtEnd(c: Chain, p: Tap, l: Log) {
    && Fits(c, p.bufIn) && p.scan.i == c.length
    && c.nbBits <= 8 * c.length
    && l.tdi == SentBits(c, c.length)[..c.nbBits]
    && l.tdo + Repeat(false, 8 * c.length - c.nbBits) == Flat(p.bufIn[..c.length])
  }

  lemma LoadStartsByte(period: nat, c: Chain, p: Tap, l: Log, t: nat)
    requires AtByte(period, c, p, l, t)
    ensures InByte(period, c, Load(c, p), l, t, 0)
  {
    var p' := Load(c, p);
    assert p'.scan.data[..8] == OutByte(c, p.scan.i)[0..];
    assert l.tdi == SentBits(c, p.scan.i) + [];
    assert p'.bufIn[..p.scan.i] == p.bufIn[..p.scan.i];
    assert l.tdo == Flat(p'.bufIn[..p.scan.i]) + [] + [];
  }

  function After(period: nat, k: nat): nat { if k == 2 * period + 2 then 0 else k + 1 }

  lemma BitClock(period: nat, c: Chain, p: Tap, l: Log, t: nat, k: nat, tdo: bool)
    requires period > 0 && InByte(period, c, p, l, t, k) && p.scan.j < 8
    ensures var p' := BitCall(period, c, p, t, tdo);
            && ClockInv(period, p'.gen, p'.pins.tck, t + 1, After(period, k))
            && (!p.pins.tck && p'.pins.tck <==> k == period + 2)
            && p'.scan.i == p.scan.i && p'.scan.start == p.scan.start
            && p'.scan.j == (if k == 2 * period + 2 then p.scan.j + 1 else p.scan.j)
            && p'.scan.captured == (if k == period + 2 then tdo else p.scan.captured)
            && p'.pins.tdi == p.scan.data[0]
            && p'.scan.data == (if k == 2 * period + 2 then p.scan.data[1..] + [false] else p.scan.data)
            && p'.bufIn == (if k == 2 * period + 2
                            then p.bufIn[p.scan.i := p.bufIn[p.scan.i][p.scan.j := p.scan.captured]] else p.bufIn)
  {
    GenStep(period, p.gen, t, k, p.pins.tck, tdo, p.scan.captured);
  }

  lemma RisingTdi(c: Chain, s: Scan, tdi: seq<bool>)
    requires s.i < c.length && (c.out.Some? ==> |c.out.value| >= c.length)
    requires s.j < 8 && TdiInv(c, s, tdi, false)
    ensures TdiInv(c, s, tdi + [s.data[0]], true)
  {
    var b := OutByte(c, s.i);
    assert s.data[0] == s.data[..8 - s.j][0] == b[s.j];
    assert b[..s.j] + [b[s.j]] == b[..s.j + 1];
    assert tdi + [s.data[0]] == SentBits(c, s.i) + (b[..s.j] + [b[s.j]]);
  }

  lemma NextBitTdi(c: Chain, s: Scan, s': Scan, tdi: seq<bool>)
    requires s.i < c.length && (c.out.Some? ==> |c.out.value| >= c.length)
    requires s.j < 8 && TdiInv(c, s, tdi, true)
    requires s'.i == s.i && s'.j == s.j + 1 && s'.data == s.data[1..] + [false]
    ensures TdiInv(c, s', tdi, false)
  {
    ShiftedTail(s.data, s.j);
  }

  lemma ShiftedTail(data: Octet, j: nat)
    requires j < 8
    ensures (data[1..] + [false])[..7 - j] == data[..8 - j][1..]
  {
  }

  lemma RisingTdo(bufIn: seq<Octet>, s: Scan, s': Scan, tdo: seq<bool>, bit: bool)
    requires s.i < |bufIn| && TdoInv(bufIn, s, tdo, false)
    requires s'.i == s.i && s'.j == s.j && s'.captured == bit
    ensures TdoInv(bufIn, s', tdo + [bit], true)
  {
    assert tdo + [bit] == Flat(bufIn[..s.i]) + bufIn[s.i][..s.j] + [bit];
  }

  lemma NextBitTdo(bufIn: seq<Octet>, s: Scan, s': Scan, tdo: seq<bool>)
    requires s.i < |bufIn| && s.j < 8 && TdoInv(bufIn, s, tdo, true)
    requires s'.i == s.i && s'.j == s.j + 1
    ensures TdoInv(bufIn[s.i := bufIn[s.i][s.j := s.captured]], s', tdo, false)
  {
    var b := bufIn[s.i][s.j := s.captured];
    var buf := bufIn[s.i := b];
    assert buf[..s.i] == bufIn[..s.i];
    assert b[..s.j + 1] == bufIn[s.i][..s.j] + [s.captured];
    assert tdo == Flat(bufIn[..s.i]) + (bufIn[s.i][..s.j] + [s.captured]) + [];
  }

  function BitLog(period: nat, c: Chain, p: Tap, l: Log, t: nat, tdo: bool): Log
    requires p.scan.i < |p.bufIn| && p.scan.j < 8
  {
    Observe(l, p.pins, BitCall(period, c, p, t, tdo).pins, tdo)
  }

  lemma BitKeeps(period: nat, c: Chain, p: Tap, l: Log, t: nat, k: nat, tdo: bool)
    requires period > 0 && Whole(c) && InByte(period, c, p, l, t, k) && p.scan.j < BitsIn(c, p.scan.i)
    ensures p.scan.j < 8
    ensures InByte(period, c, BitCall(period, c, p, t, tdo), BitLog(period, c, p, l, t, tdo), t + 1, After(period, k))
  {
    LastBits(c, p.scan.i);
    BitClock(period, c, p, l, t, k, tdo);
    var p' := BitCall(period, c, p, t, tdo);
    if k == period + 2 {
      RisingTdi(c, p.scan, l.tdi);
      RisingTdo(p.bufIn, p.scan, p'.scan, l.tdo, tdo);
    } else if k == 2 * period + 2 {
      NextBitTdi(c, p.scan, p'.scan, l.tdi);
      NextBitTdo(p.bufIn, p.scan, p'.scan, l.tdo);
    }
  }

  lemma {:induction false} FlatSnoc(bytes: seq<Octet>, n: nat)
    requires n < |bytes|
    ensures Flat(bytes[..n + 1]) == Flat(bytes[..n]) + bytes[n]
    ensures |Flat(bytes[..n])| == 8 * n
  {
    assert bytes[..n + 1][..n] == bytes[..n];
    if n > 0 {
      FlatSnoc(bytes, n - 1);
    }
  }

  lemma ZeroTail(b: Octet, n: nat)
    requires n <= 8 && forall x :: n <= x < 8 ==> !b[x]
    ensures b == b[..n] + Repeat(false, 8 - n)
  {
    RepeatAll(false, 8 - n);
  }

  function NextByte(p: Tap): Tap { p.(scan := p.scan.(i := p.scan.i + 1, j := 0, start := true)) }

  /** All bits of a byte are done: on to the next byte ... */
  lemma ByteEnds(period: nat, c: Chain, p: Tap, l: Log, t: nat)
    requires Whole(c) && InByte(period, c, p, l, t, 0) && p.scan.j == BitsIn(c, p.scan.i)
    requires p.scan.i + 1 < c.length
    ensures AtByte(period, c, NextByte(p), l, t + 1)
  {
    var i := p.scan.i;
    LastBits(c, i);
    FlatSnoc(p.bufIn, i);
    assert p.bufIn[i][..8] == p.bufIn[i] && OutByte(c, i)[..8] == OutByte(c, i);
    assert l.tdo == Flat(p.bufIn[..i]) + p.bufIn[i][..8] + [];
    assert SentBits(c, i + 1) == SentBits(c, i) + OutByte(c, i);
  }

  lemma LastByteTdo(bufIn: seq<Octet>, s: Scan, tdo: seq<bool>)
    requires s.i < |bufIn| && TdoInv(bufIn, s, tdo, false)
    ensures tdo + Repeat(false, 8 - s.j) == Flat(bufIn[..s.i + 1])
  {
    var pre, b, zeros := Flat(bufIn[..s.i]), bufIn[s.i], Repeat(false, 8 - s.j);
    ZeroTail(b, s.j);
    FlatSnoc(bufIn, s.i);
    assert tdo == pre + b[..s.j];
    assert pre + b[..s.j] + zeros == pre + (b[..s.j] + zeros);
  }

  lemma LastByteTdi(c: Chain, s: Scan, tdi: seq<bool>)
    requires s.i + 1 == c.length && (c.out.Some? ==> |c.out.value| >= c.length)
    requires TdiInv(c, s, tdi, false)
    ensures tdi == SentBits(c, c.length)[..8 * s.i + s.j]
  {
    var a, b := SentBits(c, s.i), OutByte(c, s.i);
    assert SentBits(c, c.length) == a + b;
    assert (a + b)[..|a| + s.j] == a + b[..s.j];
  }

  /** ... or to the end. */
  lemma LastByteEnds(period: nat, c: Chain, p: Tap, l: Log, t: nat)
    requires Whole(c) && InByte(period, c, p, l, t, 0) && p.scan.j == BitsIn(c, p.scan.i)
    requires p.scan.i + 1 == c.length
    ensures AtEnd(c, NextByte(p), l)
  {
    LastBits(c, p.scan.i);
    LastByteTdo(p.bufIn, p.scan, l.tdo);
    LastByteTdi(c, p.scan, l.tdi);
  }

  // ---------------------------------------------------------------- TMS

  /** The last bit has begun. */
  predicate LastBegun(c: Chain, s: Scan, k: nat) {
    s.i >= c.length ||
    (s.i == c.length - 1 && !s.start &&
     (s.j == BitsIn(c, s.i) || (s.j + 1 == BitsIn(c, s.i) && k > 0)))
  }

  predicate TmsInv(c: Chain, p: Tap, l: Log, k: nat, tms0: bool) {
    && |l.tms| == |l.tdi|
    && (forall m :: 0 <= m < |l.tms| ==> l.tms[m] == (tms0 || (c.flip && m == c.nbBits - 1)))
    && p.pins.tms == (tms0 || (c.flip && LastBegun(c, p.scan, k)))
  }

  lemma BitTms(period: nat, c: Chain, p: Tap, l: Log, t: nat, k: nat, tdo: bool, tms0: bool)
    requires period > 0 && Whole(c) && InByte(period, c, p, l, t, k) && p.scan.j < BitsIn(c, p.scan.i)
    requires TmsInv(c, p, l, k, tms0)
    ensures p.scan.j < 8
    ensures TmsInv(c, BitCall(period, c, p, t, tdo), BitLog(period, c, p, l, t, tdo), After(period, k), tms0)
  {
    LastBits(c, p.scan.i);
    BitClock(period, c, p, l, t, k, tdo);
    assert |l.tdi| == 8 * p.scan.i + p.scan.j + if k > period + 2 then 1 else 0;
  }

  lemma ByteTms(period: nat, c: Chain, p: Tap, l: Log, t: nat, tms0: bool)
    requires Whole(c) && InByte(period, c, p, l, t, 0) && p.scan.j == BitsIn(c, p.scan.i)
    requires TmsInv(c, p, l, 0, tms0)
    ensures TmsInv(c, NextByte(p), l, 0, tms0)
  {
    LastBits(c, p.scan.i);
  }

  lemma LoadTms(c: Chain, p: Tap, l: Log, tms0: bool)
    requires Whole(c) && Fits(c, p.bufIn) && p.scan.i < c.length && p.scan.start && p.scan.j == 0
    requires TmsInv(c, p, l, 0, tms0)
    ensures TmsInv(c, Load(c, p), l, 0, tms0)
  {
    LastBits(c, p.scan.i);
  }

  // ---------------------------------------------------------------- whole scans

  predicate Inv(period: nat, c: Chain, s: System, t: nat, k: nat, tms0: bool) {
    && Whole(c) && Fits(c, s.tap.bufIn) && s.status == InProgress && k <= 2 * period + 2
    && TmsInv(c, s.tap, s.log, k, tms0)
    && (if s.tap.scan.i >= c.length then AtEnd(c, s.tap, s.log)
        else if s.tap.scan.start then k == 0 && AtByte(period, c, s.tap, s.log, t)
        else InByte(period, c, s.tap, s.log, t, k))
  }

  predicate BitsDone(c: Chain, s: Scan) { !s.start && s.j >= BitsIn(c, s.i) }

  function NextPhase(period: nat, c: Chain, s: Scan, k: nat): nat {
    if BitsDone(c, s) then 0 else After(period, k)
  }

  lemma TickKeepsInv(period: nat, c: Chain, s: System, t: nat, k: nat, tdo: bool, tms0: bool)
    requires period > 0 && Inv(period, c, s, t, k, tms0) && s.tap.scan.i < c.length
    ensures Inv(period, c, Tick(period, c, s, t, tdo), t + 1, NextPhase(period, c, s.tap.scan, k), tms0)
  {
    LastBits(c, s.tap.scan.i);
    var p := Load(c, s.tap);
    if s.tap.scan.start {
      LoadStartsByte(period, c, s.tap, s.log, t);
      LoadTms(c, s.tap, s.log, tms0);
    }
    if BitsDone(c, s.tap.scan) {
      if p.scan.i + 1 < c.length {
        ByteEnds(period, c, p, s.log, t);
      } else {
        LastByteEnds(period, c, p, s.log, t);
      }
      ByteTms(period, c, p, s.log, t, tms0);
    } else {
      BitKeeps(period, c, p, s.log, t, k, tdo);
      BitTms(period, c, p, s.log, t, k, tdo, tms0);
    }
  }

  /** n calls in successive time steps from t on. */
  function RunFor(period: nat, c: Chain, s: System, t: nat, tdo: nat -> bool, n: nat): (s': System)
    requires Fits(c, s.tap.bufIn)
    ensures |s'.tap.bufIn| == |s.tap.bufIn|
    decreases n
  {
    if n == 0 then s else RunFor(period, c, Tick(period, c, s, t, tdo(t)), t + 1, tdo, n - 1)
  }

  /** The scan's result, bit by bit: edge m carries bit m % 8 of byte m / 8 of the buffer sent, or
      zero without a buffer, and what it sampled is that bit of the buffer received, whose other
      bits are zero. */
  predicate Scanned(c: Chain, s: System, tms0: bool) {
    && Fits(c, s.tap.bufIn) && c.nbBits <= 8 * c.length
    && s.status == Done
    && |s.log.tdi| == |s.log.tms| == |s.log.tdo| == c.nbBits
    && (forall m :: 0 <= m < c.nbBits ==> s.log.tdi[m] == (c.out.Some? && c.out.value[m / 8][m % 8]))
    && (forall m :: 0 <= m < c.nbBits ==> s.log.tms[m] == (tms0 || (c.flip && m == c.nbBits - 1)))
    && (forall m :: 0 <= m < c.nbBits ==> s.tap.bufIn[m / 8][m % 8] == s.log.tdo[m])
    && (forall m :: c.nbBits <= m < 8 * c.length ==> !s.tap.bufIn[m / 8][m % 8])
    && !s.tap.pins.tms && !s.tap.pins.tdi
    && s.tap.scan.i == 0 && s.tap.scan.j == 0 && s.tap.scan.start
  }

  /** Bit r of byte q is bit 8 * q + r of the bytes. */
  lemma {:induction false} SentBitAt(c: Chain, i: nat, q: nat, r: nat)
    requires i <= c.length && (c.out.Some? ==> |c.out.value| >= c.length) && q < i && r < 8
    ensures SentBits(c, i)[8 * q + r] == (c.out.Some? && c.out.value[q][r])
  {
    if q < i - 1 {
      SentBitAt(c, i - 1, q, r);
    }
  }

  lemma {:induction false} FlatBitAt(bytes: seq<Octet>, q: nat, r: nat)
    requires q < |bytes| && r < 8
    ensures 8 * q + r < |Flat(bytes)| && Flat(bytes)[8 * q + r] == bytes[q][r]
  {
    var front := bytes[..|bytes| - 1];
    FlatLength(front);
    if q < |front| {
      FlatBitAt(front, q, r);
    }
  }

  lemma {:induction false} RepeatAt(b: bool, n: nat, k: nat)
    requires k < n
    ensures Repeat(b, n)[k] == b
  {
    if k < n - 1 {
      RepeatAt(b, n - 1, k);
    }
  }

  lemma PaddedAt(a: seq<bool>, n: nat, k: nat)
    requires k < |a| + n
    ensures (a + Repeat(false, n))[k] == (k < |a| && a[k])
  {
    if k >= |a| {
      RepeatAt(false, n, k - |a|);
    }
  }

  lemma SampledBit(bytes: seq<Octet>, tdo: seq<bool>, n: nat, q: nat, r: nat)
    requires q < |bytes| && r < 8 && |tdo| + n == 8 * |bytes|
    requires tdo + Repeat(false, n) == Flat(bytes)
    ensures bytes[q][r] == (8 * q + r < |tdo| && tdo[8 * q + r])
  {
    FlatBitAt(bytes, q, r);
    PaddedAt(tdo, n, 8 * q + r);
  }

  lemma Split8(m: nat, length: nat)
    requires m < 8 * length
    ensures m == 8 * (m / 8) + m % 8 && m / 8 < length
  {
  }

  lemma SentBitsOut(c: Chain, tdi: seq<bool>)
    requires (c.out.Some? ==> |c.out.value| >= c.length) && c.nbBits <= 8 * c.length
    requires tdi == SentBits(c, c.length)[..c.nbBits]
    ensures forall m :: 0 <= m < c.nbBits ==>
              m / 8 < c.length && tdi[m] == (c.out.Some? && c.out.value[m / 8][m % 8])
  {
    forall m | 0 <= m < c.nbBits
      ensures m / 8 < c.length && tdi[m] == (c.out.Some? && c.out.value[m / 8][m % 8])
    {
      Split8(m, c.length);
      SentBitAt(c, c.length, m / 8, m % 8);
    }
  }

  lemma SampledBitsIn(bytes: seq<Octet>, tdo: seq<bool>, n: nat)
    requires |tdo| + n == 8 * |bytes| && tdo + Repeat(false, n) == Flat(bytes)
    ensures forall m :: 0 <= m < 8 * |bytes| ==> m / 8 < |bytes| && bytes[m / 8][m % 8] == (m < |tdo| && tdo[m])
  {
    forall m | 0 <= m < 8 * |bytes|
      ensures m / 8 < |bytes| && bytes[m / 8][m % 8] == (m < |tdo| && tdo[m])
    {
      SampledAt(bytes, tdo, n, m);
    }
  }

  lemma SampledAt(bytes: seq<Octet>, tdo: seq<bool>, n: nat, m: nat)
    requires |tdo| + n == 8 * |bytes| && tdo + Repeat(false, n) == Flat(bytes) && m < 8 * |bytes|
    ensures m / 8 < |bytes| && bytes[m / 8][m % 8] == (m < |tdo| && tdo[m])
  {
    Split8(m, |bytes|);
    SampledBit(bytes, tdo, n, m / 8, m % 8);
  }

  lemma LastTick(period: nat, c: Chain, s: System, t: nat, k: nat, tdo: bool, tms0: bool)
    requires Inv(period, c, s, t, k, tms0) && s.tap.scan.i >= c.length
    ensures Scanned(c, Tick(period, c, s, t, tdo), tms0)
  {
    FlatLength(s.tap.bufIn[..c.length]);
    SentBitsOut(c, s.log.tdi);
    SampledBitsIn(s.tap.bufIn[..c.length], s.log.tdo, 8 * c.length - c.nbBits);
  }

  lemma {:induction false} FlatLength(bytes: seq<Octet>)
    ensures |Flat(bytes)| == 8 * |bytes|
  {
    if bytes != [] {
      FlatLength(bytes[..|bytes| - 1]);
    }
  }

  /** The first n calls leave the scan in progress. */
  predicate Busy(period: nat, c: Chain, s: System, t: nat, tdo: nat -> bool, n: nat)
    requires Fits(c, s.tap.bufIn)
    decreases n
  {
    n == 0 || (s.status == InProgress && Busy(period, c, Tick(period, c, s, t, tdo(t)), t + 1, tdo, n - 1))
  }

  /** The scan ends with its n-th call. */
  predicate Completes(period: nat, c: Chain, s: System, t: nat, tdo: nat -> bool, n: nat, tms0: bool)
    requires Fits(c, s.tap.bufIn)
  {
    Busy(period, c, s, t, tdo, n) && Scanned(c, RunFor(period, c, s, t, tdo, n), tms0)
  }

  lemma {:induction false} ScanFrom(
      period: nat, c: Chain, s: System, t: nat, k: nat, tdo: nat -> bool, tms0: bool) returns (n: nat)
    requires period > 0 && Inv(period, c, s, t, k, tms0)
    ensures Completes(period, c, s, t, tdo, n, tms0)
    decreases c.length - s.tap.scan.i, 9 - s.tap.scan.j, 2 * period + 3 - k
  {
    var s' := Tick(period, c, s, t, tdo(t));
    if s.tap.scan.i >= c.length {
      LastTick(period, c, s, t, k, tdo(t), tms0);
      n := 0;
      assert Completes(period, c, s', t + 1, tdo, 0, tms0);
    } else {
      TickKeepsInv(period, c, s, t, k, tdo(t), tms0);
      Measure(period, c, s, t, k, tdo(t), tms0);
      n := ScanFrom(period, c, s', t + 1, NextPhase(period, c, s.tap.scan, k), tdo, tms0);
    }
    OneLonger(period, c, s, t, tdo, n, tms0);
    n := n + 1;
  }

  lemma OneLonger(period: nat, c: Chain, s: System, t: nat, tdo: nat -> bool, n: nat, tms0: bool)
    requires Fits(c, s.tap.bufIn) && s.status == InProgress
    requires Completes(period, c, Tick(period, c, s, t, tdo(t)), t + 1, tdo, n, tms0)
    ensures Completes(period, c, s, t, tdo, n + 1, tms0)
  {
  }

  /** Each call moves on: to the next byte, the next bit, or the next phase of the clock. */
  lemma Measure(period: nat, c: Chain, s: System, t: nat, k: nat, tdo: bool, tms0: bool)
    requires period > 0 && Inv(period, c, s, t, k, tms0) && s.tap.scan.i < c.length
    ensures var a, b := s.tap.scan, Tick(period, c, s, t, tdo).tap.scan;
            var k' := NextPhase(period, c, a, k);
            || (b.i == a.i + 1 && b.i <= c.length)
            || (b.i == a.i && b.j == a.j + 1 && b.j <= 8)
            || (b.i == a.i && b.j == a.j && k < k' <= 2 * period + 2)
  {
    LastBits(c, s.tap.scan.i);
    var p := Load(c, s.tap);
    if s.tap.scan.start {
      LoadStartsByte(period, c, s.tap, s.log, t);
    }
    if !BitsDone(c, s.tap.scan) {
      BitClock(period, c, p, s.log, t, k, tdo);
    }
  }

  /** A scan begins with the loop and the clock generator reset and an empty log. */
  predicate Begins(c: Chain, s: System) {
    && Fits(c, s.tap.bufIn) && s.status == InProgress && s.log == Log([], [], [])
    && s.tap.scan.i == 0 && s.tap.scan.j == 0 && s.tap.scan.start
    && s.tap.gen.begin && s.tap.gen.low && s.tap.gen.cur == 0
  }

  /** A scan ends after some number of calls, having clocked each bit once. */
  lemma ScanCompletes(period: nat, c: Chain, s: System, t: nat, tdo: nat -> bool) returns (n: nat)
    requires period > 0 && Whole(c) && Begins(c, s)
    ensures Completes(period, c, s, t, tdo, n, s.tap.pins.tms)
  {
    assert s.tap.bufIn[..0] == [];
    if c.length == 0 {
      var s' := Tick(period, c, s, t, tdo(t));
      assert Completes(period, c, s', t + 1, tdo, 0, s.tap.pins.tms);
      OneLonger(period, c, s, t, tdo, 0, s.tap.pins.tms);
      n := 1;
    } else {
      LastBits(c, 0);
      n := ScanFrom(period, c, s, t, 0, tdo, s.tap.pins.tms);
    }
  }

  /** With a zero clock period no call ever moves TCK. */
  lemma ZeroPeriodTick(c: Chain, s: System, t: nat, tdo: bool)
    requires Fits(c, s.tap.bufIn)
    ensures Tick(0, c, s, t, tdo).log == s.log
  {
  }

  lemma {:induction false} ZeroPeriodRun(c: Chain, s: System, t: nat, tdo: nat -> bool, n: nat)
    requires Fits(c, s.tap.bufIn)
    ensures RunFor(0, c, s, t, tdo, n).log == s.log
    decreases n
  {
    if n > 0 {
      var s' := Tick(0, c, s, t, tdo(t));
      ZeroPeriodTick(c, s, t, tdo(t));
      ZeroPeriodRun(c, s', t + 1, tdo, n - 1);
    }
  }

  /** Where a scan with a zero period can be: each call ends a bit, a byte or the scan. */
  predicate ZeroInv(c: Chain, s: System) {
    && Whole(c) && Fits(c, s.tap.bufIn) && s.status == InProgress
    && (s.tap.scan.start ==> s.tap.scan.j == 0)
    && (s.tap.scan.i < c.length ==> s.tap.scan.j <= BitsIn(c, s.tap.scan.i))
  }

  lemma ZeroPeriodMoves(c: Chain, s: System, t: nat, tdo: bool)
    requires ZeroInv(c, s) && s.tap.scan.i < c.length
    ensures ZeroInv(c, Tick(0, c, s, t, tdo))
    ensures var a, b := s.tap.scan, Tick(0, c, s, t, tdo).tap.scan;
            (b.i == a.i + 1 && b.i <= c.length) || (b.i == a.i && b.j == a.j + 1 && b.j <= 8)
  {
    LastBits(c, s.tap.scan.i);
    if s.tap.scan.i + 1 < c.length {
      LastBits(c, s.tap.scan.i + 1);
    }
  }

  lemma {:induction false} ZeroPeriodEnds(c: Chain, s: System, t: nat, tdo: nat -> bool) returns (n: nat)
    requires ZeroInv(c, s)
    ensures Busy(0, c, s, t, tdo, n) && RunFor(0, c, s, t, tdo, n).status == Done
    decreases c.length - s.tap.scan.i, 9 - s.tap.scan.j
  {
    var s' := Tick(0, c, s, t, tdo(t));
    if s.tap.scan.i >= c.length {
      n := 0;
      assert RunFor(0, c, s', t + 1, tdo, n) == s' && Busy(0, c, s', t + 1, tdo, n);
    } else {
      ZeroPeriodMoves(c, s, t, tdo(t));
      n := ZeroPeriodEnds(c, s', t + 1, tdo);
    }
    assert RunFor(0, c, s, t, tdo, n + 1) == RunFor(0, c, s', t + 1, tdo, n);
    n := n + 1;
  }

  /** With a zero clock period a scan ends all the same, without a single clock. */
  lemma ZeroPeriodScan(c: Chain, s: System, t: nat, tdo: nat -> bool) returns (n: nat)
    requires Whole(c) && Begins(c, s)
    ensures Busy(0, c, s, t, tdo, n) && RunFor(0, c, s, t, tdo, n).status == Done
    ensures RunFor(0, c, s, t, tdo, n).log == Log([], [], [])
  {
    n := ZeroPeriodEnds(c, s, t, tdo);
    ZeroPeriodRun(c, s, t, tdo, n);
  }

  /** The bits are clocked if and only if the clock has a period. */
  lemma PeriodNeeded(period: nat, c: Chain, s: System, t: nat, tdo: nat -> bool)
    requires Whole(c) && Begins(c, s) && c.nbBits > 0
    ensures (exists n: nat :: Completes(period, c, s, t, tdo, n, s.tap.pins.tms)) <==> period > 0
  {
    if period > 0 {
      var n := ScanCompletes(period, c, s, t, tdo);
    } else {
      forall n: nat ensures !Completes(period, c, s, t, tdo, n, s.tap.pins.tms) {
        ZeroPeriodRun(c, s, t, tdo, n);
        assert |RunFor(period, c, s, t, tdo, n).log.tms| == 0;
      }
    }
  }
}
