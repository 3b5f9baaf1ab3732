/** The pipe protocol between the RSP server (rsp-rtl_sim.c) and the simulator side (jp_vpi.c
    and the command loop of vpi_debug_module.v): two processes, a command pipe and a data pipe
    in each direction. Writes may be split anywhere and interleave freely with the other side;
    a read of up to four bytes waits until all of them are there. */
module DebugPipes {

  import opened Common

  type Bytes = seq<Byte>
  type Word = Uint32

  // ---------------------------------------------------------------- words on a pipe

  function WordBytes(w: Word): (b: Bytes)
    ensures |b| == 4
  {
    [w % 256, w / 256 % 256, w / 256 / 256 % 256, w / 256 / 256 / 256]
  }

  function WordOf(b: Bytes): Word
    requires |b| == 4
  {
    var b0: int, b1: int, b2: int, b3: int := b[0], b[1], b[2], b[3];
    b0 + 256 * (b1 + 256 * (b2 + 256 * b3))
  }

  lemma WordRoundTrip(w: Word)
    ensures WordOf(WordBytes(w)) == w
  {
  }

  // ---------------------------------------------------------------- requests

  /** What one dbg_ function asks of the simulator; block data in bytes. */
  datatype Request =
    | SetIr(instr: Word)
    | SetDebugChain(chain: Word)
    | CpuCtrlWr(ctrl: Word)
    | CpuCtrlRd
    | CpuWrReg(adr: Word, data: Bytes)
    | CpuRdReg(adr: Word, len: Word)
    | WbWr(adr: Word, size: Word, value: Word)
    | WbRd32(adr: Word)
    | WbBlockWr32(adr: Word, data: Bytes)
    | WbBlockRd32(adr: Word, len: Word)
    | ResetTap
    | ReadJtagId
    | WbRd8(adr: Word)

  function Cmd(r: Request): Byte {
    match r
    case SetIr(_) => 0x1
    case SetDebugChain(_) => 0x2
    case CpuCtrlWr(_) => 0x3
    case CpuCtrlRd => 0x4
    case CpuWrReg(_, _) => 0x5
    case CpuRdReg(_, _) => 0x6
    case WbWr(_, _, _) => 0x7
    case WbRd32(_) => 0x8
    case WbBlockWr32(_, _) => 0x9
    case WbBlockRd32(_, _) => 0xa
    case ResetTap => 0xb
    case ReadJtagId => 0xc
    case WbRd8(_) => 0xe
  }

  /** The length of data the server sends is an int. */
  predicate Sized(r: Request) {
    (r.CpuWrReg? || r.WbBlockWr32?) ==> |r.data| < 0x8000_0000
  }

  /** A length to read, which goes out as it is, as the int the receive loop counts up to: one
      with its top bit set is negative, and the loop reads nothing. */
  function AsCount(n: Word): nat { if n < 0x8000_0000 then n else 0 }

  type Call = r: Request | Sized(r) witness CpuCtrlRd

  /** Bytes the server writes to the simulator after the command was acknowledged. */
  function Sent(r: Call): Bytes {
    match r
    case SetIr(v) => WordBytes(v)
    case SetDebugChain(v) => WordBytes(v)
    case CpuCtrlWr(v) => WordBytes(v)
    case CpuWrReg(a, d) => WordBytes(a) + WordBytes(|d|) + d
    case CpuRdReg(a, n) => WordBytes(a) + WordBytes(n)
    case WbWr(a, s, v) => WordBytes(a) + WordBytes(s) + WordBytes(v)
    case WbRd32(a) => WordBytes(a)
    case WbBlockWr32(a, d) => WordBytes(a) + WordBytes(|d|) + d
    case WbBlockRd32(a, n) => WordBytes(a) + WordBytes(n)
    case WbRd8(a) => WordBytes(a)
    case _ => []
  }

  /** Bytes of data the server waits for before the response byte. */
  function ReplyLen(r: Request): nat {
    match r
    case CpuCtrlRd => 4
    case CpuRdReg(_, n) => AsCount(n)
    case WbRd32(_) => 4
    case WbBlockRd32(_, n) => AsCount(n)
    case ReadJtagId => 4
    case WbRd8(_) => 1
    case _ => 0
  }

  // ---------------------------------------------------------------- the simulator's parser

  /** Words read before any block data: address, length, size, data or value. */
  function FixedWords(cmd: Byte): nat {
    match cmd
    case 0x1 => 1
    case 0x2 => 1
    case 0x3 => 1
    case 0x5 => 2
    case 0x6 => 2
    case 0x7 => 3
    case 0x8 => 1
    case 0x9 => 2
    case 0xa => 2
    case 0xe => 1
    case _ => 0
  }

  predicate TakesBlock(cmd: Byte) { cmd == 0x5 || cmd == 0x9 }

  predicate GivesBlock(cmd: Byte) { cmd == 0x6 || cmd == 0xa }

  /** block_cmd_length once address and length have been read. */
  function BlockLength(got: Bytes): Word
    requires |got| >= 8
  {
    WordOf(got[4..8])
  }

  /** Size of the simulator's next read after words whole words and got in all; zero when it
      reads no more. A block that does not fit data_storage is given up without reading. */
  function NextRead(cmd: Byte, got: Bytes, words: nat): nat
    requires TakesBlock(cmd) && words >= 2 ==> |got| >= 8
  {
    if words < FixedWords(cmd) then 4
    else if !TakesBlock(cmd) then 0
    else
      var n := BlockLength(got);
      if n / 4 > STORAGE_WORDS then 0
      else if words < 2 + n / 4 then 4
      else if |got| < 8 + n then n % 4
      else 0
  }

  /** Bytes of data the simulator returns: return_command_data or return_command_block_data,
      which gives up on a block beyond data_storage. */
  function DataLen(cmd: Byte, got: Bytes): nat
    requires GivesBlock(cmd) ==> |got| >= 8
  {
    if GivesBlock(cmd) then (if BlockLength(got) / 4 > STORAGE_WORDS then 0 else BlockLength(got))
    else match cmd
      case 0x4 => 4
      case 0x8 => 4
      case 0xc => 4
      case 0xe => 1
      case _ => 0
  }

  /** The whole words of a block, which is what data_storage gets; a shorter tail is read off
      and dropped. */
  function WholeWords(d: Bytes): Bytes { d[..|d| / 4 * 4] }

  /** What the simulator is left with when it has read a call. */
  function Stored(r: Call): Call {
    match r
    case CpuWrReg(a, d) => CpuWrReg(a, WholeWords(d))
    case WbBlockWr32(a, d) => WbBlockWr32(a, WholeWords(d))
    case _ => r
  }

  /** Nothing of a call is dropped if and only if its block is made of whole words. */
  lemma StoredIffWholeWords(r: Call)
    ensures Stored(r) == r <==> (TakesBlock(Cmd(r)) ==> |r.data| % 4 == 0)
  {
    if TakesBlock(Cmd(r)) && |r.data| % 4 == 0 {
      assert WholeWords(r.data) == r.data;
    }
  }

  /** The request as the simulator understood it, each field in the role it was read in. */
  function Understood(cmd: Byte, got: Bytes): Request
    requires |got| >= 4 * FixedWords(cmd)
  {
    var w0 := if |got| >= 4 then WordOf(got[..4]) else 0;
    var w1 := if |got| >= 8 then WordOf(got[4..8]) else 0;
    match cmd
    case 0x1 => SetIr(w0)
    case 0x2 => SetDebugChain(w0)
    case 0x3 => CpuCtrlWr(w0)
    case 0x4 => CpuCtrlRd
    case 0x5 => CpuWrReg(w0, WholeWords(got[8..]))
    case 0x6 => CpuRdReg(w0, w1)
    case 0x7 => WbWr(w0, w1, WordOf(got[8..12]))
    case 0x8 => WbRd32(w0)
    case 0x9 => WbBlockWr32(w0, WholeWords(got[8..]))
    case 0xa => WbBlockRd32(w0, w1)
    case 0xb => ResetTap
    case 0xc => ReadJtagId
    case _ => WbRd8(w0)
  }

  /** The limit of data_storage, in whole words; a read whose length is negative to the server
      asks for nothing and gets nothing. */
  predicate Fits(r: Request)
  {
    match r
    case CpuWrReg(_, d) => |d| / 4 <= STORAGE_WORDS
    case WbBlockWr32(_, d) => |d| / 4 <= STORAGE_WORDS
    case CpuRdReg(_, n) => AsCount(n) / 4 <= STORAGE_WORDS
    case WbBlockRd32(_, n) => AsCount(n) / 4 <= STORAGE_WORDS
    case _ => true
  }

  lemma FieldsOf(a: Word, n: Word, d: Bytes)
    ensures (WordBytes(a) + WordBytes(n) + d)[..4] == WordBytes(a)
    ensures (WordBytes(a) + WordBytes(n) + d)[4..8] == WordBytes(n)
    ensures (WordBytes(a) + WordBytes(n) + d)[8..] == d
  {
  }

  /** Every field arrives in the role it was sent in. */
  lemma SentIsUnderstood(r: Call)
    ensures |Sent(r)| >= 4 * FixedWords(Cmd(r))
    ensures Understood(Cmd(r), Sent(r)) == Stored(r)
  {
    match r {
      case SetIr(v) => WordRoundTrip(v);
      case SetDebugChain(v) => WordRoundTrip(v);
      case CpuCtrlWr(v) => WordRoundTrip(v);
      case CpuWrReg(a, d) => FieldsOf(a, |d|, d); WordRoundTrip(a); WordRoundTrip(|d|);
      case WbBlockWr32(a, d) => FieldsOf(a, |d|, d); WordRoundTrip(a); WordRoundTrip(|d|);
      case CpuRdReg(a, n) => FieldsOf(a, n, []); WordRoundTrip(a); WordRoundTrip(n);
        assert Sent(r) + [] == Sent(r);
      case WbBlockRd32(a, n) => FieldsOf(a, n, []); WordRoundTrip(a); WordRoundTrip(n);
        assert Sent(r) + [] == Sent(r);
      case WbWr(a, s, v) => FieldsOf(a, s, WordBytes(v)); WordRoundTrip(a); WordRoundTrip(s); WordRoundTrip(v);
        assert Sent(r)[8..12] == WordBytes(v);
      case WbRd32(a) => WordRoundTrip(a);
      case WbRd8(a) => WordRoundTrip(a);
      case _ =>
    }
  }

  /** The largest blocks that fit: 4096 words, and a tail shorter than a word. */
  lemma LargestBlocks(a: Word, d: Bytes, n: Word)
    ensures Fits(WbBlockWr32(a, d)) <==> |d| < 4 * 4097
    ensures Fits(CpuWrReg(a, d)) <==> |d| < 4 * 4097
    ensures Fits(WbBlockRd32(a, n)) <==> n < 4 * 4097 || n >= 0x8000_0000
    ensures Fits(CpuRdReg(a, n)) <==> n < 4 * 4097 || n >= 0x8000_0000
  {
  }

  /** How much the simulator answers to a call that fits: a word, a byte, a block or nothing. */
  lemma ReplySizes(r: Call)
    requires Fits(r)
    ensures |Sent(r)| >= 4 * FixedWords(Cmd(r))
    ensures DataLen(Cmd(r), Sent(r)) ==
            if r.CpuCtrlRd? || r.WbRd32? || r.ReadJtagId? then 4
            else if r.WbRd8? then 1
            else if r.CpuRdReg? || r.WbBlockRd32? then (if r.len < 0x8000_0000 then r.len else 0)
            else 0
  {
    ReplyFitsCall(r);
  }

  /** Words go over a pipe low byte first. */
  lemma LowByteFirst()
    ensures WordBytes(0x04030201) == [0x01, 0x02, 0x03, 0x04]
  {
  }

  /** What is on the pipe for each call, word by word. */
  lemma FieldsOnThePipe(r: Call)
    ensures var b := Sent(r);
            match r
            case SetIr(v) => |b| == 4 && WordOf(b) == v
            case SetDebugChain(v) => |b| == 4 && WordOf(b) == v
            case CpuCtrlWr(v) => |b| == 4 && WordOf(b) == v
            case CpuWrReg(a, d) => |b| >= 8 && WordOf(b[..4]) == a && WordOf(b[4..8]) == |d| && b[8..] == d
            case WbBlockWr32(a, d) => |b| >= 8 && WordOf(b[..4]) == a && WordOf(b[4..8]) == |d| && b[8..] == d
            case CpuRdReg(a, n) => |b| == 8 && WordOf(b[..4]) == a && WordOf(b[4..]) == n
            case WbBlockRd32(a, n) => |b| == 8 && WordOf(b[..4]) == a && WordOf(b[4..]) == n
            case WbWr(a, s, v) => |b| == 12 && WordOf(b[..4]) == a && WordOf(b[4..8]) == s && WordOf(b[8..]) == v
            case WbRd32(a) => |b| == 4 && WordOf(b) == a
            case WbRd8(a) => |b| == 4 && WordOf(b) == a
            case _ => b == []
  {
    match r {
      case CpuWrReg(a, d) => FieldsOf(a, |d|, d); WordRoundTrip(a); WordRoundTrip(|d|);
      case WbBlockWr32(a, d) => FieldsOf(a, |d|, d); WordRoundTrip(a); WordRoundTrip(|d|);
      case CpuRdReg(a, n) => TwoFields(a, n); WordRoundTrip(a); WordRoundTrip(n);
      case WbBlockRd32(a, n) => TwoFields(a, n); WordRoundTrip(a); WordRoundTrip(n);
      case WbWr(a, s, v) => FieldsOf(a, s, WordBytes(v)); WordRoundTrip(a); WordRoundTrip(s); WordRoundTrip(v);
      case SetIr(v) => WordRoundTrip(v);
      case SetDebugChain(v) => WordRoundTrip(v);
      case CpuCtrlWr(v) => WordRoundTrip(v);
      case WbRd32(a) => WordRoundTrip(a);
      case WbRd8(a) => WordRoundTrip(a);
      case _ =>
    }
  }

  lemma TwoFields(a: Word, n: Word)
    ensures (WordBytes(a) + WordBytes(n))[..4] == WordBytes(a) && (WordBytes(a) + WordBytes(n))[4..] == WordBytes(n)
  {
  }

  // ---------------------------------------------------------------- get_block_data_from_vpi

  /** What the caller's buffer holds after reads that delivered these chunks: the source passes
      the same start address to every read. */
  function Landed(buffer: Bytes, chunks: seq<Bytes>): Bytes {
    if chunks == [] then buffer
    else
      var b := Landed(buffer, chunks[..|chunks| - 1]);
      var c := chunks[|chunks| - 1];
      if |c| <= |b| then c + b[|c|..] else b
  }

  function Joined(chunks: seq<Bytes>): Bytes {
    if chunks == [] then [] else Joined(chunks[..|chunks| - 1]) + chunks[|chunks| - 1]
  }

  lemma JoinedSnoc(chunks: seq<Bytes>, c: Bytes)
    ensures Joined(chunks + [c]) == Joined(chunks) + c
  {
    assert (chunks + [c])[..|chunks|] == chunks;
  }

  lemma {:induction false} JoinedGrows(chunks: seq<Bytes>, k: nat)
    requires k <= |chunks|
    ensures |Joined(chunks[..k])| <= |Joined(chunks)|
    ensures k < |chunks| ==> Joined(chunks[..k + 1]) == Joined(chunks[..k]) + chunks[k]
    decreases |chunks| - k
  {
    if k < |chunks| {
      assert chunks[..k + 1][..k] == chunks[..k];
      JoinedGrows(chunks, k + 1);
    } else {
      assert chunks[..k] == chunks;
    }
  }

  lemma {:induction false} JoinedLeaves(chunks: seq<Bytes>, k: nat)
    requires [] !in chunks && k <= |chunks|
    ensures |Joined(chunks[..k])| + (|chunks| - k) <= |Joined(chunks)|
    decreases |chunks| - k
  {
    if k < |chunks| {
      assert chunks[k] in chunks;
      JoinedGrows(chunks, k);
      JoinedLeaves(chunks, k + 1);
    } else {
      assert chunks[..k] == chunks;
    }
  }

  /** The receive loop of get_block_data_from_vpi; chunks are what successive reads return. */
  method GetBlockDataFromVpi(len: nat, chunks: seq<Bytes>, data: array<Byte>)
    requires |Joined(chunks)| == len <= data.Length && [] !in chunks
    modifies data
    ensures data[..] == Landed(old(data[..]), chunks)
  {
    var n, k := 0, 0;
    while n < len
      invariant k <= |chunks| && n == |Joined(chunks[..k])|
      invariant data[..] == Landed(old(data[..]), chunks[..k])
      decreases |chunks| - k
    {
      JoinedGrows(chunks, k);
      assert chunks[..|chunks|] == chunks && k < |chunks|;
      JoinedGrows(chunks, k + 1);
      var c, before := chunks[k], data[..];
      forall i | 0 <= i < |c| {
        data[i] := c[i];
      }
      assert data[..] == c + before[|c|..];
      assert chunks[..k + 1][..k] == chunks[..k];
      n := n + |c|;
      k := k + 1;
    }
    JoinedLeaves(chunks, k);
    assert chunks[..k] == chunks;
  }

  lemma {:induction false} NeverReached(buffer: Bytes, chunks: seq<Bytes>, i: nat)
    requires i < |buffer| && forall k :: 0 <= k < |chunks| ==> |chunks[k]| <= i
    ensures |Landed(buffer, chunks)| == |buffer| && Landed(buffer, chunks)[i] == buffer[i]
  {
    if chunks != [] {
      NeverReached(buffer, chunks[..|chunks| - 1], i);
    }
  }

  /** The caller gets its data, whatever its buffer held before, exactly if one read delivers
      all of it. */
  lemma BlockDataArrivesIffOneRead(chunks: seq<Bytes>)
    requires [] !in chunks
    ensures (forall buffer: Bytes :: |buffer| == |Joined(chunks)| ==> Landed(buffer, chunks) == Joined(chunks))
            <==> |chunks| <= 1
  {
    var n := |Joined(chunks)|;
    if |chunks| == 1 {
      assert chunks[..0] == [] && Joined(chunks) == Joined([]) + chunks[0];
    } else if |chunks| >= 2 {
      forall k | 0 <= k < |chunks|
        ensures 0 < |chunks[k]| <= n - 1
      {
        ChunkIsPart(chunks, k);
      }
      var wrong: Byte := if Joined(chunks)[n - 1] == 0 then 1 else 0;
      var buffer := seq(n, i => wrong);
      NeverReached(buffer, chunks, n - 1);
      assert Landed(buffer, chunks) != Joined(chunks);
    }
  }

  lemma ChunkIsPart(chunks: seq<Bytes>, k: nat)
    requires [] !in chunks && |chunks| >= 2 && k < |chunks|
    ensures 0 < |chunks[k]| < |Joined(chunks)|
  {
    assert chunks[k] in chunks;
    JoinedGrows(chunks, k);
    JoinedGrows(chunks, k + 1);
    if k > 0 {
      assert chunks[0] in chunks;
      JoinedGrows(chunks, 0);
      JoinedGrows(chunks[..k], 1);
      assert chunks[..k][..1] == chunks[..1];
    } else {
      assert chunks[1] in chunks;
      JoinedGrows(chunks, 1);
      JoinedGrows(chunks, 2);
    }
  }

  // ---------------------------------------------------------------- the two processes

  /** The server inside a dbg_ function: writing the command, waiting for its echo, writing the
      fields (left), then reading reply data and the response byte; chunks is what each read
      has delivered, so a buffer that held b holds Landed(b, chunks). */
  datatype Server =
    | Rest
    | Commanding(r: Call)
    | AwaitAck(r: Call)
    | Talking(r: Call, left: Bytes, chunks: seq<Bytes>)

  /** The simulator: polling, reading fields, or writing its reply and response byte. */
  datatype Simulator =
    | Polling
    | Reading(cmd: Byte, got: Bytes, words: nat)
    | Replying(out: Bytes)

  /** What the simulator carried out: the request as it understood it, and the data it gave. */
  datatype Execution = Execution(request: Request, reply: Bytes)

  /** The two sides and the three pipes; calls still to make, the reads that fetched the reply of
      each finished call, and what the simulator has carried out. */
  datatype System = System(
    srv: Server, sim: Simulator,
    command: Bytes, toVpi: Bytes, toRsp: Bytes,
    todo: seq<Call>, results: seq<seq<Bytes>>, executed: seq<Execution>)

  datatype Step =
    | SrvBegin
    | SrvCommand
    | SrvAck
    | SrvSend(n: nat)
    | SrvRecv(n: nat)
    | SrvResp
    | SimPoll
    | SimRead
    | SimExec(reply: Bytes)
    | SimWrite(n: nat)

  predicate CanParse(m: Simulator) {
    m.Reading? && |m.got| >= 4 * m.words
  }

  function Next(m: Simulator): nat
    requires CanParse(m)
  {
    NextRead(m.cmd, m.got, m.words)
  }

  /** A read of reply data: a word or a byte comes whole; for the rest of a block it returns what
      is in the pipe by then. */
  predicate CanReceive(r: Call, got: nat, n: nat) {
    got + n <= ReplyLen(r) && (!GivesBlock(Cmd(r)) ==> n == ReplyLen(r))
  }

  predicate Enabled(s: System, step: Step)
  {
    match step
    case SrvBegin => s.srv.Rest? && s.todo != []
    case SrvCommand => s.srv.Commanding?
    case SrvAck => s.srv.AwaitAck? && s.toRsp != []
    case SrvSend(n) => s.srv.Talking? && 0 < n <= |s.srv.left|
    case SrvRecv(n) =>
      && s.srv.Talking? && s.srv.left == [] && 0 < n <= |s.toRsp|
      && CanReceive(s.srv.r, |Joined(s.srv.chunks)|, n)
      && (n == |s.toRsp| || |Joined(s.srv.chunks)| + n == ReplyLen(s.srv.r))
    case SrvResp =>
      s.srv.Talking? && s.srv.left == [] && |Joined(s.srv.chunks)| == ReplyLen(s.srv.r) && s.toRsp != []
    case SimPoll => s.sim.Polling? && s.command != []
    case SimRead => CanParse(s.sim) && 0 < Next(s.sim) <= |s.toVpi|
    case SimExec(reply) =>
      CanParse(s.sim) && s.sim.words >= FixedWords(s.sim.cmd) && Next(s.sim) == 0
      && |reply| == DataLen(s.sim.cmd, s.sim.got)
    case SimWrite(n) => s.sim.Replying? && 0 < n <= |s.sim.out|
  }

  function Apply(s: System, step: Step): System
    requires Enabled(s, step)
  {
    match step
    case SrvBegin => s.(srv := Commanding(s.todo[0]), todo := s.todo[1..])
    case SrvCommand => s.(srv := AwaitAck(s.srv.r), command := s.command + [Cmd(s.srv.r)])
    case SrvAck =>
      s.(srv := Talking(s.srv.r, Sent(s.srv.r), []), toRsp := s.toRsp[1..])
    case SrvSend(n) =>
      s.(srv := s.srv.(left := s.srv.left[n..]), toVpi := s.toVpi + s.srv.left[..n])
    case SrvRecv(n) =>
      s.(srv := s.srv.(chunks := s.srv.chunks + [s.toRsp[..n]]), toRsp := s.toRsp[n..])
    case SrvResp => s.(srv := Rest, toRsp := s.toRsp[1..], results := s.results + [s.srv.chunks])
    case SimPoll =>
      s.(sim := Reading(s.command[0], [], 0), command := s.command[1..], toRsp := s.toRsp + [s.command[0]])
    case SimRead =>
      var n := Next(s.sim);
      s.(sim := Reading(s.sim.cmd, s.sim.got + s.toVpi[..n], if n == 4 then s.sim.words + 1 else s.sim.words),
         toVpi := s.toVpi[n..])
    case SimExec(reply) =>
      s.(sim := Replying(reply + [0]),
         executed := s.executed + [Execution(Understood(s.sim.cmd, s.sim.got), reply)])
    case SimWrite(n) =>
      var out := s.sim.out[n..];
      s.(sim := if out == [] then Polling else Replying(out), toRsp := s.toRsp + s.sim.out[..n])
  }

  // ---------------------------------------------------------------- the protocol invariant

  /** The simulator's reading position inside what this request sends. */
  predicate Positioned(r: Call, got: Bytes, words: nat) {
    && |got| <= |Sent(r)| && got == Sent(r)[..|got|]
    && (if TakesBlock(Cmd(r)) && words == 2 + |r.data| / 4
        then |got| == 4 * words || |got| == |Sent(r)|
        else |got| == 4 * words)
    && 4 * words <= |Sent(r)|
  }

  lemma BlockRead(r: Call, got: Bytes, words: nat)
    requires Fits(r) && Positioned(r, got, words) && TakesBlock(Cmd(r))
    ensures var n := NextRead(Cmd(r), got, words);
            && |got| + n <= |Sent(r)|
            && (n == 0 <==> |got| == |Sent(r)|)
            && (n > 0 ==> Positioned(r, Sent(r)[..|got| + n], if n == 4 then words + 1 else words))
            && (n == 0 ==> words >= 2)
  {
    assert |Sent(r)| == 8 + |r.data|;
    if words >= 2 {
      FieldsOf(r.adr, |r.data|, r.data);
      WordRoundTrip(|r.data|);
      assert got[4..8] == Sent(r)[4..8];
      assert BlockLength(got) == |r.data|;
    }
  }

  /** Fed with the bytes of a call, the simulator reads all of them, piece by piece, and no more. */
  lemma NextReadFollowsSent(r: Call, got: Bytes, words: nat)
    requires Fits(r) && Positioned(r, got, words)
    ensures CanParse(Reading(Cmd(r), got, words))
    ensures var n := NextRead(Cmd(r), got, words);
            && |got| + n <= |Sent(r)|
            && (n == 0 <==> got == Sent(r))
            && (n > 0 ==> Positioned(r, Sent(r)[..|got| + n], if n == 4 then words + 1 else words))
            && (n == 0 ==> words >= FixedWords(Cmd(r)))
  {
    if TakesBlock(Cmd(r)) {
      BlockRead(r, got, words);
    }
    if |got| == |Sent(r)| {
      assert Sent(r)[..|got|] == Sent(r);
    }
  }

  /** A reply is as long as the server waits for. */
  lemma ReplyFitsCall(r: Call)
    requires Fits(r)
    ensures |Sent(r)| >= 4 * FixedWords(Cmd(r)) && DataLen(Cmd(r), Sent(r)) == ReplyLen(r)
  {
    SentIsUnderstood(r);
    if GivesBlock(Cmd(r)) {
      assert Understood(Cmd(r), Sent(r)).len == BlockLength(Sent(r));
    }
  }

  /** How the reply of a call has been read so far. */
  predicate Fetched(r: Call, chunks: seq<Bytes>) {
    && [] !in chunks && |Joined(chunks)| <= ReplyLen(r)
    && (!GivesBlock(Cmd(r)) ==> chunks == [] || (|chunks| == 1 && |Joined(chunks)| == ReplyLen(r)))
  }

  /** Completed calls: understood as sent, and their replies read to the end. */
  predicate Completed(executed: seq<Execution>, results: seq<seq<Bytes>>, all: seq<Call>) {
    && |results| <= |executed| <= |all|
    && (forall i :: 0 <= i < |executed| ==>
                      executed[i].request == Stored(all[i]) && |executed[i].reply| == ReplyLen(all[i]))
    && (forall i :: 0 <= i < |results| ==>
                      Joined(results[i]) == executed[i].reply && Fetched(all[i], results[i]))
  }

  predicate History(s: System, all: seq<Call>) { Completed(s.executed, s.results, all) }

  lemma CompletedMore(executed: seq<Execution>, results: seq<seq<Bytes>>, all: seq<Call>, e: Execution)
    requires Completed(executed, results, all) && |executed| < |all|
    requires e.request == Stored(all[|executed|]) && |e.reply| == ReplyLen(all[|executed|])
    ensures Completed(executed + [e], results, all)
  {
  }

  predicate Quiet(s: System) {
    && s.sim.Polling? && s.command == [] && s.toVpi == [] && s.toRsp == []
    && |s.executed| == |s.results|
  }

  /** The call under way has this much left to send; recv of its reply is read, pending is in
      the pipe behind what is already accounted for. */
  predicate Conversation(s: System, r: Call, left: Bytes, recv: Bytes, pending: Bytes)
  {
    match s.sim
    case Reading(cmd, got, words) =>
      && |s.executed| == |s.results| && cmd == Cmd(r) && Positioned(r, got, words)
      && got + s.toVpi + left == Sent(r) && recv == [] && pending == []
    case Replying(out) =>
      && |s.executed| == |s.results| + 1 && left == [] && s.toVpi == [] && out != []
      && recv + pending + out == s.executed[|s.results|].reply + [0]
    case Polling =>
      && |s.executed| == |s.results| + 1 && left == [] && s.toVpi == []
      && recv + pending == s.executed[|s.results|].reply + [0]
  }

  /** Where the two sides are in the call after those completed. */
  predicate Exchange(s: System, all: seq<Call>) {
    var k := |s.results|;
    k <= |all| &&
    match s.srv
    case Rest => Quiet(s) && s.todo == all[k..]
    case Commanding(r) => Quiet(s) && k < |all| && r == all[k] && s.todo == all[k + 1..]
    case AwaitAck(r) =>
      && k < |all| && r == all[k] && s.todo == all[k + 1..]
      && (if s.command != [] then
            s.command == [Cmd(r)] && Quiet(s.(command := []))
          else
            s.toRsp != [] && s.toRsp[0] == Cmd(r) && Conversation(s, r, Sent(r), [], s.toRsp[1..]))
    case Talking(r, left, chunks) =>
      && k < |all| && r == all[k] && s.todo == all[k + 1..] && s.command == []
      && Fetched(r, chunks) && Conversation(s, r, left, Joined(chunks), s.toRsp)
  }

  predicate Inv(s: System, all: seq<Call>) { History(s, all) && Exchange(s, all) }

  predicate AllFit(all: seq<Call>) { forall i :: 0 <= i < |all| ==> Fits(all[i]) }

  lemma ServerOpens(s: System, step: Step, all: seq<Call>)
    requires Inv(s, all) && AllFit(all) && Enabled(s, step)
    requires step.SrvBegin? || step.SrvCommand? || step.SrvAck?
    ensures Inv(Apply(s, step), all)
  {
  }

  /** Bytes written to a pipe keep their place in the stream. */
  lemma MovesOver(got: Bytes, pipe: Bytes, left: Bytes, n: nat)
    requires n <= |left|
    ensures got + (pipe + left[..n]) + left[n..] == got + pipe + left
  {
    assert left == left[..n] + left[n..];
  }

  /** Bytes read from a pipe keep their place in the stream. */
  lemma MovesOut(got: Bytes, pipe: Bytes, left: Bytes, n: nat)
    requires n <= |pipe|
    ensures (got + pipe[..n]) + pipe[n..] + left == got + pipe + left
    ensures (got + pipe + left)[..|got| + n] == got + pipe[..n]
  {
    assert pipe == pipe[..n] + pipe[n..];
  }

  lemma ServerSends(s: System, n: nat, all: seq<Call>)
    requires Inv(s, all) && Enabled(s, SrvSend(n))
    ensures Inv(Apply(s, SrvSend(n)), all)
  {
    MovesOver(s.sim.got, s.toVpi, s.srv.left, n);
  }

  lemma FetchedMore(r: Call, chunks: seq<Bytes>, c: Bytes)
    requires Fetched(r, chunks) && c != [] && CanReceive(r, |Joined(chunks)|, |c|)
    ensures Fetched(r, chunks + [c]) && Joined(chunks + [c]) == Joined(chunks) + c
  {
    JoinedSnoc(chunks, c);
  }

  lemma ServerReceives(s: System, n: nat, all: seq<Call>)
    requires Inv(s, all) && Enabled(s, SrvRecv(n))
    ensures Inv(Apply(s, SrvRecv(n)), all)
  {
    var chunks, c := s.srv.chunks, s.toRsp[..n];
    FetchedMore(s.srv.r, chunks, c);
    assert s.toRsp == c + s.toRsp[n..];
    assert Joined(chunks) + (c + s.toRsp[n..]) == Joined(chunks) + c + s.toRsp[n..];
  }

  lemma ServerCloses(s: System, all: seq<Call>)
    requires Inv(s, all) && Enabled(s, SrvResp)
    ensures Inv(Apply(s, SrvResp), all)
  {
    var recv, reply := Joined(s.srv.chunks), s.executed[|s.results|].reply;
    assert |recv| == |reply|;
    assert s.sim.Polling?;
    assert (recv + s.toRsp)[..|reply|] == recv && (recv + s.toRsp)[|reply|..] == s.toRsp;
    assert (reply + [0])[..|reply|] == reply && (reply + [0])[|reply|..] == [0];
  }

  lemma SimulatorPolls(s: System, all: seq<Call>)
    requires Inv(s, all) && AllFit(all) && Enabled(s, SimPoll)
    ensures Inv(Apply(s, SimPoll), all)
  {
    var t := Apply(s, SimPoll);
    assert t.toRsp[1..] == [] && [] + [] + Sent(s.srv.r) == Sent(s.srv.r);
  }

  lemma ReadMoves(r: Call, got: Bytes, words: nat, pipe: Bytes, left: Bytes, n: nat)
    requires Fits(r) && Positioned(r, got, words) && got + pipe + left == Sent(r)
    requires CanParse(Reading(Cmd(r), got, words)) && n == NextRead(Cmd(r), got, words) && 0 < n <= |pipe|
    ensures Positioned(r, got + pipe[..n], if n == 4 then words + 1 else words)
    ensures (got + pipe[..n]) + pipe[n..] + left == Sent(r)
  {
    NextReadFollowsSent(r, got, words);
    MovesOut(got, pipe, left, n);
  }

  lemma SimulatorReads(s: System, all: seq<Call>)
    requires Inv(s, all) && AllFit(all) && Enabled(s, SimRead)
    ensures Inv(Apply(s, SimRead), all)
  {
    assert s.srv.Talking?;
    ReadMoves(s.srv.r, s.sim.got, s.sim.words, s.toVpi, s.srv.left, Next(s.sim));
  }

  /** When the simulator wants no more it has the whole call, and nothing is left to send. */
  lemma AllRead(s: System, all: seq<Call>)
    requires Exchange(s, all) && AllFit(all) && CanParse(s.sim) && Next(s.sim) == 0
    ensures |s.executed| == |s.results| < |all| && (s.srv.AwaitAck? || s.srv.Talking?)
    ensures s.srv.r == all[|s.results|]
    ensures s.sim.cmd == Cmd(s.srv.r) && s.sim.got == Sent(s.srv.r) && s.toVpi == []
    ensures s.srv.Talking? ==> s.srv.left == []
  {
    var left := if s.srv.Talking? then s.srv.left else Sent(s.srv.r);
    NextReadFollowsSent(s.srv.r, s.sim.got, s.sim.words);
    assert |s.sim.got + s.toVpi + left| == |s.sim.got| + |s.toVpi| + |left|;
  }

  lemma ExecutionFits(s: System, reply: Bytes, all: seq<Call>)
    requires Exchange(s, all) && AllFit(all) && Enabled(s, SimExec(reply))
    ensures |s.executed| == |s.results| < |all|
    ensures |s.sim.got| >= 4 * FixedWords(s.sim.cmd)
    ensures Understood(s.sim.cmd, s.sim.got) == Stored(all[|s.results|]) && |reply| == ReplyLen(all[|s.results|])
  {
    AllRead(s, all);
    SentIsUnderstood(s.srv.r);
    ReplyFitsCall(s.srv.r);
  }

  lemma ExecutionRecorded(s: System, reply: Bytes, all: seq<Call>)
    requires Inv(s, all) && AllFit(all) && Enabled(s, SimExec(reply))
    ensures History(Apply(s, SimExec(reply)), all)
  {
    ExecutionFits(s, reply, all);
    CompletedMore(s.executed, s.results, all, Execution(Understood(s.sim.cmd, s.sim.got), reply));
  }

  /** While the simulator reads, nothing of a reply is on its way. */
  lemma NoReplyYet(s: System, all: seq<Call>)
    requires Exchange(s, all) && s.sim.Reading?
    ensures s.command == [] && (s.srv.AwaitAck? || s.srv.Talking?)
    ensures s.srv.Talking? ==> Joined(s.srv.chunks) == [] && s.toRsp == []
    ensures s.srv.AwaitAck? ==> |s.toRsp| == 1 && s.toRsp[1..] == [] && s.toRsp[0] == Cmd(s.srv.r)
  {
  }

  lemma ReplyStarts(reply: Bytes)
    ensures [] + [] + (reply + [0]) == reply + [0]
  {
  }

  lemma ReplyBegins(s: System, reply: Bytes, all: seq<Call>)
    requires Exchange(s, all) && AllFit(all) && Enabled(s, SimExec(reply))
    ensures Exchange(Apply(s, SimExec(reply)), all)
  {
    AllRead(s, all);
    NoReplyYet(s, all);
    ReplyStarts(reply);
  }

  lemma SimulatorExecutes(s: System, reply: Bytes, all: seq<Call>)
    requires Inv(s, all) && AllFit(all) && Enabled(s, SimExec(reply))
    ensures Inv(Apply(s, SimExec(reply)), all)
  {
    ExecutionRecorded(s, reply, all);
    ReplyBegins(s, reply, all);
  }

  lemma SimulatorWrites(s: System, n: nat, all: seq<Call>)
    requires Inv(s, all) && Enabled(s, SimWrite(n))
    ensures Inv(Apply(s, SimWrite(n)), all)
  {
    var out := s.sim.out;
    if s.srv.AwaitAck? {
      assert (s.toRsp + out[..n])[1..] == s.toRsp[1..] + out[..n];
      MovesOver([], s.toRsp[1..], out, n);
    } else {
      MovesOver(Joined(s.srv.chunks), s.toRsp, out, n);
    }
    if n == |out| {
      assert out[..n] == out;
    }
  }

  lemma StepKeepsInv(s: System, step: Step, all: seq<Call>)
    requires Inv(s, all) && AllFit(all) && Enabled(s, step)
    ensures Inv(Apply(s, step), all)
  {
    match step {
      case SrvSend(n) => ServerSends(s, n, all);
      case SrvRecv(n) => ServerReceives(s, n, all);
      case SrvResp => ServerCloses(s, all);
      case SimPoll => SimulatorPolls(s, all);
      case SimRead => SimulatorReads(s, all);
      case SimExec(reply) => SimulatorExecutes(s, reply, all);
      case SimWrite(n) => SimulatorWrites(s, n, all);
      case _ => ServerOpens(s, step, all);
    }
  }

  // ---------------------------------------------------------------- whole runs

  function Start(all: seq<Call>): System { System(Rest, Polling, [], [], [], all, [], []) }

  predicate IsRun(s: System, steps: seq<Step>)
    decreases |steps|
  {
    steps == [] || (Enabled(s, steps[0]) && IsRun(Apply(s, steps[0]), steps[1..]))
  }

  function After(s: System, steps: seq<Step>): System
    requires IsRun(s, steps)
    decreases |steps|
  {
    if steps == [] then s else After(Apply(s, steps[0]), steps[1..])
  }

  predicate Finished(s: System) { s.srv.Rest? && s.todo == [] }

  lemma {:induction false} RunKeepsInv(s: System, steps: seq<Step>, all: seq<Call>)
    requires Inv(s, all) && AllFit(all) && IsRun(s, steps)
    ensures Inv(After(s, steps), all)
    decreases |steps|
  {
    if steps != [] {
      StepKeepsInv(s, steps[0], all);
      RunKeepsInv(Apply(s, steps[0]), steps[1..], all);
    }
  }

  function Blank(n: nat): (b: Bytes)
    ensures |b| == n
  {
    if n == 0 then [] else Blank(n - 1) + [0]
  }

  /** Once everything is sent, what the simulator has not read is in its pipe. */
  lemma ReadAccounts(s: System, all: seq<Call>)
    requires Inv(s, all) && s.srv.Talking? && s.srv.left == [] && s.sim.Reading?
    ensures s.sim.cmd == Cmd(s.srv.r) && Positioned(s.srv.r, s.sim.got, s.sim.words)
    ensures |s.sim.got| + |s.toVpi| == |Sent(s.srv.r)|
  {
    assert s.sim.got + s.toVpi + [] == Sent(s.srv.r);
  }

  /** Next read and command of a simulator that has read got of a call. */
  lemma ReaderNext(r: Call, got: Bytes, words: nat, pipe: nat)
    requires Fits(r) && Positioned(r, got, words) && |got| + pipe == |Sent(r)|
    ensures CanParse(Reading(Cmd(r), got, words))
    ensures NextRead(Cmd(r), got, words) <= pipe
    ensures NextRead(Cmd(r), got, words) == 0 ==> words >= FixedWords(Cmd(r))
  {
    NextReadFollowsSent(r, got, words);
  }

  /** So it has what its next read needs. */
  lemma ReaderCanGo(s: System, r: Call) returns (step: Step)
    requires s.sim.Reading? && s.sim.cmd == Cmd(r) && Fits(r) && Positioned(r, s.sim.got, s.sim.words)
    requires |s.sim.got| + |s.toVpi| == |Sent(r)|
    ensures Enabled(s, step)
  {
    ReaderNext(r, s.sim.got, s.sim.words, |s.toVpi|);
    if Next(s.sim) > 0 {
      step := SimRead;
    } else {
      assert GivesBlock(s.sim.cmd) ==> |s.sim.got| >= 8;
      step := SimExec(Blank(DataLen(s.sim.cmd, s.sim.got)));
    }
  }

  lemma ReplyAccounts(s: System, all: seq<Call>)
    requires Inv(s, all) && s.srv.Talking? && s.sim.Polling?
    ensures |Joined(s.srv.chunks)| + |s.toRsp| == ReplyLen(s.srv.r) + 1
  {
    assert |Joined(s.srv.chunks)| + |s.toRsp| == |Joined(s.srv.chunks) + s.toRsp|;
  }

  /** Some side can always go on: the two processes are never both blocked. */
  lemma NeverBothBlocked(s: System, all: seq<Call>) returns (step: Step)
    requires Inv(s, all) && AllFit(all) && !Finished(s)
    ensures Enabled(s, step)
  {
    match s.srv {
      case Rest => step := SrvBegin;
      case Commanding(r) => step := SrvCommand;
      case AwaitAck(r) => step := if s.command != [] then SimPoll else SrvAck;
      case Talking(r, left, chunks) =>
        if left != [] {
          step := SrvSend(1);
        } else if s.sim.Reading? {
          ReadAccounts(s, all);
          step := ReaderCanGo(s, r);
        } else if s.sim.Replying? {
          step := SimWrite(1);
        } else {
          ReplyAccounts(s, all);
          step := if |Joined(chunks)| < ReplyLen(r) then SrvRecv(ReplyLen(r) - |Joined(chunks)|) else SrvResp;
        }
    }
  }

  /** Bytes and events a call still costs, counted from its first step. */
  function CallWork(r: Call): nat { 6 + 2 * |Sent(r)| + 2 * ReplyLen(r) }

  function TodoWork(todo: seq<Call>): nat {
    if todo == [] then 0 else 1 + CallWork(todo[0]) + TodoWork(todo[1..])
  }

  function SimulatorWork(s: System, r: Call): int {
    if s.command != [] then 3 + |Sent(r)| + ReplyLen(r)
    else match s.sim
      case Reading(_, got, _) => |Sent(r)| - |got| + 2 + ReplyLen(r)
      case Replying(out) => |out|
      case Polling => 0
  }

  function Work(s: System): int {
    TodoWork(s.todo) +
    match s.srv
    case Rest => 0
    case Commanding(r) => CallWork(r)
    case AwaitAck(r) => 2 + |Sent(r)| + ReplyLen(r) + SimulatorWork(s, r)
    case Talking(r, left, chunks) => |left| + ReplyLen(r) - |Joined(chunks)| + 1 + SimulatorWork(s, r)
  }

  lemma OpeningCosts(s: System, step: Step, all: seq<Call>)
    requires Inv(s, all) && Enabled(s, step)
    requires step.SrvBegin? || step.SrvCommand? || step.SrvAck?
    ensures Work(Apply(s, step)) < Work(s)
  {
  }

  lemma SendingCosts(s: System, n: nat, all: seq<Call>)
    requires Inv(s, all) && Enabled(s, SrvSend(n))
    ensures Work(Apply(s, SrvSend(n))) < Work(s)
  {
  }

  lemma ReceivingCosts(s: System, n: nat, all: seq<Call>)
    requires Inv(s, all) && Enabled(s, SrvRecv(n))
    ensures Work(Apply(s, SrvRecv(n))) < Work(s)
  {
    JoinedSnoc(s.srv.chunks, s.toRsp[..n]);
  }

  lemma ClosingCosts(s: System, all: seq<Call>)
    requires Inv(s, all) && Enabled(s, SrvResp)
    ensures Work(Apply(s, SrvResp)) < Work(s)
  {
  }

  lemma PollingCosts(s: System, all: seq<Call>)
    requires Inv(s, all) && Enabled(s, SimPoll)
    ensures Work(Apply(s, SimPoll)) < Work(s)
  {
  }

  lemma ReadingCosts(s: System, all: seq<Call>)
    requires Inv(s, all) && AllFit(all) && Enabled(s, SimRead)
    ensures Work(Apply(s, SimRead)) < Work(s)
  {
    NextReadFollowsSent(s.srv.r, s.sim.got, s.sim.words);
  }

  lemma ExecutingCosts(s: System, reply: Bytes, all: seq<Call>)
    requires Inv(s, all) && AllFit(all) && Enabled(s, SimExec(reply))
    ensures Work(Apply(s, SimExec(reply))) < Work(s)
  {
    NextReadFollowsSent(s.srv.r, s.sim.got, s.sim.words);
    ReplyFitsCall(s.srv.r);
  }

  lemma WritingCosts(s: System, n: nat, all: seq<Call>)
    requires Inv(s, all) && Enabled(s, SimWrite(n))
    ensures Work(Apply(s, SimWrite(n))) < Work(s)
  {
  }

  lemma StepCostsWork(s: System, step: Step, all: seq<Call>)
    requires Inv(s, all) && AllFit(all) && Enabled(s, step)
    ensures Work(Apply(s, step)) < Work(s)
  {
    match step {
      case SrvSend(n) => SendingCosts(s, n, all);
      case SrvRecv(n) => ReceivingCosts(s, n, all);
      case SrvResp => ClosingCosts(s, all);
      case SimPoll => PollingCosts(s, all);
      case SimRead => ReadingCosts(s, all);
      case SimExec(reply) => ExecutingCosts(s, reply, all);
      case SimWrite(n) => WritingCosts(s, n, all);
      case _ => OpeningCosts(s, step, all);
    }
  }

  lemma WorkIsNatural(s: System, all: seq<Call>)
    requires Inv(s, all)
    ensures Work(s) >= 0
  {
    if s.srv.Talking? && s.sim.Polling? {
      ReplyAccounts(s, all);
    }
  }

  lemma {:induction false} RunsAreBounded(s: System, steps: seq<Step>, all: seq<Call>)
    requires Inv(s, all) && AllFit(all) && IsRun(s, steps)
    ensures |steps| <= Work(s)
    decreases |steps|
  {
    if steps == [] {
      WorkIsNatural(s, all);
    } else {
      StepKeepsInv(s, steps[0], all);
      StepCostsWork(s, steps[0], all);
      RunsAreBounded(Apply(s, steps[0]), steps[1..], all);
    }
  }
}
