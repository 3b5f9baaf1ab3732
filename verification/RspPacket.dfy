/** Packet framing of the GDB remote serial protocol as gdb.c implements it: put_packet,
    get_packet and rsp_unescape on byte streams. */
module RspPacket {
  import Arith
  import opened Common

  type Bytes = seq<Byte>

  const GDB_BUF_MAX: nat := 35 * 8 + 1

  const DOLLAR: Byte := 0x24
  const HASH: Byte := 0x23
  const STAR: Byte := 0x2a
  const BRACE: Byte := 0x7d
  const PLUS: Byte := 0x2b
  const MINUS: Byte := 0x2d

  // ---------------------------------------------------------------- encoding

  predicate NeedsEscape(b: Byte) { b == DOLLAR || b == HASH || b == STAR || b == BRACE }

  /** b ^ 0x20 */
  function Flip20(b: Byte): Byte { if (b / 32) % 2 == 1 then b - 32 else b + 32 }

  function EscapeByte(b: Byte): Bytes { if NeedsEscape(b) then [BRACE, Flip20(b)] else [b] }

  function Escape(p: Bytes): Bytes { if p == [] then [] else EscapeByte(p[0]) + Escape(p[1..]) }

  /** unsigned char sum of a packet body. */
  function Checksum(body: Bytes): Byte
  {
    if body == [] then 0 else (Checksum(body[..|body| - 1]) + body[|body| - 1]) % 256
  }

  function HexChar(d: nat): Byte
    requires d < 16
  {
    if d < 10 then 0x30 + d else 0x61 + d - 10
  }

  /** hex(): the value of a digit, -1 for anything else. */
  function Hex(c: Byte): int {
    if 0x61 <= c <= 0x66 then c - 0x61 + 10
    else if 0x30 <= c <= 0x39 then c - 0x30
    else if 0x41 <= c <= 0x46 then c - 0x41 + 10
    else -1
  }

  /** xmitcsum = hex(hi) << 4; xmitcsum += hex(lo), in an unsigned char. */
  function Trailer(hi: Byte, lo: Byte): Byte { ((Hex(hi) * 16) % 256 + Hex(lo)) % 256 }

  /** One frame as put_packet sends it. */
  function Frame(p: Bytes): Bytes {
    var body := Escape(p);
    [DOLLAR] + body + [HASH, HexChar(Checksum(body) / 16), HexChar(Checksum(body) % 16)]
  }

  predicate Clean(body: Bytes) { DOLLAR !in body && HASH !in body }

  /** The two digits of a frame are the plain sum of its body modulo 256. */
  lemma FrameSums(p: Bytes)
    ensures var f := Frame(p); var n := |f|;
            && n == |Escape(p)| + 4 && f[0] == 0x24 && f[1..n - 3] == Escape(p) && f[n - 3] == 0x23
            && f[n - 2] in HEX_CHARS && f[n - 1] in HEX_CHARS
            && SumMatches(Escape(p), f[n - 2], f[n - 1])
  {
    var c := Checksum(Escape(p));
    TrailerOfDigits(c);
    HexTable(c / 16);
    HexTable(c % 16);
    MatchIsSumMatch(Escape(p), HexChar(c / 16), HexChar(c % 16));
  }

  lemma {:induction false} EscapeClean(p: Bytes)
    ensures Clean(Escape(p)) && STAR !in Escape(p) && |Escape(p)| >= |p|
  {
    if p != [] {
      EscapeClean(p[1..]);
    }
  }

  /** The plain sum of the bytes of a packet body. */
  function Sum(body: Bytes): nat
  {
    if body == [] then 0 else Sum(body[..|body| - 1]) + body[|body| - 1]
  }

  /** The sum and the number that two digits spell are congruent modulo 256. */
  predicate SumMatches(body: Bytes, hi: Byte, lo: Byte) { (Sum(body) - (16 * Hex(hi) + Hex(lo))) % 256 == 0 }

  lemma {:induction false} ChecksumIsSum(body: Bytes)
    ensures Checksum(body) == Sum(body) % 256
  {
    if body == [] {
      Arith.ModUnique(0, 256, 0, 0);
    } else {
      var front, last := body[..|body| - 1], body[|body| - 1];
      ChecksumIsSum(front);
      Arith.ModSum(Sum(front), last, 256);
    }
  }

  lemma TrailerIsNumber(hi: Byte, lo: Byte)
    ensures Trailer(hi, lo) == (16 * Hex(hi) + Hex(lo)) % 256
  {
    Arith.ModSum(Hex(hi) * 16, Hex(lo), 256);
  }

  lemma MatchIsSumMatch(body: Bytes, hi: Byte, lo: Byte)
    ensures Checksum(body) == Trailer(hi, lo) <==> SumMatches(body, hi, lo)
  {
    ChecksumIsSum(body);
    TrailerIsNumber(hi, lo);
    Arith.ModEqual(Sum(body), 16 * Hex(hi) + Hex(lo), 256);
  }

  /** "0123456789abcdef" */
  const HEX_CHARS: Bytes := [0x30, 0x31, 0x32, 0x33, 0x34, 0x35, 0x36, 0x37, 0x38, 0x39, 0x61, 0x62, 0x63, 0x64, 0x65, 0x66]

  /** Digits are written in lower case and read in either. */
  lemma HexTable(d: nat)
    requires d < 16
    ensures HexChar(d) == HEX_CHARS[d] && Hex(HEX_CHARS[d]) == d
    ensures d >= 10 ==> Hex(HEX_CHARS[d] - 0x20) == d
  {
  }

  /** What follows '}' for each of the four characters that are escaped; no other one is. */
  lemma EscapeTable(b: Byte)
    ensures EscapeByte(b) ==
            if b == 0x24 then [0x7d, 0x04] else if b == 0x23 then [0x7d, 0x03]
            else if b == 0x2a then [0x7d, 0x0a] else if b == 0x7d then [0x7d, 0x5d]
            else [b]
  {
  }

  /** Flipping changes bit 5 and nothing else. */
  lemma FlipsBit5(b: Byte)
    ensures Flip20(b) % 32 == b % 32 && Flip20(b) / 64 == b / 64 && Flip20(b) / 32 % 2 == 1 - b / 32 % 2
  {
  }

  lemma ChecksumAppend(body: Bytes, b: Byte)
    ensures Checksum(body + [b]) == (Checksum(body) + b) % 256
  {
    assert (body + [b])[..|body|] == body;
  }

  lemma EscapeAppend(p: Bytes, b: Byte)
    ensures Escape(p + [b]) == Escape(p) + EscapeByte(b)
  {
    if p == [] {
      assert p + [b] == [b];
      assert Escape([b]) == EscapeByte(b) + Escape([]);
    } else {
      assert (p + [b])[1..] == p[1..] + [b];
      EscapeAppend(p[1..], b);
    }
  }

  lemma TrailerOfDigits(c: Byte)
    ensures c / 16 < 16 && Trailer(HexChar(c / 16), HexChar(c % 16)) == c
  {
    assert Hex(HexChar(c / 16)) == c / 16;
    assert Hex(HexChar(c % 16)) == c % 16;
  }

  // ---------------------------------------------------------------- the receiver automaton

  datatype Phase = Hunt | Body(acc: Bytes) | Sum1(acc: Bytes) | Sum2(acc: Bytes, hi: Byte)

  /** What one get_packet call returns, what it sends back and what it leaves unread. */
  datatype Outcome = Outcome(packet: Option<Bytes>, acks: Bytes, rest: Bytes)

  function Scan(st: Phase, input: Bytes): Outcome
    decreases |input|
  {
    if input == [] then Outcome(None, [], [])
    else
      var c, t := input[0], input[1..];
      match st
      case Hunt => Scan(if c == DOLLAR then Body([]) else Hunt, t)
      case Body(acc) =>
        if c == DOLLAR then Scan(Body([]), t)
        else if c == HASH then Scan(Sum1(acc), t)
        else if |acc| + 1 == GDB_BUF_MAX - 1 then Scan(Hunt, t)
        else Scan(Body(acc + [c]), t)
      case Sum1(acc) => Scan(Sum2(acc, c), t)
      case Sum2(acc, hi) =>
        if Checksum(acc) == Trailer(hi, c) then Outcome(Some(acc), [PLUS], t)
        else Nack(Scan(Hunt, t))
  }

  function Nack(o: Outcome): Outcome { o.(acks := [MINUS] + o.acks) }

  /** An outcome behind acknowledgements already sent. */
  function After(acks: Bytes, o: Outcome): Outcome { o.(acks := acks + o.acks) }

  lemma AfterNack(acks: Bytes, o: Outcome)
    ensures After(acks, Nack(o)) == After(acks + [MINUS], o)
  {
    assert acks + ([MINUS] + o.acks) == acks + [MINUS] + o.acks;
  }

  /** What one character does to a body. */
  lemma BodyStep(acc: Bytes, input: Bytes)
    ensures Scan(Body(acc), input) ==
            if input == [] then Outcome(None, [], [])
            else if input[0] == DOLLAR then Scan(Body([]), input[1..])
            else if input[0] == HASH then Scan(Sum1(acc), input[1..])
            else if |acc| + 1 == GDB_BUF_MAX - 1 then Scan(Hunt, input[1..])
            else Scan(Body(acc + [input[0]]), input[1..])
  {
  }

  // ---------------------------------------------------------------- the connection

  class RspClient {
    /** Bytes still to arrive before the connection fails, and bytes sent so far. */
    var input: Bytes
    var output: Bytes
    /** The static receive buffer and its fill. */
    const data: array<Byte>
    var len: nat

    constructor (input: Bytes)
      ensures this.input == input && output == [] && fresh(data) && data.Length == GDB_BUF_MAX
    {
      this.input, output, len := input, [], 0;
      data := new Byte[GDB_BUF_MAX];
    }

    /** get_rsp_char: the next byte, or -1 for good once the connection has failed. */
    method GetRspChar() returns (c: int)
      modifies this`input
      ensures old(input) == [] ==> c == -1 && input == []
      ensures old(input) != [] ==> c == old(input)[0] && input == old(input)[1..]
    {
      if input == [] {
        c := -1;
      } else {
        c := input[0];
        input := input[1..];
      }
    }

    method SendRspStr(s: Bytes)
      modifies this`output
      ensures output == old(output) + s
    {
      output := output + s;
    }

    /** First loop of get_packet: skip everything up to a start character. */
    method WaitForStart() returns (ok: bool)
      modifies this`input
      ensures ok ==> |input| < |old(input)| && Scan(Hunt, old(input)) == Scan(Body([]), input)
      ensures !ok ==> input == [] && Scan(Hunt, old(input)) == Outcome(None, [], [])
    {
      var ch := GetRspChar();
      while ch != DOLLAR
        invariant ch == -1 ==> input == []
        invariant ch != -1 ==> 0 <= ch < 256 && |input| < |old(input)|
        invariant Scan(Hunt, old(input)) == Scan(if ch == DOLLAR then Body([]) else Hunt, input)
        decreases |input|, ch != -1
      {
        if ch == -1 {
          return false;
        }
        ch := GetRspChar();
      }
      ok := true;
    }

    /** A body byte into the buffer and the running checksum. */
    method Store(count: nat, ch: Byte, checksum: Byte) returns (checksum': Byte)
      requires count < data.Length && checksum == Checksum(data[..count])
      modifies data
      ensures data[..count + 1] == old(data[..count]) + [ch] && checksum' == Checksum(data[..count + 1])
    {
      ghost var body := data[..count];
      ChecksumAppend(body, ch);
      checksum' := (checksum + ch) % 256;
      data[count] := ch;
      assert data[..count + 1] == body + [ch];
    }

    /** Second loop of get_packet: fill the buffer up to '#', starting over at every '$', or
        until it is full. Returns the last character and the running checksum. */
    method ReadBody() returns (ch: int, checksum: Byte)
      requires data.Length == GDB_BUF_MAX
      modifies this`input, this`len, data
      ensures |input| <= |old(input)|
      ensures ch < 0 ==> input == [] && Scan(Body([]), old(input)) == Outcome(None, [], [])
      ensures ch == HASH ==>
                && len < GDB_BUF_MAX - 1 && data[len] == 0 && checksum == Checksum(data[..len])
                && Scan(Body([]), old(input)) == Scan(Sum1(data[..len]), input)
      ensures ch >= 0 && ch != HASH ==> Scan(Body([]), old(input)) == Scan(Hunt, input)
    {
      var count := 0;
      ch, checksum := 0, 0;
      assert data[..0] == [];
      while count < GDB_BUF_MAX - 1
        invariant count <= GDB_BUF_MAX - 1 && ch >= 0 && ch != HASH && |input| <= |old(input)|
        invariant checksum == Checksum(data[..count])
        invariant Scan(Body([]), old(input)) ==
                  Scan(if count < GDB_BUF_MAX - 1 then Body(data[..count]) else Hunt, input)
        decreases |input|
      {
        BodyStep(data[..count], input);
        ch := GetRspChar();
        if ch < 0 {
          return;
        }
        if ch == DOLLAR {
          checksum, count := 0, 0;
          assert data[..0] == [];
          continue;
        }
        if ch == HASH {
          break;
        }
        checksum := Store(count, ch, checksum);
        count := count + 1;
      }
      data[count] := 0;
      len := count;
    }

    /** The two checksum digits behind '#' and the answer to them. */
    method ReadTrailer(checksum: Byte, ghost body: Bytes) returns (arrived: bool, good: bool)
      requires checksum == Checksum(body)
      modifies this`input, this`output
      ensures !arrived ==> input == [] && output == old(output) && Scan(Sum1(body), old(input)) == Outcome(None, [], [])
      ensures arrived ==> |input| <= |old(input)| && output == old(output) + [if good then PLUS else MINUS]
      ensures arrived ==> Scan(Sum1(body), old(input)) ==
                          if good then Outcome(Some(body), [PLUS], input) else Nack(Scan(Hunt, input))
    {
      good := false;
      var hi := GetRspChar();
      if hi < 0 {
        return false, good;
      }
      var lo := GetRspChar();
      if lo < 0 {
        return false, good;
      }
      arrived := true;
      if checksum != Trailer(hi, lo) {
        SendRspStr([MINUS]);
      } else {
        SendRspStr([PLUS]);
        good := true;
      }
    }

    /** get_packet: keep reading until a frame with a good checksum arrives. */
    method GetPacket() returns (ok: bool)
      requires data.Length == GDB_BUF_MAX
      modifies this, data
      ensures var o := Scan(Hunt, old(input));
              && input == o.rest && output == old(output) + o.acks
              && ok == o.packet.Some?
              && (ok ==> len < GDB_BUF_MAX - 1 && data[..len] == o.packet.value && data[len] == 0)
    {
      ghost var acks: Bytes := [];
      assert [] + Scan(Hunt, input).acks == Scan(Hunt, input).acks;
      while true
        invariant data.Length == GDB_BUF_MAX
        invariant output == old(output) + acks
        invariant Scan(Hunt, old(input)) == After(acks, Scan(Hunt, input))
        decreases |input|
      {
        assert acks + [] == acks;
        var started := WaitForStart();
        if !started {
          return false;
        }
        var ch, checksum := ReadBody();
        if ch < 0 {
          return false;
        }
        if ch == HASH {
          var arrived, good := ReadTrailer(checksum, data[..len]);
          if !arrived {
            return false;
          }
          if good {
            assert output == old(output) + (acks + [PLUS]);
            return true;
          }
          AfterNack(acks, Scan(Hunt, input));
          acks := acks + [MINUS];
        }
      }
    }

    /** Append a body byte to the frame under construction and to the running checksum. */
    method Emit(frame: array<Byte>, n: nat, checksum: Byte, b: Byte) returns (checksum': Byte)
      requires 1 <= n < frame.Length && checksum == Checksum(frame[1..n])
      modifies frame
      ensures frame[0] == old(frame[0]) && frame[1..n + 1] == old(frame[1..n]) + [b]
      ensures checksum' == Checksum(frame[1..n + 1])
    {
      ChecksumAppend(frame[1..n], b);
      checksum' := (checksum + b) % 256;
      frame[n] := b;
      assert frame[1..n + 1] == old(frame[1..n]) + [b];
    }

    /** One payload byte, escaped if it has to be. */
    method EmitEscaped(frame: array<Byte>, n: nat, checksum: Byte, b: Byte) returns (n': nat, checksum': Byte)
      requires 1 <= n && n + |EscapeByte(b)| <= frame.Length && checksum == Checksum(frame[1..n])
      modifies frame
      ensures n' == n + |EscapeByte(b)|
      ensures frame[0] == old(frame[0]) && frame[1..n'] == old(frame[1..n]) + EscapeByte(b)
      ensures checksum' == Checksum(frame[1..n'])
    {
      if NeedsEscape(b) {
        checksum' := Emit(frame, n, checksum, BRACE);
        checksum' := Emit(frame, n + 1, checksum', Flip20(b));
        n' := n + 2;
      } else {
        checksum' := Emit(frame, n, checksum, b);
        n' := n + 1;
      }
    }

    /** put_packet's inner loop over the payload. It stops where the code would write behind the
        end of its buffer. */
    method EmitBody(p: Bytes, frame: array<Byte>) returns (n: nat, checksum: Byte, overrun: bool)
      requires frame.Length > 0
      modifies frame
      ensures overrun <==> 1 + |Escape(p)| > frame.Length
      ensures !overrun ==>
                && n == 1 + |Escape(p)| && frame[0] == old(frame[0]) && frame[1..n] == Escape(p)
                && checksum == Checksum(Escape(p))
    {
      var count := 0;
      checksum, n, overrun := 0, 1, false;
      assert frame[1..1] == [] && p[..0] == [];
      while count < |p|
        invariant count <= |p| && n == 1 + |Escape(p[..count])| <= frame.Length
        invariant frame[0] == old(frame[0]) && frame[1..n] == Escape(p[..count])
        invariant checksum == Checksum(frame[1..n])
      {
        EscapeStep(p, count);
        EscapePrefix(p, count + 1);
        if n + |EscapeByte(p[count])| > frame.Length {
          overrun := true;
          return;
        }
        n, checksum := EmitEscaped(frame, n, checksum, p[count]);
        count := count + 1;
      }
      assert p[..count] == p;
    }

    /** put_packet's loop up to the send: start character, body, '#' and two digits. */
    method BuildFrame(p: Bytes, frame: array<Byte>) returns (n: nat, overrun: bool)
      requires frame.Length > 0
      modifies frame
      ensures overrun <==> |Escape(p)| + 4 > frame.Length
      ensures !overrun ==> n <= frame.Length && frame[..n] == Frame(p)
    {
      var checksum;
      frame[0] := DOLLAR;
      n, checksum, overrun := EmitBody(p, frame);
      if overrun || n + 3 > frame.Length {
        overrun := true;
        return;
      }
      ghost var body := frame[1..n];
      frame[n], frame[n + 1], frame[n + 2] := HASH, HexChar(checksum / 16), HexChar(checksum % 16);
      assert frame[1..n] == body;
      n := n + 3;
      assert frame[..n] == [frame[0]] + frame[1..n - 3] + [frame[n - 3], frame[n - 2], frame[n - 1]];
    }

    method SendFrame(p: Bytes) returns (overrun: bool)
      modifies this`output
      ensures overrun <==> |Escape(p)| + 4 > 2 * GDB_BUF_MAX
      ensures output == if overrun then old(output) else old(output) + Frame(p)
    {
      var frame := new Byte[2 * GDB_BUF_MAX];
      var n;
      n, overrun := BuildFrame(p, frame);
      if !overrun {
        SendRspStr(frame[..n]);
      }
    }

    /** One round of put_packet's loop: done when the client acknowledges or is gone. */
    method SendOnce(p: Bytes) returns (overrun: bool, done: bool)
      modifies this`input, this`output
      ensures overrun <==> |Escape(p)| + 4 > 2 * GDB_BUF_MAX
      ensures overrun ==> output == old(output) && input == old(input) && !done
      ensures !overrun ==> output == old(output) + Frame(p)
      ensures !overrun ==> input == (if old(input) == [] then [] else old(input[1..]))
      ensures !overrun ==> done == (old(input) == [] || old(input)[0] == PLUS)
    {
      done := false;
      overrun := SendFrame(p);
      if !overrun {
        var ch := GetRspChar();
        done := ch < 0 || ch == PLUS;
      }
    }

    /** The further rounds of put_packet's loop, for a frame that fits. */
    method SendUntilDone(p: Bytes)
      requires |Escape(p)| + 4 <= 2 * GDB_BUF_MAX
      modifies this`input, this`output
      ensures output == old(output) + Copies(Frame(p), old(input)) && input == AfterAck(old(input))
    {
      ghost var frame, answers, n := Frame(p), input, 0;
      var overrun, done := false, false;
      while !done
        invariant output == old(output) + Times(frame, n)
        invariant !done ==> n <= |answers| && input == answers[n..] && PLUS !in answers[..n]
        invariant done ==> Acknowledged(answers, n, input)
        decreases |answers| - n, !done
      {
        TimesSnoc(frame, n);
        Regroup(old(output), Times(frame, n), frame);
        NextAnswer(answers, n);
        overrun, done := SendOnce(p);
        n := n + 1;
      }
      CopiesCounted(frame, answers, n, input);
    }

    /** put_packet: send the frame until the client acknowledges it or the connection fails. A
        frame too long for the local buffer is reported; nothing has been sent then. */
    method PutPacket(p: Bytes) returns (overrun: bool)
      modifies this`input, this`output
      ensures overrun <==> |Escape(p)| + 4 > 2 * GDB_BUF_MAX
      ensures overrun ==> output == old(output) && input == old(input)
      ensures !overrun ==> output == old(output) + Copies(Frame(p), old(input)) && input == AfterAck(old(input))
    {
      CopiesStep(Frame(p), input);
      Regroup(output, Frame(p), Copies(Frame(p), if input == [] then [] else input[1..]));
      var done;
      overrun, done := SendOnce(p);
      if !overrun && !done {
        SendUntilDone(p);
      }
    }
  }

  // ---------------------------------------------------------------- the frame buffer

  /** Bytes of a payload that have to be escaped. */
  function Escaped(p: Bytes): nat { if p == [] then 0 else (if NeedsEscape(p[0]) then 1 else 0) + Escaped(p[1..]) }

  lemma {:induction false} EscapedLength(p: Bytes)
    ensures |Escape(p)| == |p| + Escaped(p) <= 2 * |p|
  {
    if p != [] {
      EscapedLength(p[1..]);
    }
  }

  /** A frame overruns put_packet's buffer if and only if payload and escapes take more than
      558 bytes: never for a payload of up to 279 bytes, and for some of every greater length. */
  lemma OverrunsIffTooManyEscapes(p: Bytes)
    ensures |Escape(p)| + 4 > 2 * GDB_BUF_MAX <==> |p| + Escaped(p) > 558
    ensures |p| <= 279 ==> |Escape(p)| + 4 <= 2 * GDB_BUF_MAX
  {
    EscapedLength(p);
  }

  function Hashes(n: nat): (p: Bytes)
    ensures |p| == n
  {
    if n == 0 then [] else [HASH] + Hashes(n - 1)
  }

  lemma {:induction false} HashesOverrun(n: nat)
    ensures Escaped(Hashes(n)) == n
    ensures n > 279 ==> |Escape(Hashes(n))| + 4 > 2 * GDB_BUF_MAX
  {
    if n > 0 {
      HashesOverrun(n - 1);
      assert Hashes(n)[1..] == Hashes(n - 1);
    }
    EscapedLength(Hashes(n));
  }

  lemma EscapeStep(p: Bytes, i: nat)
    requires i < |p|
    ensures Escape(p[..i + 1]) == Escape(p[..i]) + EscapeByte(p[i])
    ensures Escape(p[i..]) == EscapeByte(p[i]) + Escape(p[i + 1..])
  {
    assert p[..i + 1] == p[..i] + [p[i]];
    EscapeAppend(p[..i], p[i]);
    assert p[i..][1..] == p[i + 1..];
  }

  lemma {:induction false} EscapePrefix(p: Bytes, i: nat)
    requires i <= |p|
    ensures |Escape(p[..i])| <= |Escape(p)|
    decreases |p| - i
  {
    if i < |p| {
      EscapeStep(p, i);
      EscapePrefix(p, i + 1);
    } else {
      assert p[..i] == p;
    }
  }

  /** The copies of a frame put_packet sends, given the characters the client answers with. */
  function Copies(frame: Bytes, answers: Bytes): Bytes {
    if answers == [] || answers[0] == PLUS then frame else frame + Copies(frame, answers[1..])
  }

  /** One round: the frame, and another unless it was acknowledged or nobody answers. */
  lemma CopiesStep(frame: Bytes, answers: Bytes)
    ensures answers == [] || answers[0] == PLUS ==> Copies(frame, answers) == frame
    ensures answers == [] || answers[0] == PLUS ==> AfterAck(answers) == (if answers == [] then [] else answers[1..])
    ensures answers != [] && answers[0] != PLUS ==>
              Copies(frame, answers) == frame + Copies(frame, answers[1..]) && AfterAck(answers) == AfterAck(answers[1..])
  {
  }

  function AfterAck(answers: Bytes): Bytes {
    if answers == [] then [] else if answers[0] == PLUS then answers[1..] else AfterAck(answers[1..])
  }

  function Times(frame: Bytes, n: nat): Bytes { if n == 0 then [] else frame + Times(frame, n - 1) }

  lemma {:induction false} TimesSnoc(frame: Bytes, n: nat)
    ensures Times(frame, n + 1) == Times(frame, n) + frame
  {
    if n == 0 {
      assert frame + [] == [] + frame;
    } else {
      TimesSnoc(frame, n - 1);
      assert frame + (Times(frame, n - 1) + frame) == frame + Times(frame, n - 1) + frame;
    }
  }

  /** The n-th copy was the first to be acknowledged, or the connection failed behind it. */
  predicate Acknowledged(answers: Bytes, n: nat, rest: Bytes) {
    && 1 <= n <= |answers| + 1 && PLUS !in answers[..n - 1]
    && (if n <= |answers| then answers[n - 1] == PLUS && rest == answers[n..] else rest == [])
  }

  lemma NextAnswer(answers: Bytes, n: nat)
    requires n <= |answers|
    ensures answers[n..] == [] <==> n == |answers|
    ensures n < |answers| ==>
              && answers[n..][0] == answers[n] && answers[n..][1..] == answers[n + 1..]
              && answers[..n + 1] == answers[..n] + [answers[n]]
  {
  }

  lemma {:induction false} CopiesCounted(frame: Bytes, answers: Bytes, n: nat, rest: Bytes)
    requires Acknowledged(answers, n, rest)
    ensures Copies(frame, answers) == Times(frame, n) && AfterAck(answers) == rest
    decreases |answers|
  {
    if n == 1 {
      assert frame + Times(frame, 0) == frame;
    } else {
      assert answers[0] == answers[..n - 1][0];
      assert answers[1..][..n - 2] == answers[..n - 1][1..];
      CopiesCounted(frame, answers[1..], n - 1, rest);
    }
  }

  // ---------------------------------------------------------------- unescaping in place

  /** The decoded bytes of s[from..len]; a final escape byte takes the byte behind len. */
  function Unescape(s: Bytes, from: nat, len: nat): Bytes
    requires len < |s|
    decreases len - from
  {
    if from >= len then []
    else if s[from] == BRACE then [Flip20(s[from + 1])] + Unescape(s, from + 2, len)
    else [s[from]] + Unescape(s, from + 1, len)
  }

  /** The body of rsp_unescape's loop: one decoded byte, and where the next one starts. */
  method UnescapeByte(data: array<Byte>, from: nat, to: nat) returns (next: nat)
    requires to <= from && from + 1 < data.Length
    modifies data
    ensures next == from + if old(data[from]) == BRACE then 2 else 1
    ensures data[..to + 1] == old(data[..to]) + [if next == from + 2 then Flip20(old(data[from + 1])) else old(data[from])]
    ensures data[to + 1..] == old(data[to + 1..])
  {
    next := from;
    if data[next] == BRACE {
      next := next + 1;
      data[to] := Flip20(data[next]);
    } else {
      data[to] := data[next];
    }
    next := next + 1;
  }

  /** rsp_unescape: decodes over its own input; the read index never falls behind the write
      index, so nothing is overwritten before it is read. */
  method RspUnescape(data: array<Byte>, len: nat) returns (toOff: nat)
    requires len < data.Length
    modifies data
    ensures toOff <= len && data[..toOff] == Unescape(old(data[..]), 0, len)
    ensures data[toOff..] == old(data[toOff..])
  {
    ghost var s := data[..];
    var fromOff := 0;
    toOff := 0;
    while fromOff < len
      invariant toOff <= fromOff <= len + 1 && toOff <= len
      invariant data[toOff..] == s[toOff..]
      invariant data[..toOff] + Unescape(s, fromOff, len) == Unescape(s, 0, len)
    {
      StillThere(data[..], s, toOff, fromOff);
      UnescapeStep(data[..toOff], s, fromOff, len);
      fromOff := UnescapeByte(data, fromOff, toOff);
      toOff := toOff + 1;
    }
  }

  lemma UnescapeStep(done: Bytes, s: Bytes, from: nat, len: nat)
    requires from < len < |s|
    ensures var (b, next) := if s[from] == BRACE then (Flip20(s[from + 1]), from + 2) else (s[from], from + 1);
            done + Unescape(s, from, len) == done + [b] + Unescape(s, next, len)
  {
    if s[from] == BRACE {
      Regroup(done, [Flip20(s[from + 1])], Unescape(s, from + 2, len));
    } else {
      Regroup(done, [s[from]], Unescape(s, from + 1, len));
    }
  }

  lemma StillThere(now: Bytes, s: Bytes, to: nat, from: nat)
    requires to <= from && from + 1 < |now| == |s| && now[to..] == s[to..]
    ensures now[from] == s[from] && now[from + 1] == s[from + 1]
    ensures now[to + 1..] == s[to + 1..]
  {
    assert now[from] == now[to..][from - to] && now[from + 1] == now[to..][from + 1 - to];
    assert now[to + 1..] == now[to..][1..] && s[to + 1..] == s[to..][1..];
  }

  // ---------------------------------------------------------------- round trip

  lemma FlipTwice(b: Byte)
    requires NeedsEscape(b)
    ensures Flip20(Flip20(b)) == b
  {
  }

  lemma {:induction false} UnescapeEscape(p: Bytes, s: Bytes, from: nat, len: nat)
    requires from <= len < |s| && s[from..len] == Escape(p)
    ensures Unescape(s, from, len) == p
    decreases |p|
  {
    if p != [] {
      var e := EscapeByte(p[0]);
      var t := s[from..len];
      assert t == e + Escape(p[1..]);
      assert s[from] == t[0];
      if NeedsEscape(p[0]) {
        assert s[from + 1] == t[1];
        FlipTwice(p[0]);
      }
      assert s[from + |e|..len] == t[|e|..] == Escape(p[1..]);
      UnescapeEscape(p[1..], s, from + |e|, len);
    }
  }

  lemma {:induction false} ScanNoise(noise: Bytes, input: Bytes)
    requires DOLLAR !in noise
    ensures Scan(Hunt, noise + input) == Scan(Hunt, input)
    decreases |noise|
  {
    if noise == [] {
      assert noise + input == input;
    } else {
      assert (noise + input)[1..] == noise[1..] + input;
      ScanNoise(noise[1..], input);
    }
  }

  lemma {:induction false} ScanBody(acc: Bytes, body: Bytes, input: Bytes)
    requires Clean(body) && |acc| + |body| < GDB_BUF_MAX - 1
    ensures Scan(Body(acc), body + input) == Scan(Body(acc + body), input)
    decreases |body|
  {
    if body == [] {
      assert body + input == input && acc + body == acc;
    } else {
      assert (body + input)[1..] == body[1..] + input;
      assert acc + [body[0]] + body[1..] == acc + body;
      ScanBody(acc + [body[0]], body[1..], input);
    }
  }

  lemma ScanTrailer(body: Bytes, hi: Byte, lo: Byte, rest: Bytes)
    ensures Scan(Body(body), [HASH, hi, lo] + rest)
            == if Checksum(body) == Trailer(hi, lo) then Outcome(Some(body), [PLUS], rest)
               else Nack(Scan(Hunt, rest))
  {
    var t := [HASH, hi, lo] + rest;
    assert Scan(Body(body), t) == Scan(Sum1(body), t[1..]);
    assert Scan(Sum1(body), t[1..]) == Scan(Sum2(body, hi), t[1..][1..]);
    assert t[1..][1..][1..] == rest;
  }

  lemma ScanStart(body: Bytes, next: Bytes)
    requires Clean(body) && |body| < GDB_BUF_MAX - 1
    ensures Scan(Hunt, [DOLLAR] + body + next) == Scan(Body(body), next)
  {
    assert ([DOLLAR] + body + next)[1..] == body + next;
    ScanBody([], body, next);
    assert [] + body == body;
  }

  lemma ScanFrame(body: Bytes, hi: Byte, lo: Byte, rest: Bytes)
    requires Clean(body) && |body| < GDB_BUF_MAX - 1
    ensures Scan(Hunt, [DOLLAR] + body + [HASH, hi, lo] + rest)
            == if Checksum(body) == Trailer(hi, lo) then Outcome(Some(body), [PLUS], rest)
               else Nack(Scan(Hunt, rest))
  {
    assert [DOLLAR] + body + [HASH, hi, lo] + rest == [DOLLAR] + body + ([HASH, hi, lo] + rest);
    ScanStart(body, [HASH, hi, lo] + rest);
    ScanTrailer(body, hi, lo, rest);
  }

  /** A frame is accepted, with '+', if and only if the plain sum of its body is congruent modulo
      256 to the number its two digits spell; otherwise the answer is '-'. */
  lemma AcceptedIffSumMatches(body: Bytes, hi: Byte, lo: Byte, rest: Bytes)
    requires DOLLAR !in body && HASH !in body && |body| <= GDB_BUF_MAX - 2
    ensures var o := Scan(Hunt, [0x24] + body + [0x23, hi, lo] + rest);
            && (o == Outcome(Some(body), [0x2b], rest) <==> SumMatches(body, hi, lo))
            && (!SumMatches(body, hi, lo) ==> o.acks != [] && o.acks[0] == 0x2d)
  {
    ScanFrame(body, hi, lo, rest);
    MatchIsSumMatch(body, hi, lo);
    assert Nack(Scan(Hunt, rest)).acks[0] == MINUS;
  }

  lemma OkSums()
    ensures Escape([0x4f, 0x4b]) == [0x4f, 0x4b] && Checksum([0x4f, 0x4b]) == 0x9a
  {
    var ok: Bytes := [0x4f, 0x4b];
    assert ok[1..] == [0x4b] && ok[..1] == [0x4f] && ok[..1][..0] == [] && ok[1..][1..] == [];
    assert Escape(ok[1..]) == EscapeByte(0x4b) + Escape([]);
    assert Checksum(ok[..1]) == 0x4f;
  }

  /** "OK" goes out as $OK#9a and the empty packet as $#00. */
  lemma KnownFrames()
    ensures Frame([0x4f, 0x4b]) == [0x24, 0x4f, 0x4b, 0x23, 0x39, 0x61]
    ensures Frame([]) == [0x24, 0x23, 0x30, 0x30]
  {
    OkSums();
    assert HexChar(0x9) == 0x39 && HexChar(0xa) == 0x61;
    assert Checksum([]) == 0 && HexChar(0) == 0x30;
  }

  /** $?#3f is accepted. */
  lemma KnownRequest()
    ensures Scan(Hunt, [0x24, 0x3f, 0x23, 0x33, 0x66]) == Outcome(Some([0x3f]), [0x2b], [])
  {
    var ask: Bytes := [0x3f];
    assert ask[..0] == [];
    assert Checksum(ask) == 0x3f && Trailer(0x33, 0x66) == 0x3f;
    ScanFrame(ask, 0x33, 0x66, []);
    assert [DOLLAR] + ask + [HASH, 0x33, 0x66] + [] == [0x24, 0x3f, 0x23, 0x33, 0x66];
  }

  /** Framing round trip: behind any noise, get_packet accepts what put_packet built and hands
      back the escaped body, which rsp_unescape turns into the payload. */
  lemma FramingRoundTrip(p: Bytes, noise: Bytes, rest: Bytes, buffer: Bytes)
    requires |Escape(p)| <= GDB_BUF_MAX - 2 && DOLLAR !in noise
    requires |Escape(p)| < |buffer| && buffer[..|Escape(p)|] == Escape(p)
    ensures Scan(Hunt, noise + (Frame(p) + rest)) == Outcome(Some(Escape(p)), [PLUS], rest)
    ensures Unescape(buffer, 0, |Escape(p)|) == p
  {
    var c := Checksum(Escape(p));
    ScanNoise(noise, Frame(p) + rest);
    EscapeClean(p);
    TrailerOfDigits(c);
    ScanFrame(Escape(p), HexChar(c / 16), HexChar(c % 16), rest);
    assert buffer[0..|Escape(p)|] == Escape(p);
    UnescapeEscape(p, buffer, 0, |Escape(p)|);
  }

  // ---------------------------------------------------------------- resynchronisation

  /** What get_packet can meet before the frame it returns. */
  datatype Item =
    | Noise(bytes: Bytes)
    | Restarted(body: Bytes)
    | Oversized(body: Bytes)
    | Rejected(body: Bytes, hi: Byte, lo: Byte)

  function Render(i: Item): Bytes {
    match i
    case Noise(bytes) => bytes
    case Restarted(body) => [DOLLAR] + body
    case Oversized(body) => [DOLLAR] + body
    case Rejected(body, hi, lo) => [DOLLAR] + body + [HASH, hi, lo]
  }

  predicate ItemOk(i: Item, next: Bytes) {
    match i
    case Noise(bytes) => bytes != [] && DOLLAR !in bytes
    case Restarted(body) => Clean(body) && |body| < GDB_BUF_MAX - 1 && next != [] && next[0] == DOLLAR
    case Oversized(body) => Clean(body) && |body| == GDB_BUF_MAX - 1
    case Rejected(body, hi, lo) =>
      Clean(body) && |body| < GDB_BUF_MAX - 1 && Checksum(body) != Trailer(hi, lo)
  }

  /** The stream is these items followed by tail. */
  predicate Splits(input: Bytes, items: seq<Item>, tail: Bytes)
    decreases |items|
  {
    if items == [] then input == tail
    else
      var n := |Render(items[0])|;
      && n <= |input| && input[..n] == Render(items[0])
      && ItemOk(items[0], input[n..]) && Splits(input[n..], items[1..], tail)
  }

  /** One '-' for each rejected frame. */
  function Nacks(items: seq<Item>): Bytes {
    if items == [] then []
    else (if items[0].Rejected? then [MINUS] else []) + Nacks(items[1..])
  }

  /** Where the items end: the accepted frame with what follows it, or the connection failing
      between frames or inside one. */
  datatype Tail =
    | Accepted(body: Bytes, hi: Byte, lo: Byte, rest: Bytes)
    | Silence
    | CutOff(body: Bytes, trailer: Bytes)

  function RenderTail(t: Tail): Bytes {
    match t
    case Accepted(body, hi, lo, rest) => [DOLLAR] + body + [HASH, hi, lo] + rest
    case Silence => []
    case CutOff(body, trailer) => [DOLLAR] + body + trailer
  }

  predicate TailOk(t: Tail) {
    match t
    case Accepted(body, hi, lo, _) =>
      Clean(body) && |body| <= GDB_BUF_MAX - 2 && Checksum(body) == Trailer(hi, lo)
    case Silence => true
    case CutOff(body, trailer) =>
      Clean(body) && |body| <= GDB_BUF_MAX - 2 && |trailer| <= 2 && (trailer != [] ==> trailer[0] == HASH)
  }

  /** The documented behaviour: a '-' per rejected frame, a '+' for the returned one only. */
  function Verdict(items: seq<Item>, t: Tail): Outcome {
    match t
    case Accepted(body, _, _, rest) => Outcome(Some(body), Nacks(items) + [PLUS], rest)
    case _ => Outcome(None, Nacks(items), [])
  }

  lemma ScanOversized(body: Bytes, next: Bytes)
    requires Clean(body) && |body| == GDB_BUF_MAX - 1
    ensures Scan(Hunt, [DOLLAR] + body + next) == Scan(Hunt, next)
  {
    var front, last := body[..|body| - 1], body[|body| - 1];
    assert ([DOLLAR] + body + next)[1..] == front + ([last] + next);
    ScanBody([], front, [last] + next);
    assert [] + front == front && ([last] + next)[1..] == next;
    assert last in body;
  }

  lemma ScanItem(i: Item, next: Bytes)
    requires ItemOk(i, next)
    ensures Scan(Hunt, Render(i) + next) == if i.Rejected? then Nack(Scan(Hunt, next)) else Scan(Hunt, next)
  {
    match i {
      case Noise(bytes) => ScanNoise(bytes, next);
      case Restarted(body) => ScanStart(body, next);
      case Oversized(body) => ScanOversized(body, next);
      case Rejected(body, hi, lo) => ScanFrame(body, hi, lo, next);
    }
  }

  lemma ScanTail(t: Tail)
    requires TailOk(t)
    ensures Scan(Hunt, RenderTail(t)) == Verdict([], t)
  {
    match t {
      case Accepted(body, hi, lo, rest) => ScanFrame(body, hi, lo, rest);
      case Silence =>
      case CutOff(body, trailer) =>
        ScanStart(body, trailer);
        if |trailer| == 2 {
          assert Scan(Body(body), trailer) == Scan(Sum1(body), trailer[1..]);
          assert trailer[1..][1..] == [];
        }
    }
  }

  lemma VerdictStep(items: seq<Item>, t: Tail)
    requires items != []
    ensures Verdict(items, t) == if items[0].Rejected? then Nack(Verdict(items[1..], t)) else Verdict(items[1..], t)
  {
    assert [MINUS] + Nacks(items[1..]) + [PLUS] == [MINUS] + (Nacks(items[1..]) + [PLUS]);
    assert [] + Nacks(items[1..]) == Nacks(items[1..]);
  }

  /** Whatever garbage, restarts, oversized or corrupt frames came before, get_packet does what
      the split of its input says. */
  lemma {:induction false} Resynchronises(input: Bytes, items: seq<Item>, t: Tail)
    requires Splits(input, items, RenderTail(t)) && TailOk(t)
    ensures Scan(Hunt, input) == Verdict(items, t)
    decreases |items|
  {
    if items == [] {
      ScanTail(t);
    } else {
      var n := |Render(items[0])|;
      assert input == Render(items[0]) + input[n..];
      ScanItem(items[0], input[n..]);
      VerdictStep(items, t);
      Resynchronises(input[n..], items[1..], t);
    }
  }

  /** Length of the leading run without '$' or '#', at most max. */
  function CleanRun(s: Bytes, max: nat): (k: nat)
    ensures k <= |s| && k <= max && Clean(s[..k])
    ensures k < max && k < |s| ==> s[k] == DOLLAR || s[k] == HASH
  {
    if s == [] || max == 0 || s[0] == DOLLAR || s[0] == HASH then 0
    else
      var k := CleanRun(s[1..], max - 1);
      assert s[..k + 1] == [s[0]] + s[1..][..k];
      k + 1
  }

  lemma Prepend(i: Item, input: Bytes, items: seq<Item>, tail: Bytes)
    requires ItemOk(i, input) && Splits(input, items, tail)
    ensures Splits(Render(i) + input, [i] + items, tail)
  {
    var n := |Render(i)|;
    assert (Render(i) + input)[..n] == Render(i) && (Render(i) + input)[n..] == input;
    assert ([i] + items)[1..] == items;
  }

  /** Every finite input has such a split, so the two lemmas together determine get_packet on
      all of them. */
  lemma {:induction false} EveryInputSplits(input: Bytes) returns (items: seq<Item>, t: Tail)
    ensures Splits(input, items, RenderTail(t)) && TailOk(t)
    decreases |input|
  {
    if input == [] {
      items, t := [], Silence;
    } else if input[0] != DOLLAR {
      items, t := EveryInputSplits(input[1..]);
      Prepend(Noise([input[0]]), input[1..], items, RenderTail(t));
      assert [input[0]] + input[1..] == input;
      items := [Noise([input[0]])] + items;
    } else {
      items, t := SplitAtStart(input, CleanRun(input[1..], GDB_BUF_MAX - 1));
    }
  }

  lemma FirstThree(s: Bytes)
    requires |s| >= 3
    ensures s == [s[0], s[1], s[2]] + s[3..]
  {
  }

  lemma SplitAtStart(input: Bytes, k: nat) returns (items: seq<Item>, t: Tail)
    requires input != [] && input[0] == DOLLAR
    requires k == CleanRun(input[1..], GDB_BUF_MAX - 1)
    ensures Splits(input, items, RenderTail(t)) && TailOk(t)
    decreases |input|, 0
  {
    var body, next := input[1..][..k], input[1..][k..];
    assert input == [DOLLAR] + body + next;
    if k == GDB_BUF_MAX - 1 {
      items, t := EveryInputSplits(next);
      Prepend(Oversized(body), next, items, RenderTail(t));
      items := [Oversized(body)] + items;
    } else if next != [] && next[0] == DOLLAR {
      items, t := EveryInputSplits(next);
      Prepend(Restarted(body), next, items, RenderTail(t));
      items := [Restarted(body)] + items;
    } else if |next| < 3 {
      items, t := [], CutOff(body, next);
    } else {
      var hi, lo, rest := next[1], next[2], next[3..];
      assert next[0] == HASH;
      FirstThree(next);
      Regroup([DOLLAR] + body, [HASH, hi, lo], rest);
      if Checksum(body) == Trailer(hi, lo) {
        items, t := [], Accepted(body, hi, lo, rest);
      } else {
        items, t := EveryInputSplits(rest);
        Prepend(Rejected(body, hi, lo), rest, items, RenderTail(t));
        items := [Rejected(body, hi, lo)] + items;
      }
    }
  }
}
