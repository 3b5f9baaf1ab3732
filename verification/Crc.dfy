/** The debug link CRC-32, bit-serial, generator 0x04c11db7: the C step of rsp-rtl_sim.c, the
    unrolled registers of vpi_debug_module.v and the shift loops that use them. */
module Crc {
  import opened Arith
  import opened Common

  /** Bits in the order they are shifted. */
  type Bits = seq<bool>

  /** A 32-bit Verilog register: element i is bit i. */
  type Reg = r: seq<bool> | |r| == 32 witness seq(32, i => false)

  function Zero(): Reg { seq(32, i => false) }

  /** The seed of both CRC registers: all ones. */
  function Ones(): (r: Reg)
    ensures forall i :: 0 <= i < 32 ==> r[i]
  {
    seq(32, i => true)
  }

  const DBG_CRC_POLY: nat := 0x04c1_1db7

  /** Bits the generator feeds back into. */
  predicate Tap(i: int) {
    i == 0 || i == 1 || i == 2 || i == 4 || i == 5 || i == 7 || i == 8
    || i == 10 || i == 11 || i == 12 || i == 16 || i == 22 || i == 23 || i == 26
  }

  predicate StepBit(c: Reg, feedback: bool, i: nat)
    requires i < 32
  {
    (0 < i && c[i - 1]) != (feedback && Tap(i))
  }

  /** One bit into the register: shift up, feed data ^ crc[31] back into the taps. */
  function Step(c: Reg, data: bool): Reg {
    seq(32, i requires 0 <= i < 32 => StepBit(c, data != c[31], i))
  }

  /** calculate_crc and the crc_in register, one assignment per bit; f is data ^ crc[31]. */
  function CalculateCrc(c: Reg, data: bool): Reg {
    var f := data != c[31];
    [
      f, c[0] != f, c[1] != f, c[2], c[3] != f, c[4] != f, c[5], c[6] != f,
      c[7] != f, c[8], c[9] != f, c[10] != f, c[11] != f, c[12], c[13], c[14],
      c[15] != f, c[16], c[17], c[18], c[19], c[20], c[21] != f, c[22] != f,
      c[23], c[24], c[25] != f, c[26], c[27], c[28], c[29], c[30]
    ]
  }

  lemma Row0(c: Reg, data: bool, i: nat)
    requires i < 8
    ensures CalculateCrc(c, data)[i] == StepBit(c, data != c[31], i)
  {
  }

  lemma Row1(c: Reg, data: bool, i: nat)
    requires 8 <= i < 16
    ensures CalculateCrc(c, data)[i] == StepBit(c, data != c[31], i)
  {
  }

  lemma Row2(c: Reg, data: bool, i: nat)
    requires 16 <= i < 24
    ensures CalculateCrc(c, data)[i] == StepBit(c, data != c[31], i)
  {
  }

  lemma Row3(c: Reg, data: bool, i: nat)
    requires 24 <= i < 32
    ensures CalculateCrc(c, data)[i] == StepBit(c, data != c[31], i)
  {
  }

  /** The 32 unrolled assignments are the generator step. */
  lemma CalculateCrcIsStep(c: Reg, data: bool)
    ensures CalculateCrc(c, data) == Step(c, data)
  {
    forall i | 0 <= i < 32
      ensures CalculateCrc(c, data)[i] == Step(c, data)[i]
    {
      if i < 8 {
        Row0(c, data, i);
      } else if i < 16 {
        Row1(c, data, i);
      } else if i < 24 {
        Row2(c, data, i);
      } else {
        Row3(c, data, i);
      }
    }
  }

  // ---------------------------------------------------------------- the C step

  /** The generator as a uint32_t. */
  function Poly(): (r: Bits)
    ensures |r| == 32
  {
    seq(32, i requires 0 <= i < 32 => Tap(i))
  }

  /** The number whose bits are the taps from i up. */
  function PolyFrom(i: nat): nat
    decreases 32 - i
  {
    if i >= 32 then 0 else (if Tap(i) then 1 else 0) + 2 * PolyFrom(i + 1)
  }

  lemma PolyTop()
    ensures PolyFrom(16) == 0x04c1
  {
    assert PolyFrom(28) == 0;
    assert PolyFrom(24) == 0x04;
    assert PolyFrom(20) == 0x04c;
  }

  /** The taps spell the constant. */
  lemma PolyIsConstant()
    ensures PolyFrom(0) == DBG_CRC_POLY
  {
    PolyTop();
    assert PolyFrom(12) == 0x04c11;
    assert PolyFrom(8) == 0x04c11d;
    assert PolyFrom(4) == 0x04c11db;
  }

  /** 0xfffffff, the 28-bit constant of the C masks. */
  function Mask28(): (r: Bits)
    ensures |r| == 32
  {
    seq(32, i => i < 28)
  }

  function And(m: Bits, n: Bits): (r: Bits)
    requires |m| == |n|
    ensures |r| == |m|
  {
    seq(|m|, i requires 0 <= i < |m| => m[i] && n[i])
  }

  function Xor(m: Bits, n: Bits): (r: Bits)
    requires |m| == |n|
    ensures |r| == |m|
  {
    seq(|m|, i requires 0 <= i < |m| => m[i] != n[i])
  }

  /** crc_calc of the C side on the bits of its uint32_t. */
  function CrcCalc(crc: Reg, inputBit: bool): Reg {
    var d: Bits := if inputBit then Mask28() else Zero();
    var crc32: Bits := if crc[31] then Mask28() else Zero();
    var shifted: Bits := [false] + crc[..31];
    Xor(shifted, And(Xor(d, crc32), Poly()))
  }

  /** The C step and the unrolled Verilog updates are one function. */
  lemma CrcCalcIsCalculateCrc(crc: Reg, data: bool)
    ensures CrcCalc(crc, data) == CalculateCrc(crc, data)
  {
    CalculateCrcIsStep(crc, data);
    forall i | 0 <= i < 32
      ensures CrcCalc(crc, data)[i] == Step(crc, data)[i]
    {
      StepAt(crc, data, i);
    }
  }

  lemma StepAt(c: Reg, data: bool, i: nat)
    requires i < 32
    ensures Step(c, data)[i] == StepBit(c, data != c[31], i)
  {
  }

  function Feed(c: Reg, bits: Bits): Reg
    decreases |bits|
  {
    if bits == [] then c else Feed(Step(c, bits[0]), bits[1..])
  }

  lemma {:induction false} FeedConcat(c: Reg, m: Bits, n: Bits)
    ensures Feed(c, m + n) == Feed(Feed(c, m), n)
    decreases |m|
  {
    if m == [] {
      assert m + n == n;
    } else {
      assert (m + n)[1..] == m[1..] + n;
      FeedConcat(Step(c, m[0]), m[1..], n);
    }
  }

  lemma FeedSnoc(c: Reg, m: Bits, b: bool)
    ensures Feed(c, m + [b]) == Step(Feed(c, m), b)
  {
    FeedConcat(c, m, [b]);
  }

  // ---------------------------------------------------------------- linearity

  lemma StepLinear(a: Reg, b: Reg, i: bool, j: bool)
    ensures Xor(Step(a, i), Step(b, j)) == Step(Xor(a, b), i != j)
  {
    forall k | 0 <= k < 32
      ensures Xor(Step(a, i), Step(b, j))[k] == Step(Xor(a, b), i != j)[k]
    {
      StepAt(a, i, k);
      StepAt(b, j, k);
      StepAt(Xor(a, b), i != j, k);
    }
  }

  lemma {:induction false} FeedLinear(a: Reg, b: Reg, m: Bits, n: Bits)
    requires |m| == |n|
    ensures Xor(Feed(a, m), Feed(b, n)) == Feed(Xor(a, b), Xor(m, n))
    decreases |m|
  {
    if m != [] {
      StepLinear(a, b, m[0], n[0]);
      assert Xor(m, n)[1..] == Xor(m[1..], n[1..]);
      FeedLinear(Step(a, m[0]), Step(b, n[0]), m[1..], n[1..]);
    }
  }

  lemma StepInjective(x: Reg, y: Reg, b: bool)
    requires Step(x, b) == Step(y, b)
    ensures x == y
  {
    StepAt(x, b, 0);
    StepAt(y, b, 0);
    forall k | 0 <= k < 31
      ensures x[k] == y[k]
    {
      StepAt(x, b, k + 1);
      StepAt(y, b, k + 1);
    }
  }

  lemma {:induction false} FeedInjective(x: Reg, y: Reg, m: Bits)
    requires x != y
    ensures Feed(x, m) != Feed(y, m)
    decreases |m|
  {
    if m != [] {
      if Step(x, m[0]) == Step(y, m[0]) {
        StepInjective(x, y, m[0]);
      }
      FeedInjective(Step(x, m[0]), Step(y, m[0]), m[1..]);
    }
  }

  // ---------------------------------------------------------------- short differences

  /** A register cleared by k bits had its low 32 - k bits clear. */
  lemma {:induction false} ClearedBy(r: Reg, d: Bits)
    requires |d| <= 32 && Feed(r, d) == Zero()
    ensures forall i :: 0 <= i < 32 - |d| ==> !r[i]
    decreases |d|
  {
    if d != [] {
      ClearedBy(Step(r, d[0]), d[1..]);
      StepAt(r, d[0], 0);
      forall i | 0 <= i < 32 - |d|
        ensures !r[i]
      {
        StepAt(r, d[0], i + 1);
      }
    }
  }

  /** No nonzero difference of at most 32 bits clears an empty register. */
  lemma {:induction false} ShortBurstDetected(d: Bits)
    requires |d| <= 32 && true in d
    ensures Feed(Zero(), d) != Zero()
    decreases |d|
  {
    var r := Step(Zero(), d[0]);
    StepAt(Zero(), d[0], 0);
    if d[0] {
      assert r[0];
      if Feed(r, d[1..]) == Zero() {
        ClearedBy(r, d[1..]);
      }
    } else {
      assert true in d[1..];
      forall i | 0 <= i < 32
        ensures r[i] == Zero()[i]
      {
        StepAt(Zero(), d[0], i);
      }
      assert r == Zero();
      ShortBurstDetected(d[1..]);
    }
  }

  lemma FeedThrough(c: Reg, prefix: Bits, w: Bits, suffix: Bits)
    ensures Feed(c, prefix + w + suffix) == Feed(Feed(Feed(c, prefix), w), suffix)
  {
    FeedConcat(c, prefix + w, suffix);
    FeedConcat(c, prefix, w);
  }

  lemma XorSelf(r: Reg)
    ensures Xor(r, r) == Zero()
  {
  }

  lemma XorShows(m: Bits, n: Bits)
    requires |m| == |n| && m != n
    ensures true in Xor(m, n)
  {
    var i :| 0 <= i < |m| && m[i] != n[i];
    assert Xor(m, n)[i];
  }

  lemma WindowSeen(p: Reg, w1: Bits, w2: Bits)
    requires |w1| == |w2| <= 32 && w1 != w2
    ensures Feed(p, w1) != Feed(p, w2)
  {
    FeedLinear(p, p, w1, w2);
    XorSelf(p);
    XorShows(w1, w2);
    ShortBurstDetected(Xor(w1, w2));
    XorSelf(Feed(p, w1));
  }

  /** Equal-length messages that differ only inside a window of at most 32 bits never share a
      CRC, from any initial register. */
  lemma BurstErrorsDetected(c: Reg, prefix: Bits, w1: Bits, w2: Bits, suffix: Bits)
    requires |w1| == |w2| <= 32 && w1 != w2
    ensures Feed(c, prefix + w1 + suffix) != Feed(c, prefix + w2 + suffix)
  {
    FeedThrough(c, prefix, w1, suffix);
    FeedThrough(c, prefix, w2, suffix);
    WindowSeen(Feed(c, prefix), w1, w2);
    FeedInjective(Feed(Feed(c, prefix), w1), Feed(Feed(c, prefix), w2), suffix);
  }

  /** A register ignores a leading zero bit if and only if it is clear. */
  lemma ZeroIgnored(c: Reg)
    ensures Step(c, false) == c <==> c == Zero()
  {
    if Step(c, false) == c {
      StepAt(c, false, 0);
      forall i | 0 < i < 32
        ensures StepBit(c, c[31], i) == c[i]
      {
        StepAt(c, false, i);
      }
      ClearFromTop(c);
    } else if c == Zero() {
      forall i | 0 <= i < 32
        ensures Step(c, false)[i] == c[i]
      {
        StepAt(c, false, i);
      }
    }
  }

  /** The taps above bit 0 are odd in number, so a register fed back into from a set bit 0 on
      ends with a clear bit 31. */
  lemma FedBackEndsClear(c: Reg)
    requires c[0] && forall i :: 0 < i < 32 ==> StepBit(c, true, i) == c[i]
    ensures !c[31]
  {
    assert StepBit(c, true, 1) == false && StepBit(c, true, 2) == true;
    assert StepBit(c, true, 3) == true && StepBit(c, true, 4) == false;
    assert StepBit(c, true, 5) == true && StepBit(c, true, 6) == true;
    assert StepBit(c, true, 7) == false && StepBit(c, true, 8) == true;
    assert StepBit(c, true, 9) == true && StepBit(c, true, 10) == false;
    assert StepBit(c, true, 11) == true && StepBit(c, true, 12) == false;
    assert StepBit(c, true, 13) == false && StepBit(c, true, 14) == false;
    assert StepBit(c, true, 15) == false && StepBit(c, true, 16) == true;
    assert StepBit(c, true, 17) == true && StepBit(c, true, 18) == true;
    assert StepBit(c, true, 19) == true && StepBit(c, true, 20) == true;
    assert StepBit(c, true, 21) == true && StepBit(c, true, 22) == false;
    assert StepBit(c, true, 23) == true && StepBit(c, true, 24) == true;
    assert StepBit(c, true, 25) == true && StepBit(c, true, 26) == false;
    assert StepBit(c, true, 27) == false && StepBit(c, true, 28) == false;
    assert StepBit(c, true, 29) == false && StepBit(c, true, 30) == false;
    assert StepBit(c, true, 31) == false;
  }

  lemma ClearFromTop(c: Reg)
    requires c[0] == c[31] && forall i :: 0 < i < 32 ==> StepBit(c, c[31], i) == c[i]
    ensures c == Zero()
  {
    if c[31] {
      FedBackEndsClear(c);
    } else {
      var i := 0;
      while i < 31
        invariant i <= 31 && forall k :: 0 <= k <= i ==> !c[k]
      {
        assert StepBit(c, false, i + 1) == c[i + 1];
        i := i + 1;
      }
    }
  }

  /** A zero bit in front of a message changes its CRC if and only if the seed is not clear; with
      the seed of all ones it does. */
  lemma LeadingZeroSeen(c: Reg, message: Bits)
    ensures Feed(c, [false] + message) != Feed(c, message) <==> c != Zero()
    ensures Feed(Ones(), [false] + message) != Feed(Ones(), message)
  {
    LeadingZero(c, message);
    LeadingZero(Ones(), message);
    assert Ones()[0] && !Zero()[0];
  }

  lemma LeadingZero(c: Reg, message: Bits)
    ensures Feed(c, [false] + message) != Feed(c, message) <==> c != Zero()
  {
    assert ([false] + message)[1..] == message;
    ZeroIgnored(c);
    if Step(c, false) != c {
      FeedInjective(Step(c, false), c, message);
    }
  }

  // ---------------------------------------------------------------- the trailer

  /** A register read out from bit 31 down to bit 0, the order of the crc_out loops. */
  function MsbFirst(r: Reg): (b: Bits)
    ensures |b| == 32
    ensures forall j :: 0 <= j < 32 ==> b[j] == r[31 - j]
  {
    seq(32, j requires 0 <= j < 32 => r[31 - j])
  }

  lemma OwnTopBit(r: Reg)
    ensures Step(r, r[31]) == [false] + r[..31]
  {
    forall i | 0 <= i < 32
      ensures Step(r, r[31])[i] == ([false] + r[..31])[i]
    {
      StepAt(r, r[31], i);
    }
  }

  lemma {:induction false} FeedOwnBits(r: Reg, k: nat)
    requires k <= 32
    ensures Feed(r, MsbFirst(r)[..k]) == seq(k, i => false) + r[..32 - k]
    decreases k
  {
    if k > 0 {
      OwnTopBit(r);
      var r' := [false] + r[..31];
      assert MsbFirst(r)[..k][1..] == MsbFirst(r')[..k - 1];
      FeedOwnBits(r', k - 1);
    } else {
      assert MsbFirst(r)[..0] == [];
    }
  }

  /** The receiver's check: after a message and a 32-bit trailer the register is zero if and
      only if the trailer is the message's CRC, most significant bit first. */
  lemma TrailerMatch(init: Reg, message: Bits, trailer: Bits)
    requires |trailer| == 32
    ensures Feed(init, message + trailer) == Zero() <==> trailer == MsbFirst(Feed(init, message))
  {
    var c := Feed(init, message);
    var own := MsbFirst(c);
    FeedConcat(init, message, trailer);
    FeedOwnBits(c, 32);
    assert own[..32] == own;
    assert Feed(c, own) == Zero();
    if trailer != own {
      BurstErrorsDetected(c, [], trailer, own, []);
      assert [] + trailer + [] == trailer && [] + own + [] == own;
    }
  }

  // ---------------------------------------------------------------- the shift loops

  /** The data bits of a transfer of n bits: words in order, each from its top bit. */
  function Payload(words: seq<Reg>, n: nat): (b: Bits)
    requires n <= 32 * |words|
    ensures |b| == n
  {
    seq(n, i requires 0 <= i < n => words[i / 32][31 - i % 32])
  }

  /** Bit r of a transfer's word q is bit 31 - r of the stored word. */
  lemma PayloadBit(words: seq<Reg>, n: nat, q: nat, r: nat)
    requires n <= 32 * |words| && r < 32 && 32 * q + r < n
    ensures Payload(words, n)[32 * q + r] == words[q][31 - r]
  {
    ModUnique(32 * q + r, 32, q, r);
  }

  /** module_select bit and the four bits of DBG_WB_GO, all zero. */
  const GO_HEADER: Bits := [false, false, false, false, false]

  /** The payload loop behind a header, with its running CRC. */
  method ShiftOutPayload(storage: array<Reg>, length: nat, header: Bits, crcHeader: Reg)
    returns (tdi: Bits, crcOut: Reg)
    requires storage.Length == STORAGE_WORDS && length <= 4 * STORAGE_WORDS
    requires crcHeader == Feed(Ones(), header)
    ensures tdi == header + Payload(storage[..], 8 * length) && crcOut == Feed(Ones(), tdi)
  {
    ghost var words := storage[..];
    var wordPointer, i := 0, 0;
    tdi, crcOut := header, crcHeader;
    while i < 8 * length
      invariant i <= 8 * length
      invariant wordPointer == if i == 0 then 0 else (i - 1) / 32
      invariant tdi == header + Payload(words, i)
      invariant crcOut == Feed(Ones(), tdi)
    {
      if i % 32 == 0 && i > 0 {
        wordPointer := wordPointer + 1;
      }
      var tmpData := storage[wordPointer];
      var bit := tmpData[31 - i % 32];
      FeedSnoc(Ones(), tdi, bit);
      assert Payload(words, i + 1) == Payload(words, i) + [bit];
      tdi := tdi + [bit];
      crcOut := Step(crcOut, bit);
      i := i + 1;
    }
  }

  /** The CRC goes out from its top bit. */
  method ShiftOutCrc(crcOut: Reg) returns (tdi: Bits)
    ensures tdi == MsbFirst(crcOut)
  {
    var i := 32;
    tdi := [];
    while i > 0
      invariant 0 <= i <= 32
      invariant tdi == MsbFirst(crcOut)[..32 - i]
    {
      i := i - 1;
      tdi := tdi + [crcOut[i]];
    }
  }

  /** The write half of debug_wishbone_go: header, data and CRC as driven on tdi. */
  method ShiftOut(storage: array<Reg>, length: nat) returns (tdi: Bits)
    requires storage.Length == STORAGE_WORDS && length <= 4 * STORAGE_WORDS
    ensures var message := GO_HEADER + Payload(storage[..], 8 * length);
            tdi == message + MsbFirst(Feed(Ones(), message))
    ensures Feed(Ones(), tdi) == Zero()
    ensures |tdi| == 5 + 8 * length + 32 && tdi[..5] == [false, false, false, false, false]
  {
    var crcOut := Ones();
    var header: Bits := [];
    var i := 0;
    while i < 5
      invariant i <= 5 && header == GO_HEADER[..i] && crcOut == Feed(Ones(), header)
    {
      FeedSnoc(Ones(), header, false);
      header := header + [false];
      crcOut := Step(crcOut, false);
      i := i + 1;
    }
    assert header == GO_HEADER;
    var message, crc := ShiftOutPayload(storage, length, header, crcOut);
    var trailer := ShiftOutCrc(crc);
    TrailerMatch(Ones(), message, trailer);
    tdi := message + trailer;
  }

  /** The last n bits seen by a register that shifts towards its top bit. */
  predicate Holds(r: Reg, stream: Bits, i: nat, n: nat)
    requires n <= i <= |stream| && n <= 32
  {
    forall k :: 0 <= k < n ==> r[k] == stream[i - 1 - k]
  }

  lemma PushBit(r: Reg, stream: Bits, i: nat, n: nat)
    requires n < 32 && n <= i < |stream| && Holds(r, stream, i, n)
    ensures Holds([stream[i]] + r[..31], stream, i + 1, n + 1)
  {
  }

  lemma PushByte(word: Reg, be: Reg, stream: Bits, i: nat, n: nat)
    requires n <= 24 && n + 8 <= i <= |stream|
    requires Holds(word, stream, i - 8, n) && Holds(be, stream, i, 8)
    ensures Holds(be[..8] + word[..24], stream, i, n + 8)
  {
  }

  /** The read half of debug_wishbone_go: one bit per clock into in_data_be, a byte at a time
      into incoming_word, a word at a time into data_storage, leftovers at the end. */
  method ShiftIn(stream: Bits, length: nat, storage: array<Reg>, inDataBe: Reg, incoming: Reg)
    requires storage.Length == STORAGE_WORDS && length <= 4 * STORAGE_WORDS && |stream| == 8 * length
    modifies storage
    ensures Received(storage[..], stream, length)
    ensures forall j :: (length + 3) / 4 <= j < STORAGE_WORDS ==> storage[j] == old(storage[j])
  {
    var be, word := inDataBe, incoming;
    var wordPointer, i := 0, 0;
    ghost var p, k, j := 0, 0, 0;  // word, byte and bit of clock i
    while i < 8 * length
      invariant i == 32 * p + 8 * k + j <= 8 * length && k < 4 && j < 8 && wordPointer == p
      invariant Holds(be, stream, i, j)
      invariant Holds(word, stream, i - j, 8 * k)
      invariant forall n :: 0 <= n < p ==> Holds(storage[n], stream, 32 * n + 32, 32)
      invariant forall n :: p <= n < STORAGE_WORDS ==> storage[n] == old(storage[n])
    {
      ModUnique(i, 8, 4 * p + k, j);
      ModUnique(i, 32, p, 8 * k + j);
      PushBit(be, stream, i, j);
      be := [stream[i]] + be[..31];
      j := j + 1;
      if i % 8 == 7 {
        PushByte(word, be, stream, i + 1, 8 * k);
        word := be[..8] + word[..24];
        k, j := k + 1, 0;
      }
      if i % 32 == 31 {
        storage[wordPointer] := word;
        wordPointer := wordPointer + 1;
        p, k := p + 1, 0;
      }
      i := i + 1;
    }
    ModUnique(length, 4, p, k);
    if length % 4 != 0 {
      storage[wordPointer] := word;
    }
  }

  /** What ShiftIn leaves in the storage for a stream of this many bytes. */
  predicate Received(storage: seq<Reg>, stream: Bits, length: nat)
    requires |stream| == 8 * length && |storage| >= (length + 3) / 4
  {
    && (forall j :: 0 <= j < length / 4 ==> Holds(storage[j], stream, 32 * j + 32, 32))
    && (length % 4 != 0 ==> Holds(storage[length / 4], stream, 8 * length, 8 * (length % 4)))
  }

  /** The first n bits of a word, as they leave it: its n top bits. */
  predicate SameTop(received: Reg, word: Reg, n: nat)
    requires n <= 32
  {
    forall k :: 0 <= k < n ==> received[k] == word[32 - n + k]
  }

  lemma TopReceived(words: seq<Reg>, bits: nat, received: Reg, j: nat, n: nat)
    requires bits <= 32 * |words| && 32 * j + n <= bits && 0 < n <= 32
    requires Holds(received, Payload(words, bits), 32 * j + n, n)
    ensures SameTop(received, words[j], n)
  {
    forall k | 0 <= k < n
      ensures received[k] == words[j][32 - n + k]
    {
      var i := 32 * j + n - 1 - k;
      ModUnique(i, 32, j, n - 1 - k);
      assert Payload(words, bits)[i] == words[i / 32][31 - i % 32];
    }
  }

  /** Round trip: what ShiftOut drives for any number of bytes, ShiftIn stores again, whole words
      as they were and the top bytes of a left-over word in its low bytes. */
  lemma ShiftRoundTrip(words: seq<Reg>, length: nat, storage: seq<Reg>)
    requires length <= 4 * |words| && |storage| == |words|
    requires Received(storage, Payload(words, 8 * length), length)
    ensures storage[..length / 4] == words[..length / 4]
    ensures length % 4 != 0 ==> SameTop(storage[length / 4], words[length / 4], 8 * (length % 4))
  {
    forall j | 0 <= j < length / 4
      ensures storage[j] == words[j]
    {
      TopReceived(words, 8 * length, storage[j], j, 32);
    }
    if length % 4 != 0 {
      TopReceived(words, 8 * length, storage[length / 4], length / 4, 8 * (length % 4));
    }
  }
}
