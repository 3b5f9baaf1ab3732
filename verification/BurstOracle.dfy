/** The self-checking transaction of wb_bfm_transactor.v: a write burst, a read burst over the
    same beats, and the loop that predicts the read data from the write data alone. */
module BurstOracle {
  import opened Arith
  import opened WbBurst

  type Word = nat
  type Memory = map<Addr, Word>

  function Fetch(mem: Memory, a: Addr): Word { if a in mem then mem[a] else 0 }

  /** Flat memory after the first n beats of a write burst. */
  function WriteBeats(mem: Memory, a: Addr, t: BurstType, data: seq<Word>, n: nat): Memory
    requires n <= |data|
  {
    if n == 0 then mem else WriteBeats(mem, a, t, data, n - 1)[Beat(a, t, n - 1) := data[n - 1]]
  }

  /** Beats after which a burst revisits its addresses. */
  function Period(t: BurstType): (p: nat)
    ensures p > 0
  {
    match t
    case Linear => 0x4000_0000
    case Constant => 1
    case _ => WrapBeats(t)
  }

  /** burst_wrap of the transactor. */
  function BurstWrap(t: BurstType, length: nat): nat {
    match t
    case Linear => length
    case Constant => 1
    case _ => WrapBeats(t)
  }

  /** The last of n beats that is congruent to beat w. */
  function LastBeat(w: nat, n: nat, period: nat): (k: nat)
    requires w < n && period > 0
    ensures k < n
  {
    n - 1 - (n - 1 - w) % period
  }

  lemma SameAddress(a: Addr, t: BurstType, i: nat, j: nat)
    requires j <= i
    ensures Beat(a, t, i) == Beat(a, t, j) <==> (i - j) % Period(t) == 0
  {
    var p := Period(t);
    match t {
      case Linear => LinearOrder(a, i, j);
      case Constant => ConstantStays(a, i); ConstantStays(a, j);
      case _ => WrapOrder(a, t, i, j);
    }
    if i % p == j % p {
      ModDifference(i, j, p);
      ModUnique(i - j, p, i / p - j / p, 0);
    }
    if (i - j) % p == 0 {
      ModShift(i, j, p, (i - j) / p);
    }
  }

  lemma LastBeatIsNow(w: nat, n: nat, p: nat)
    requires w < n && p > 0 && (n - 1 - w) % p == 0
    ensures LastBeat(w, n, p) == n - 1
  {
  }

  lemma LastBeatIsEarlier(w: nat, n: nat, p: nat)
    requires w < n && p > 0 && (n - 1 - w) % p != 0
    ensures w < n - 1 && LastBeat(w, n, p) == LastBeat(w, n - 1, p)
  {
    ModUnique(0, p, 0, 0);
    ModStep(n - 2 - w, 1, p);
  }

  /** What a flat memory holds after a write burst: the last beat to hit the address. */
  lemma {:induction false} LastWriteWins(mem: Memory, a: Addr, t: BurstType, data: seq<Word>, n: nat, w: nat)
    requires w < n <= |data|
    ensures Fetch(WriteBeats(mem, a, t, data, n), Beat(a, t, w)) == data[LastBeat(w, n, Period(t))]
  {
    SameAddress(a, t, n - 1, w);
    if (n - 1 - w) % Period(t) == 0 {
      LastBeatIsNow(w, n, Period(t));
    } else {
      LastBeatIsEarlier(w, n, Period(t));
      LastWriteWins(mem, a, t, data, n - 1, w);
    }
  }

  /** A write burst leaves every other address as it was. */
  lemma {:induction false} OthersUntouched(mem: Memory, a: Addr, t: BurstType, data: seq<Word>, n: nat, b: Addr)
    requires n <= |data| && forall k :: 0 <= k < n ==> Beat(a, t, k) != b
    ensures b in WriteBeats(mem, a, t, data, n) <==> b in mem
    ensures b in mem ==> WriteBeats(mem, a, t, data, n)[b] == mem[b]
  {
    if n > 0 {
      assert Beat(a, t, n - 1) != b;
      OthersUntouched(mem, a, t, data, n - 1, b);
    }
  }

  /** write_burst of the bus master against a flat memory. */
  method WriteBurst(mem: Memory, a: Addr, t: BurstType, data: seq<Word>) returns (mem': Memory)
    ensures mem' == WriteBeats(mem, a, t, data, |data|)
  {
    var addr, index := a, 0;
    mem' := mem;
    while index < |data|
      invariant index <= |data| && addr == Beat(a, t, index)
      invariant mem' == WriteBeats(mem, a, t, data, index)
    {
      mem' := mem'[addr := data[index]];
      addr := NextAddr(addr, t);
      index := index + 1;
    }
  }

  /** read_burst of the bus master. */
  method ReadBurst(mem: Memory, a: Addr, t: BurstType, length: nat) returns (data: seq<Word>)
    ensures |data| == length
    ensures forall k :: 0 <= k < length ==> data[k] == Fetch(mem, Beat(a, t, k))
  {
    var addr, index := a, 0;
    data := [];
    while index < length
      invariant index <= length && addr == Beat(a, t, index) && |data| == index
      invariant forall k :: 0 <= k < index ==> data[k] == Fetch(mem, Beat(a, t, k))
    {
      data := data + [Fetch(mem, addr)];
      addr := NextAddr(addr, t);
      index := index + 1;
    }
  }

  /** The expected-data loop: walks both vectors down from the end and jumps back to the last
      word whenever it leaves the final wrap round. */
  method ExpectedData(writeData: seq<Word>, wrap: nat) returns (expected: seq<Word>)
    requires wrap > 0
    ensures |expected| == |writeData|
    ensures forall w :: 0 <= w < |writeData| ==> expected[w] == writeData[LastBeat(w, |writeData|, wrap)]
  {
    var length := |writeData|;
    var buffer := new Word[length];
    var tmp, word := length - 1, length - 1;
    ModUnique(0, wrap, 0, 0);
    while word >= 0
      invariant -1 <= word < length
      invariant tmp == length - 1 - (length - 1 - word) % wrap
      invariant forall w :: word < w < length ==> buffer[w] == writeData[LastBeat(w, length, wrap)]
    {
      assert LastBeat(word, length, wrap) == tmp;
      buffer[word] := writeData[tmp];
      ModStep(length - 1 - word, 1, wrap);
      tmp := tmp - 1;
      if tmp < length - wrap {
        tmp := length - 1;
      }
      word := word - 1;
    }
    expected := buffer[..];
  }

  /** The prediction is what the memory returns, except for a linear burst long enough to run
      round the address space. */
  lemma OracleIsExact(t: BurstType, length: nat)
    requires length > 0
    ensures (forall w :: 0 <= w < length ==>
               LastBeat(w, length, BurstWrap(t, length)) == LastBeat(w, length, Period(t)))
            <==> !t.Linear? || length <= 0x4000_0000
  {
    if t.Linear? {
      if length <= 0x4000_0000 {
        forall w | 0 <= w < length
          ensures LastBeat(w, length, length) == LastBeat(w, length, 0x4000_0000)
        {
          ModUnique(length - 1 - w, length, 0, length - 1 - w);
          ModUnique(length - 1 - w, 0x4000_0000, 0, length - 1 - w);
        }
      } else {
        var w := length - 1 - 0x4000_0000;
        ModUnique(0x4000_0000, length, 0, 0x4000_0000);
        ModUnique(0x4000_0000, 0x4000_0000, 1, 0);
        assert LastBeat(w, length, BurstWrap(t, length)) == w;
        assert LastBeat(w, length, Period(t)) == length - 1;
      }
    }
  }

  /** The comparison of a transaction finds no difference. */
  ghost predicate Passes(mem: Memory, a: Addr, t: BurstType, data: seq<Word>) {
    forall w :: 0 <= w < |data| ==>
      data[LastBeat(w, |data|, BurstWrap(t, |data|))] ==
      Fetch(WriteBeats(mem, a, t, data, |data|), Beat(a, t, w))
  }

  /** Data that tells a beat from all others. */
  function Marked(n: nat, k: nat): (data: seq<Word>)
    ensures |data| == n && forall i :: 0 <= i < n ==> data[i] == if i == k then 1 else 0
  {
    seq(n, i => if i == k then 1 else 0)
  }

  /** A burst of this type and length passes with all data if and only if it is not a linear
      burst that runs round the address space. */
  lemma PassesIffNoRoundTrip(mem: Memory, a: Addr, t: BurstType, length: nat)
    requires length > 0
    ensures (forall data: seq<Word> :: |data| == length ==> Passes(mem, a, t, data))
            <==> !t.Linear? || length <= 0x4000_0000
  {
    OracleIsExact(t, length);
    if !t.Linear? || length <= 0x4000_0000 {
      forall data: seq<Word>, w | |data| == length && 0 <= w < length
        ensures data[LastBeat(w, length, BurstWrap(t, length))] ==
                Fetch(WriteBeats(mem, a, t, data, length), Beat(a, t, w))
      {
        LastWriteWins(mem, a, t, data, length, w);
      }
    } else {
      var w :| 0 <= w < length &&
        LastBeat(w, length, BurstWrap(t, length)) != LastBeat(w, length, Period(t));
      var data := Marked(length, LastBeat(w, length, Period(t)));
      LastWriteWins(mem, a, t, data, length, w);
      assert !Passes(mem, a, t, data);
    }
  }

  /** One transaction: reports whether the comparison found no difference. */
  method Transaction(mem: Memory, a: Addr, t: BurstType, writeData: seq<Word>) returns (ok: bool)
    requires writeData != []
    ensures ok <==> Passes(mem, a, t, writeData)
  {
    var length := |writeData|;
    var mem' := WriteBurst(mem, a, t, writeData);
    var readData := ReadBurst(mem', a, t, length);
    var expected := ExpectedData(writeData, BurstWrap(t, length));
    ok := true;
    var word := 0;
    while word < length
      invariant word <= length
      invariant ok <==> forall w :: 0 <= w < word ==> expected[w] == readData[w]
    {
      if readData[word] != expected[word] {
        ok := false;
      }
      word := word + 1;
    }
  }

  /** adr_range: lowest and highest byte a burst touches. The length arrives in a field of
      lenField values, lenField being the power of two that $clog2(MAX_BURST_LEN) gives. */
  function AdrRange(a: Addr, length: nat, lenField: nat, t: BurstType): (r: (Addr, Addr))
    requires lenField > 0
  {
    var w := a / 4;
    var (low, high) := match t
      case Linear => (w * 4, (w + length % lenField) * 4 - 1)
      case Constant => (w * 4, (w + 1) * 4 - 1)
      case _ => var n := WrapBeats(t); (w / n * n * 4, (w / n * n + n) * 4 - 1);
    (low % ADDRESS_SPACE, high % ADDRESS_SPACE)
  }

  predicate InRange(b: Addr, range: (Addr, Addr)) { range.0 <= b && b + 3 <= range.1 }

  lemma WordBlock(w: nat, n: nat)
    requires n > 0
    ensures w / n * n * 4 == 4 * w / (4 * n) * (4 * n)
  {
    var q, r := w / n, w % n;
    assert 4 * w == q * (4 * n) + 4 * r;
    ModUnique(4 * w, 4 * n, q, 4 * r);
    assert q * (4 * n) == 4 * (q * n);
  }

  lemma WrapRange(a: Addr, length: nat, lenField: nat, t: BurstType)
    requires lenField > 0 && IsWrap(t) && a % 4 == 0
    ensures var m := 4 * WrapBeats(t); AdrRange(a, length, lenField, t) == (a / m * m, a / m * m + m - 1)
  {
    var n, w := WrapBeats(t), a / 4;
    var base := a / (4 * n) * (4 * n);
    WordBlock(w, n);
    BlockFits(a, n);
    ModUnique(base, ADDRESS_SPACE, 0, base);
    ModUnique(base + 4 * n - 1, ADDRESS_SPACE, 0, base + 4 * n - 1);
    assert (w / n * n + n) * 4 == base + 4 * n;
  }

  /** A wrapping burst stays inside its range, whatever its length. */
  lemma WrapRangeCovers(a: Addr, length: nat, lenField: nat, t: BurstType, k: nat)
    requires lenField > 0 && IsWrap(t) && a % 4 == 0
    ensures InRange(Beat(a, t, k), AdrRange(a, length, lenField, t))
  {
    var m := 4 * WrapBeats(t);
    var base, off := a / m * m, (a + 4 * k) % m;
    assert AdrRange(a, length, lenField, t) == (base, base + m - 1) by {
      WrapRange(a, length, lenField, t);
    }
    assert Beat(a, t, k) == base + off by {
      WrapClosedForm(a, t, k);
    }
    assert off + 4 <= m by {
      ModShift(a + 4 * k, a, 4, k);
      AlignedResidue(a + 4 * k, WrapBeats(t));
    }
  }

  lemma BlockFits(a: Addr, n: nat)
    requires n == 4 || n == 8 || n == 16
    ensures a / (4 * n) * (4 * n) + 4 * n <= ADDRESS_SPACE
  {
  }

  lemma AlignedResidue(x: nat, n: nat)
    requires n > 0 && x % 4 == 0
    ensures x % (4 * n) + 4 <= 4 * n
  {
    var y := x / 4;
    assert x == y / n * (4 * n) + 4 * (y % n);
    ModUnique(x, 4 * n, y / n, 4 * (y % n));
  }

  /** A linear burst inside the address space is covered unless its length is lost in the
      length field: that is exactly the length equal to the field size, anywhere but at 0. */
  lemma LinearRangeCovers(a: Addr, length: nat, lenField: nat)
    requires a % 4 == 0 && 0 < length <= lenField && a + 4 * length <= ADDRESS_SPACE
    ensures (forall k :: 0 <= k < length ==> InRange(Beat(a, Linear, k), AdrRange(a, length, lenField, Linear)))
            <==> length < lenField || a == 0
  {
    forall k | 0 <= k < length
      ensures Beat(a, Linear, k) == a + 4 * k
    {
      LinearClosedForm(a, k);
      ModUnique(a + 4 * k, ADDRESS_SPACE, 0, a + 4 * k);
    }
    ModUnique(a, ADDRESS_SPACE, 0, a);
    if length < lenField {
      ModUnique(length, lenField, 0, length);
      ModUnique(a + 4 * length - 1, ADDRESS_SPACE, 0, a + 4 * length - 1);
    } else {
      ModUnique(length, lenField, 1, 0);
      if a == 0 {
        ModUnique(-1, ADDRESS_SPACE, -1, ADDRESS_SPACE - 1);
      } else {
        ModUnique(a - 1, ADDRESS_SPACE, 0, a - 1);
        assert !InRange(Beat(a, Linear, 0), AdrRange(a, length, lenField, Linear));
      }
    }
  }

  /** Within the address space the range of a linear burst whose length survives, and of a
      constant one, is exactly the bytes of its words. */
  lemma RangeIsTight(a: Addr, length: nat, lenField: nat)
    requires a % 4 == 0 && 0 < length < lenField && a + 4 * length <= ADDRESS_SPACE
    ensures AdrRange(a, length, lenField, Linear) == (a, a + 4 * length - 1)
    ensures AdrRange(a, length, lenField, Constant) == (a, a + 3)
  {
    ModUnique(length, lenField, 0, length);
    ModUnique(a, ADDRESS_SPACE, 0, a);
    ModUnique(a + 4 * length - 1, ADDRESS_SPACE, 0, a + 4 * length - 1);
    ModUnique(a + 3, ADDRESS_SPACE, 0, a + 3);
  }
}
