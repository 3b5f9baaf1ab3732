/** wb_intercon: the generator's address masks and port order, and the bus multiplexer they
    configure. A master's access must reach the one slave whose range holds the address. */
module Interconnect {
  import Arith

  // ---------------------------------------------------------------- words

  function Pow(w: nat): (r: nat)
    ensures r > 0
  {
    if w == 0 then 1 else 2 * Pow(w - 1)
  }

  predicate Odd(n: nat) { n % 2 == 1 }

  /** Bitwise and of the low w bits. */
  function BitAnd(a: nat, b: nat, w: nat): (r: nat)
    ensures r < Pow(w)
  {
    if w == 0 then 0 else (if Odd(a) && Odd(b) then 1 else 0) + 2 * BitAnd(a / 2, b / 2, w - 1)
  }

  /** {v[0], ..., v[n-1]}: the first element is the most significant. */
  function Concat(v: seq<nat>, base: nat): nat {
    if v == [] then 0 else Concat(v[..|v| - 1], base) * base + v[|v| - 1]
  }

  /** v[idx*w +: w], where base is 2 to the w. */
  function Part(v: nat, idx: nat, base: nat): (r: nat)
    requires base > 0
    ensures r < base
    decreases idx
  {
    if idx == 0 then v % base else Part(v / base, idx - 1, base)
  }

  /** List element k of a concatenation is part n - 1 - k. */
  lemma {:induction false} PartOfConcat(v: seq<nat>, idx: nat, base: nat)
    requires base > 0 && idx < |v| && forall k :: 0 <= k < |v| ==> v[k] < base
    ensures Part(Concat(v, base), idx, base) == v[|v| - 1 - idx]
  {
    var front, last := v[..|v| - 1], v[|v| - 1];
    Digits(Concat(front, base), last, base);
    if idx > 0 {
      PartOfConcat(front, idx - 1, base);
    }
  }

  lemma Digits(x: nat, y: nat, base: nat)
    requires y < base
    ensures (x * base + y) / base == x && (x * base + y) % base == y
  {
    Arith.ModUnique(x * base + y, base, x, y);
  }

  // ---------------------------------------------------------------- masks

  /** The low w bits of ~(size - 1), which is -size. */
  function MaskOf(size: nat, w: nat): (r: nat)
    ensures r < Pow(w)
  {
    (0 - size) % Pow(w)
  }

  lemma MaskValue(size: nat, w: nat)
    requires size <= Pow(w)
    ensures MaskOf(size, w) == if size == 0 then 0 else Pow(w) - size
  {
    if size == 0 {
      Arith.ModUnique(0, Pow(w), 0, 0);
    } else {
      Arith.ModUnique(0 - size, Pow(w), -1, Pow(w) - size);
    }
  }

  predicate Matches(adr: nat, offset: nat, size: nat, w: nat) {
    BitAnd(adr, MaskOf(size, w), w) == offset
  }

  predicate InRange(adr: nat, offset: nat, size: nat) { offset <= adr < offset + size }

  predicate PowerOfTwo(n: nat) { n == 1 || (n > 1 && !Odd(n) && PowerOfTwo(n / 2)) }

  /** The bits of a that are not in m. */
  function Without(a: nat, m: nat, w: nat): nat {
    if w == 0 then 0 else (if Odd(a) && !Odd(m) then 1 else 0) + 2 * Without(a / 2, m / 2, w - 1)
  }

  lemma {:induction false} AndMask(a: nat, m: nat, w: nat)
    requires m < Pow(w)
    ensures BitAnd(a, Pow(w) - (m + 1), w) == Without(a, m, w)
  {
    if w > 0 {
      AndMask(a / 2, m / 2, w - 1);
      Halve(Pow(w - 1), m);
    }
  }

  lemma Halve(p: nat, m: nat)
    requires m < 2 * p
    ensures Odd(2 * p - (m + 1)) == !Odd(m) && (2 * p - (m + 1)) / 2 == p - (m / 2 + 1)
  {
  }

  lemma {:induction false} WithoutNothing(a: nat, w: nat)
    requires a < Pow(w)
    ensures Without(a, 0, w) == a
  {
    if w > 0 {
      WithoutNothing(a / 2, w - 1);
    }
  }

  lemma AlignedHalf(offset: nat, half: nat)
    requires half > 0
    ensures offset % (2 * half) == 0 <==> !Odd(offset) && (offset / 2) % half == 0
  {
    var q, r := offset / (2 * half), offset % (2 * half);
    assert offset == 2 * half * q + r;
    if offset % (2 * half) == 0 {
      assert offset == 2 * (half * q);
      assert offset / 2 == half * q;
      Arith.ModUnique(offset / 2, half, q, 0);
    }
    if !Odd(offset) && (offset / 2) % half == 0 {
      var q' := (offset / 2) / half;
      assert offset / 2 == half * q';
      assert offset == (2 * half) * q';
      Arith.ModUnique(offset, 2 * half, q', 0);
    }
  }

  lemma RangeHalf(a: nat, offset: nat, half: nat)
    requires !Odd(offset)
    ensures InRange(a / 2, offset / 2, half) == InRange(a, offset, 2 * half)
  {
  }

  /** One bit of the mask: below the block's size nothing of the address is kept. */
  lemma MaskHalf(a: nat, offset: nat, half: nat, w: nat)
    requires half > 0 && w > 0
    ensures Without(a, 2 * half - 1, w) == offset <==> !Odd(offset) && Without(a / 2, half - 1, w - 1) == offset / 2
  {
    assert (2 * half - 1) / 2 == half - 1;
  }

  /** For a power of two the mask keeps the block an address is in. */
  lemma {:induction false} PowerOfTwoMask(a: nat, offset: nat, size: nat, w: nat)
    requires PowerOfTwo(size) && size <= Pow(w) && a < Pow(w) && offset < Pow(w)
    ensures Without(a, size - 1, w) == offset <==> offset % size == 0 && InRange(a, offset, size)
    decreases w
  {
    if size == 1 {
      WithoutNothing(a, w);
      Arith.ModUnique(offset, 1, offset, 0);
    } else {
      var half := size / 2;
      assert size == 2 * half;
      PowerOfTwoMask(a / 2, offset / 2, half, w - 1);
      MaskHalf(a, offset, half, w);
      AlignedHalf(offset, half);
      if !Odd(offset) {
        RangeHalf(a, offset, half);
      }
    }
  }

  /** Disjoint bits do not carry. */
  lemma {:induction false} DisjointFits(o: nat, m: nat, w: nat)
    requires o < Pow(w) && m < Pow(w) && Without(o, m, w) == o
    ensures o + m < Pow(w)
  {
    if w > 0 {
      DisjointFits(o / 2, m / 2, w - 1);
    }
  }

  lemma WithoutOdd(a: nat, b: nat, m: nat, w: nat)
    requires Odd(m) && w > 0 && !Odd(b) && b / 2 == a
    ensures Without(b, m, w) == 2 * Without(a, m / 2, w - 1)
  {
  }

  lemma Doubled(a: nat)
    ensures !Odd(2 * a) && (2 * a) / 2 == a
  {
  }

  lemma LowBitOdd(bit: nat, x: nat)
    requires bit < 2
    ensures Odd(bit + 2 * x) == (bit == 1)
  {
  }

  lemma WithoutEven(a: nat, m: nat, w: nat)
    requires !Odd(m) && w > 0
    ensures Odd(Without(a, m, w)) == Odd(a)
  {
    LowBitOdd(if Odd(a) then 1 else 0, Without(a / 2, m / 2, w - 1));
  }

  /** A number that loses nothing to an odd mask is even, and neither does its half. */
  lemma HalfKept(o: nat, m: nat, w: nat)
    requires Odd(m) && w > 0 && Without(o, m, w) == o
    ensures o == 2 * (o / 2) && Without(o / 2, m / 2, w - 1) == o / 2
  {
  }

  lemma HalfNoPower(m: nat)
    requires Odd(m) && !PowerOfTwo(m + 1)
    ensures !PowerOfTwo(m / 2 + 1)
  {
    assert (m + 1) / 2 == m / 2 + 1;
  }

  lemma ParityDiffers(x: nat, o: nat)
    requires Odd(x) == Odd(o + 1)
    ensures x != o
  {
  }

  /** Below a clear bit of the mask the next address differs in that bit. */
  lemma NextIsMissed(o: nat, m: nat, w: nat)
    requires o < Pow(w) && 0 < m < Pow(w) && !Odd(m) && Without(o, m, w) == o
    ensures o + 1 <= o + m && o + 1 < Pow(w) && Without(o + 1, m, w) != o
  {
    DisjointFits(o, m, w);
    WithoutEven(o + 1, m, w);
    ParityDiffers(Without(o + 1, m, w), o);
  }

  lemma TwiceMissed(o: nat, m: nat, w: nat, half: nat)
    requires w > 0 && Odd(m) && o == 2 * (o / 2) && half < Pow(w - 1)
    requires o / 2 <= half <= o / 2 + m / 2 && Without(half, m / 2, w - 1) != o / 2
    ensures o <= 2 * half <= o + m && 2 * half < Pow(w) && Without(2 * half, m, w) != o
  {
    Doubled(half);
    WithoutOdd(half, 2 * half, m, w);
  }

  /** With another size some address of the range is missed. */
  lemma {:induction false} OtherSizesMiss(o: nat, m: nat, w: nat) returns (a: nat)
    requires o < Pow(w) && m < Pow(w) && Without(o, m, w) == o && !PowerOfTwo(m + 1)
    ensures o <= a <= o + m && a < Pow(w) && Without(a, m, w) != o
    decreases w
  {
    assert m > 0 && w > 0;
    if Odd(m) {
      HalfKept(o, m, w);
      HalfNoPower(m);
      var half := OtherSizesMiss(o / 2, m / 2, w - 1);
      TwiceMissed(o, m, w, half);
      a := 2 * half;
    } else {
      NextIsMissed(o, m, w);
      a := o + 1;
    }
  }

  /** The generated mask decodes exactly the slave's range if and only if the size is a power
      of two and the offset a multiple of it. (An unset size gives an empty range, and a mask
      that matches every address when the offset is zero.) */
  lemma MaskDecodesRange(offset: nat, size: nat, w: nat)
    requires offset < Pow(w) && size <= Pow(w)
    ensures (forall a: nat :: a < Pow(w) ==> Matches(a, offset, size, w) == InRange(a, offset, size)) <==>
            if size == 0 then offset != 0 else PowerOfTwo(size) && offset % size == 0
  {
    MaskValue(size, w);
    if size == 0 {
      forall a: nat ensures BitAnd(a, 0, w) == 0 {
        AndZero(a, w);
      }
      assert Matches(0, offset, 0, w) == (offset == 0);
    } else if PowerOfTwo(size) {
      forall a: nat | a < Pow(w) ensures Matches(a, offset, size, w) == (offset % size == 0 && InRange(a, offset, size)) {
        AndMask(a, size - 1, w);
        PowerOfTwoMask(a, offset, size, w);
      }
      assert InRange(offset, offset, size);
    } else {
      var a := offset;
      if Without(offset, size - 1, w) == offset {
        a := OtherSizesMiss(offset, size - 1, w);
      }
      AndMask(a, size - 1, w);
      assert Matches(a, offset, size, w) != InRange(a, offset, size);
    }
  }

  lemma {:induction false} AndZero(a: nat, w: nat)
    ensures BitAnd(a, 0, w) == 0
  {
    if w > 0 {
      AndZero(a / 2, w - 1);
    }
  }

  // ---------------------------------------------------------------- ff1 and clog2

  /** A vector's bit; one that is out of range is unknown, which is not true. */
  predicate BitSet(bits: seq<bool>, i: nat) { i < |bits| && bits[i] }

  predicate Zeros(bits: seq<bool>) { forall k :: 0 <= k < |bits| ==> !BitSet(bits, k) }

  /** The lowest set bit, 0 if there is none. */
  function FirstOne(bits: seq<bool>): (r: nat)
    ensures bits != [] ==> r < |bits|
    ensures BitSet(bits, r) || (r == 0 && Zeros(bits))
    ensures forall k :: 0 <= k < r ==> !BitSet(bits, k)
  {
    if bits == [] || bits[0] then 0
    else
      var rest := FirstOne(bits[1..]);
      assert forall k :: 0 < k < |bits| ==> BitSet(bits, k) == BitSet(bits[1..], k - 1);
      if BitSet(bits[1..], rest) then rest + 1 else 0
  }

  /** The bits an argument of type integer keeps. */
  const INTEGER_BITS: nat := 32

  function Kept(bits: seq<bool>): seq<bool> { if |bits| <= INTEGER_BITS then bits else bits[..INTEGER_BITS] }

  method Ff1(bits: seq<bool>, width: nat) returns (ff1: nat)
    requires width == |bits|
    ensures ff1 == FirstOne(Kept(bits))
  {
    ff1 := 0;
    var i := width - 1;
    while i >= 0
      invariant -1 <= i < width
      invariant (ff1 > i && BitSet(Kept(bits), ff1) && forall k :: i < k < ff1 ==> !BitSet(Kept(bits), k))
                || (ff1 == 0 && forall k :: i < k < width ==> !BitSet(Kept(bits), k))
    {
      if BitSet(Kept(bits), i) {
        ff1 := i;
      }
      i := i - 1;
    }
  }

  /** How often n can be halved. */
  function Halvings(n: nat): nat { if n == 0 then 0 else 1 + Halvings(n / 2) }

  /** The result of clog2. */
  function Log2(n: int): nat { if n <= 1 then 0 else Halvings(n - 1) }

  method Clog2(n: int) returns (clog2: nat)
    ensures clog2 == Log2(n)
  {
    var x := n - 1;
    clog2 := 0;
    while x > 0
      invariant if n <= 1 then clog2 == 0 else x >= 0 && clog2 + Halvings(x) == Log2(n)
      decreases x
    {
      x := x / 2;
      clog2 := clog2 + 1;
    }
  }

  lemma {:induction false} HalvingsLeast(n: nat, w: nat)
    ensures Halvings(n) <= w <==> n < Pow(w)
    decreases w
  {
    if w > 0 && n > 0 {
      HalvingsLeast(n / 2, w - 1);
    }
  }

  /** clog2 is the least number of bits that count n things. */
  lemma Log2Least(n: nat, w: nat)
    requires n > 0
    ensures Log2(n) <= w <==> n <= Pow(w)
  {
    if n > 1 {
      HalvingsLeast(n - 1, w);
    }
  }

  // ---------------------------------------------------------------- the generator

  /** An entry of a slave's section in the configuration file. */
  datatype Property = DataWidth(n: nat) | Offset(n: nat) | Size(n: nat) | BusType(name: string) | Other(key: string)

  datatype Outcome = Loaded | UnsupportedBusType(name: string) | UnknownProperty(key: string)

  function ValidBusTypes(): set<string> { {"wishbone", "avalon"} }

  datatype Config = Config(dataWidth: nat, offset: nat, size: nat, mask: nat, busType: string)

  /** The generated bus has 32-bit addresses. */
  const AW: nat := 32

  /** What one entry does, if it is legal. */
  function Load(c: Config, p: Property): Config {
    match p
    case DataWidth(n) => c.(dataWidth := n)
    case Offset(n) => c.(offset := n)
    case Size(n) => c.(size := n, mask := MaskOf(n, AW))
    case BusType(name) => if name in ValidBusTypes() then c.(busType := name) else c
    case Other(_) => c
  }

  function Judge(p: Property): Outcome {
    match p
    case BusType(name) => if name in ValidBusTypes() then Loaded else UnsupportedBusType(name)
    case Other(key) => UnknownProperty(key)
    case _ => Loaded
  }

  /** Entries are loaded in order up to the first illegal one. */
  function LoadAll(c: Config, ps: seq<Property>): (Config, Outcome)
    decreases |ps|
  {
    if ps == [] then (c, Loaded)
    else if Judge(ps[0]) != Loaded then (c, Judge(ps[0]))
    else LoadAll(Load(c, ps[0]), ps[1..])
  }

  class Slave {
    var dataWidth: nat
    var offset: nat
    var size: nat
    var mask: nat
    var busType: string

    function Settings(): Config
      reads this
    {
      Config(dataWidth, offset, size, mask, busType)
    }

    constructor ()
      ensures Settings() == Config(32, 0, 0, 0, "wishbone")
    {
      dataWidth, offset, size, mask, busType := 32, 0, 0, 0, "wishbone";
    }

    method LoadDict(d: seq<Property>) returns (r: Outcome)
      modifies this
      ensures (Settings(), r) == LoadAll(old(Settings()), d)
    {
      var i := 0;
      while i < |d|
        invariant 0 <= i <= |d|
        invariant LoadAll(old(Settings()), d) == LoadAll(Settings(), d[i..])
        decreases |d| - i
      {
        match d[i] {
          case DataWidth(n) => dataWidth := n;
          case Offset(n) => offset := n;
          case Size(n) => size := n; mask := MaskOf(size, AW);
          case BusType(name) =>
            if name !in ValidBusTypes() {
              return UnsupportedBusType(name);
            }
            busType := name;
          case Other(key) => return UnknownProperty(key);
        }
        i := i + 1;
      }
      return Loaded;
    }
  }

  /** Whatever the entries and their order, the mask belongs to the size. */
  lemma {:induction false} MaskFollowsSize(c: Config, ps: seq<Property>)
    requires c.mask == MaskOf(c.size, AW)
    ensures LoadAll(c, ps).0.mask == MaskOf(LoadAll(c, ps).0.size, AW)
    decreases |ps|
  {
    if ps != [] && Judge(ps[0]) == Loaded {
      MaskFollowsSize(Load(c, ps[0]), ps[1..]);
    }
  }

  /** How many entries are loaded: all before the first illegal one. An entry is illegal if it
      names an unknown property, or a bus type other than wishbone and avalon. */
  function LegalCount(ps: seq<Property>): (n: nat)
    ensures n <= |ps|
    ensures forall k :: 0 <= k < n ==> !ps[k].Other? && (ps[k].BusType? ==> ps[k].name == "wishbone" || ps[k].name == "avalon")
    ensures n < |ps| ==> ps[n].Other? || (ps[n].BusType? && ps[n].name != "wishbone" && ps[n].name != "avalon")
  {
    if ps == [] || Judge(ps[0]) != Loaded then 0 else 1 + LegalCount(ps[1..])
  }

  lemma LegalTail(ps: seq<Property>)
    requires LegalCount(ps) > 0
    ensures LegalCount(ps[1..]) == LegalCount(ps) - 1
    ensures forall l :: 0 <= l < LegalCount(ps) - 1 ==> ps[1..][l] == ps[l + 1]
  {
  }

  /** A setting that no loaded entry names stays as it is. */
  lemma {:induction false} SettingKept(c: Config, ps: seq<Property>)
    ensures var e, n := LoadAll(c, ps).0, LegalCount(ps);
            && ((forall l :: 0 <= l < n ==> !ps[l].Offset?) ==> e.offset == c.offset)
            && ((forall l :: 0 <= l < n ==> !ps[l].Size?) ==> e.size == c.size)
            && ((forall l :: 0 <= l < n ==> !ps[l].DataWidth?) ==> e.dataWidth == c.dataWidth)
            && ((forall l :: 0 <= l < n ==> !ps[l].BusType?) ==> e.busType == c.busType)
    decreases |ps|
  {
    if LegalCount(ps) > 0 {
      LegalTail(ps);
      SettingKept(Load(c, ps[0]), ps[1..]);
    }
  }

  /** Every setting is that of the last loaded entry that names it. */
  lemma {:induction false} SettingIsLast(c: Config, ps: seq<Property>, k: nat)
    requires k < LegalCount(ps)
    ensures var e, n := LoadAll(c, ps).0, LegalCount(ps);
            && (ps[k].Offset? && (forall l :: k < l < n ==> !ps[l].Offset?) ==> e.offset == ps[k].n)
            && (ps[k].Size? && (forall l :: k < l < n ==> !ps[l].Size?) ==> e.size == ps[k].n)
            && (ps[k].DataWidth? && (forall l :: k < l < n ==> !ps[l].DataWidth?) ==> e.dataWidth == ps[k].n)
            && (ps[k].BusType? && (forall l :: k < l < n ==> !ps[l].BusType?) ==> e.busType == ps[k].name)
    decreases |ps|
  {
    LegalTail(ps);
    if k == 0 {
      SettingKept(Load(c, ps[0]), ps[1..]);
    } else {
      SettingIsLast(Load(c, ps[0]), ps[1..], k - 1);
    }
  }

  /** The outcome names the first illegal entry. */
  lemma {:induction false} OutcomeIsFirstIllegal(c: Config, ps: seq<Property>)
    ensures LoadAll(c, ps).1 ==
            if LegalCount(ps) == |ps| then Loaded
            else match ps[LegalCount(ps)]
              case BusType(name) => UnsupportedBusType(name)
              case Other(key) => UnknownProperty(key)
              case _ => Loaded
    decreases |ps|
  {
    if LegalCount(ps) > 0 {
      LegalTail(ps);
      OutcomeIsFirstIllegal(Load(c, ps[0]), ps[1..]);
    }
  }

  /** The parameters a multiplexer is generated with; aw is the address width. */
  datatype Params = Params(numSlaves: nat, aw: nat, matchAddr: nat, matchMask: nat)

  function Offsets(cs: seq<Config>): (r: seq<nat>)
    ensures |r| == |cs| && forall k :: 0 <= k < |cs| ==> r[k] == cs[k].offset
  {
    if cs == [] then [] else Offsets(cs[..|cs| - 1]) + [cs[|cs| - 1].offset]
  }

  function Masks(cs: seq<Config>): (r: seq<nat>)
    ensures |r| == |cs| && forall k :: 0 <= k < |cs| ==> r[k] == cs[k].mask
  {
    if cs == [] then [] else Masks(cs[..|cs| - 1]) + [cs[|cs| - 1].mask]
  }

  function GenMux(cs: seq<Config>, aw: nat): Params {
    Params(|cs|, aw, Concat(Offsets(cs), Pow(aw)), Concat(Masks(cs), Pow(aw)))
  }

  // ---------------------------------------------------------------- wb_mux

  predicate MatchBit(p: Params, adr: nat, idx: nat) {
    BitAnd(adr, Part(p.matchMask, idx, Pow(p.aw)), p.aw) == Part(p.matchAddr, idx, Pow(p.aw))
  }

  function MatchVector(p: Params, adr: nat, n: nat): (r: seq<bool>)
    ensures |r| == n && forall idx :: 0 <= idx < n ==> r[idx] == MatchBit(p, adr, idx)
  {
    if n == 0 then [] else MatchVector(p, adr, n - 1) + [MatchBit(p, adr, n - 1)]
  }

  function SelBits(n: nat): nat { if n > 1 then Log2(n) else 1 }

  /** The select signal keeps the low bits of what ff1 returns. */
  function SlaveSel(p: Params, adr: nat): nat {
    FirstOne(Kept(MatchVector(p, adr, p.numSlaves))) % Pow(SelBits(p.numSlaves))
  }

  /** wbs_cyc_o[idx] */
  predicate CycOut(p: Params, adr: nat, cyc: bool, idx: nat)
    requires idx < p.numSlaves
  {
    MatchBit(p, adr, idx) && cyc && idx == SlaveSel(p, adr)
  }

  /** What the slaves drive; bit idx of a one-bit signal belongs to port idx. */
  datatype Replies = Replies(dat: nat, ack: seq<bool>, err: seq<bool>, rty: seq<bool>)

  datatype Reply = Reply(dat: nat, ack: bool, err: bool, rty: bool)

  /** The response multiplexer; wbmErr is the register. */
  function Selected(r: Replies, sel: nat, wbmErr: bool, dw: nat): Reply {
    Reply(Part(r.dat, sel, Pow(dw)), BitSet(r.ack, sel), BitSet(r.err, sel) || wbmErr, BitSet(r.rty, sel))
  }

  function MuxOut(p: Params, adr: nat, r: Replies, wbmErr: bool, dw: nat): Reply {
    Selected(r, SlaveSel(p, adr), wbmErr, dw)
  }

  /** The error register's next value. */
  predicate NextErr(p: Params, adr: nat, cyc: bool) {
    cyc && Zeros(MatchVector(p, adr, p.numSlaves))
  }

  /** ff1 never returns more than the select signal holds. */
  lemma SelectIsWideEnough(p: Params, adr: nat)
    requires p.numSlaves > 0
    ensures SlaveSel(p, adr) == FirstOne(Kept(MatchVector(p, adr, p.numSlaves))) < p.numSlaves
  {
    var f, n := FirstOne(Kept(MatchVector(p, adr, p.numSlaves))), p.numSlaves;
    Log2Least(n, SelBits(n));
    Arith.ModUnique(f, Pow(SelBits(n)), 0, f);
  }

  /** idx is the lowest port whose comparator matches. */
  predicate LowestMatch(bits: seq<bool>, idx: nat) { BitSet(bits, idx) && forall j :: 0 <= j < idx ==> !BitSet(bits, j) }

  /** The lowest matching port is selected, if it is one of the first 32. */
  lemma LowestMatchWins(p: Params, adr: nat, cyc: bool, idx: nat)
    requires idx < p.numSlaves
    ensures CycOut(p, adr, cyc, idx) <==>
            cyc && idx < INTEGER_BITS && LowestMatch(MatchVector(p, adr, p.numSlaves), idx)
    ensures idx < INTEGER_BITS && LowestMatch(MatchVector(p, adr, p.numSlaves), idx) ==> SlaveSel(p, adr) == idx
  {
    SelectIsWideEnough(p, adr);
    var all := MatchVector(p, adr, p.numSlaves);
    var bits := Kept(all);
    var sel := FirstOne(bits);
    assert forall j :: 0 <= j < |bits| ==> BitSet(bits, j) == BitSet(all, j);
    assert sel < |bits|;
    assert BitSet(all, idx) == MatchBit(p, adr, idx);
    if idx < |bits| && BitSet(bits, idx) {
      assert BitSet(bits, sel);
    }
  }

  // ---------------------------------------------------------------- decoding

  /** Settings as the generator leaves them, within the address space. */
  predicate Generated(cs: seq<Config>, w: nat) {
    forall k :: 0 <= k < |cs| ==>
      cs[k].offset < Pow(w) && cs[k].size <= Pow(w) && cs[k].mask == MaskOf(cs[k].size, w)
  }

  predicate Contains(c: Config, adr: nat) { InRange(adr, c.offset, c.size) }

  predicate Decodable(c: Config) { PowerOfTwo(c.size) && c.offset % c.size == 0 }

  predicate Aligned(cs: seq<Config>) { forall k :: 0 <= k < |cs| ==> cs[k].size > 0 && Decodable(cs[k]) }

  ghost predicate Disjoint(cs: seq<Config>) {
    forall k, l, adr: nat :: 0 <= k < |cs| && 0 <= l < |cs| && Contains(cs[k], adr) && Contains(cs[l], adr) ==> k == l
  }

  function Port(cs: seq<Config>, k: nat): nat
    requires k < |cs|
  {
    |cs| - 1 - k
  }

  /** A port's comparator is that of the list element wired to it. */
  lemma PortMatches(cs: seq<Config>, w: nat, adr: nat, k: nat)
    requires Generated(cs, w) && k < |cs|
    ensures MatchBit(GenMux(cs, w), adr, Port(cs, k)) == Matches(adr, cs[k].offset, cs[k].size, w)
  {
    PartOfConcat(Offsets(cs), Port(cs, k), Pow(w));
    PartOfConcat(Masks(cs), Port(cs, k), Pow(w));
  }

  lemma PortContains(cs: seq<Config>, w: nat, adr: nat, k: nat)
    requires Generated(cs, w) && Aligned(cs) && k < |cs| && adr < Pow(w)
    ensures MatchBit(GenMux(cs, w), adr, Port(cs, k)) == Contains(cs[k], adr)
  {
    PortMatches(cs, w, adr, k);
    MaskDecodesRange(cs[k].offset, cs[k].size, w);
  }

  /** The match vector, read from its most significant bit, tells which ranges contain adr. */
  lemma VectorContains(cs: seq<Config>, w: nat, adr: nat)
    requires Generated(cs, w) && Aligned(cs) && adr < Pow(w)
    ensures forall k: nat :: k < |cs| ==>
              BitSet(MatchVector(GenMux(cs, w), adr, |cs|), Port(cs, k)) == Contains(cs[k], adr)
  {
    forall k: nat | k < |cs|
      ensures BitSet(MatchVector(GenMux(cs, w), adr, |cs|), Port(cs, k)) == Contains(cs[k], adr)
    {
      PortContains(cs, w, adr, k);
    }
  }

  /** No later range in the list contains the address. */
  predicate LastContaining(cs: seq<Config>, adr: nat, k: nat)
    requires k < |cs|
  {
    Contains(cs[k], adr) && forall l :: k < l < |cs| ==> !Contains(cs[l], adr)
  }

  lemma LowestIsLast(cs: seq<Config>, bits: seq<bool>, adr: nat, k: nat)
    requires k < |cs| == |bits|
    requires forall l: nat :: l < |cs| ==> BitSet(bits, Port(cs, l)) == Contains(cs[l], adr)
    ensures LowestMatch(bits, Port(cs, k)) == LastContaining(cs, adr, k)
  {
    if LastContaining(cs, adr, k) {
      forall j: nat | j < Port(cs, k) ensures !BitSet(bits, j) {
        assert Port(cs, Port(cs, j)) == j;
      }
    }
    if LowestMatch(bits, Port(cs, k)) {
      forall l | k < l < |cs| ensures !Contains(cs[l], adr) {
        assert Port(cs, l) < Port(cs, k);
      }
    }
  }

  /** Of the slaves whose ranges contain the address, the last in the list, which is the one
      on the lowest port, is addressed, and no other. */
  lemma LastContainingWins(cs: seq<Config>, w: nat, adr: nat, cyc: bool, k: nat)
    requires Generated(cs, w) && Aligned(cs) && k < |cs| && adr < Pow(w)
    ensures CycOut(GenMux(cs, w), adr, cyc, Port(cs, k)) <==>
            cyc && Port(cs, k) < INTEGER_BITS && LastContaining(cs, adr, k)
    ensures Port(cs, k) < INTEGER_BITS && LastContaining(cs, adr, k) ==> SlaveSel(GenMux(cs, w), adr) == Port(cs, k)
  {
    VectorContains(cs, w, adr);
    LowestIsLast(cs, MatchVector(GenMux(cs, w), adr, |cs|), adr, k);
    LowestMatchWins(GenMux(cs, w), adr, cyc, Port(cs, k));
  }

  /** With aligned power-of-two ranges that do not overlap, cyc reaches the slave whose range
      contains the address and no other, and none if no range does; but a slave on port 32 or
      above is never reached. */
  lemma DecodeReachesSlave(cs: seq<Config>, w: nat, adr: nat, cyc: bool, k: nat)
    requires Generated(cs, w) && Aligned(cs) && Disjoint(cs) && k < |cs| && adr < Pow(w)
    ensures CycOut(GenMux(cs, w), adr, cyc, Port(cs, k)) <==> cyc && Contains(cs[k], adr) && Port(cs, k) < INTEGER_BITS
  {
    LastContainingWins(cs, w, adr, cyc, k);
  }

  function Dats(rs: seq<Reply>): (r: seq<nat>)
    ensures |r| == |rs| && forall k :: 0 <= k < |rs| ==> r[k] == rs[k].dat
  {
    if rs == [] then [] else Dats(rs[..|rs| - 1]) + [rs[|rs| - 1].dat]
  }

  /** The slaves' outputs, concatenated in the order of the parameters. */
  predicate Wired(rs: seq<Reply>, r: Replies, dw: nat) {
    && r.dat == Concat(Dats(rs), Pow(dw))
    && |r.ack| == |r.err| == |r.rty| == |rs|
    && forall k :: 0 <= k < |rs| ==>
         rs[k].dat < Pow(dw) && r.ack[|rs| - 1 - k] == rs[k].ack && r.err[|rs| - 1 - k] == rs[k].err &&
         r.rty[|rs| - 1 - k] == rs[k].rty
  }

  lemma PortReplies(rs: seq<Reply>, r: Replies, wbmErr: bool, dw: nat, k: nat, sel: nat)
    requires k < |rs| && Wired(rs, r, dw) && sel == |rs| - 1 - k
    ensures Selected(r, sel, wbmErr, dw) == rs[k].(err := rs[k].err || wbmErr)
  {
    PartOfConcat(Dats(rs), sel, Pow(dw));
  }

  lemma SelectedPort(cs: seq<Config>, w: nat, adr: nat, k: nat)
    requires Generated(cs, w) && Aligned(cs) && Disjoint(cs) && k < |cs| && adr < Pow(w)
    requires Contains(cs[k], adr) && Port(cs, k) < INTEGER_BITS
    ensures SlaveSel(GenMux(cs, w), adr) == Port(cs, k)
  {
    LastContainingWins(cs, w, adr, true, k);
  }

  /** The addressed slave's response is returned. */
  lemma ResponseIsSlaves(
      cs: seq<Config>, w: nat, adr: nat, k: nat, rs: seq<Reply>, r: Replies, wbmErr: bool, dw: nat)
    requires Generated(cs, w) && Aligned(cs) && Disjoint(cs) && k < |cs| && adr < Pow(w)
    requires Contains(cs[k], adr) && Port(cs, k) < INTEGER_BITS
    requires |rs| == |cs| && Wired(rs, r, dw)
    ensures MuxOut(GenMux(cs, w), adr, r, wbmErr, dw) == rs[k].(err := rs[k].err || wbmErr)
  {
    SelectedPort(cs, w, adr, k);
    PortReplies(rs, r, wbmErr, dw, k, SlaveSel(GenMux(cs, w), adr));
  }

  /** An access reports an error in the next clock if and only if no range contains it. */
  lemma ErrorIffUnmapped(cs: seq<Config>, w: nat, adr: nat, cyc: bool)
    requires Generated(cs, w) && Aligned(cs) && adr < Pow(w)
    ensures NextErr(GenMux(cs, w), adr, cyc) <==> cyc && forall k :: 0 <= k < |cs| ==> !Contains(cs[k], adr)
  {
    VectorContains(cs, w, adr);
    NoneSet(cs, MatchVector(GenMux(cs, w), adr, |cs|), adr);
  }

  lemma NoneSet(cs: seq<Config>, bits: seq<bool>, adr: nat)
    requires |cs| == |bits|
    requires forall l: nat :: l < |cs| ==> BitSet(bits, Port(cs, l)) == Contains(cs[l], adr)
    ensures Zeros(bits) <==> forall k :: 0 <= k < |cs| ==> !Contains(cs[k], adr)
  {
    if !Zeros(bits) {
      var j :| 0 <= j < |bits| && BitSet(bits, j);
      assert Port(cs, Port(cs, j)) == j;
    }
  }

  /** A slave on port 32 or above hangs its master: no slave is addressed and no error follows. */
  lemma PortsPast32Hang(cs: seq<Config>, w: nat, adr: nat, k: nat, l: nat)
    requires Generated(cs, w) && Aligned(cs) && Disjoint(cs) && adr < Pow(w)
    requires k < |cs| && Contains(cs[k], adr) && Port(cs, k) >= INTEGER_BITS && l < |cs|
    ensures !CycOut(GenMux(cs, w), adr, true, Port(cs, l)) && !NextErr(GenMux(cs, w), adr, true)
  {
    DecodeReachesSlave(cs, w, adr, true, l);
    ErrorIffUnmapped(cs, w, adr, true);
  }
}
