/** Wishbone B3 burst address arithmetic, as written in wb_bfm_common.v, in the
    burst bridge and (on word addresses) in wb_common.v. */
module WbBurst {
  import opened Arith

  datatype BurstType = Linear | Wrap4 | Wrap8 | Wrap16 | Constant

  /** The burst types of the bus; a constant address is a cycle type there. */
  type Bte = t: BurstType | !t.Constant? witness Linear

  const ADDRESS_SPACE: nat := 0x1_0000_0000

  type Addr = a: nat | a < ADDRESS_SPACE

  predicate IsWrap(t: BurstType) { t.Wrap4? || t.Wrap8? || t.Wrap16? }

  /** Beats after which a wrapping burst is back at its start. */
  function WrapBeats(t: BurstType): nat
    requires IsWrap(t)
  {
    match t
    case Wrap4 => 4
    case Wrap8 => 8
    case Wrap16 => 16
  }

  /** {a[msb:k], a[k-1:0] + d} with 2^k == m: only the low field steps, in its own width. */
  function StepLowField(a: nat, m: nat, d: nat): nat
    requires m > 0
  {
    a / m * m + (a % m + d) % m
  }

  /** Byte address of the next beat. */
  function NextAddr(a: Addr, t: BurstType): (r: Addr)
  {
    match t
    case Linear => (a + 4) % ADDRESS_SPACE
    case Wrap4 => LowFieldInSpace(a, 16); StepLowField(a, 16, 4)
    case Wrap8 => LowFieldInSpace(a, 32); StepLowField(a, 32, 4)
    case Wrap16 => LowFieldInSpace(a, 64); StepLowField(a, 64, 4)
    case Constant => a
  }

  /** wb_next_adr for an incrementing 32-bit burst: shift to a word address, step the
      word field, shift back. */
  function WbNextAdr(a: Addr, t: BurstType): Addr
    requires !t.Constant?
  {
    var w := a / 4;
    var w' := match t
      case Linear => w + 1
      case Wrap4 => StepLowField(w, 4, 1)
      case Wrap8 => StepLowField(w, 8, 1)
      case Wrap16 => StepLowField(w, 16, 1);
    (w' * 4) % ADDRESS_SPACE
  }

  /** Address of beat k of a burst that starts at a. */
  function Beat(a: Addr, t: BurstType, k: nat): Addr {
    if k == 0 then a else NextAddr(Beat(a, t, k - 1), t)
  }

  lemma LowFieldInSpace(a: Addr, m: nat)
    requires m == 16 || m == 32 || m == 64
    ensures StepLowField(a, m, 4) < ADDRESS_SPACE
  {
  }

  lemma StepFromBase(q: nat, x: nat, m: nat)
    requires m >= 4
    ensures StepLowField(q * m + x % m, m, 4) == q * m + (x + 4) % m
  {
    ModUnique(q * m + x % m, m, q, x % m);
    ModStep(x, 4, m);
  }

  /** k steps of a low field. */
  function Steps(a: nat, m: nat, k: nat): nat
    requires m > 0
  {
    if k == 0 then a else StepLowField(Steps(a, m, k - 1), m, 4)
  }

  lemma {:induction false} StepsClosedForm(a: nat, q: nat, m: nat, k: nat)
    requires m >= 4 && a == q * m + a % m
    ensures Steps(a, m, k) == q * m + (a + 4 * k) % m
  {
    if k > 0 {
      StepsClosedForm(a, q, m, k - 1);
      StepFromBase(q, a + 4 * (k - 1), m);
    }
  }

  lemma DivMod(a: nat, m: nat, q: nat)
    requires m > 0 && q == a / m
    ensures a == q * m + a % m
  {
  }

  lemma WrapIsStep(a: Addr, t: BurstType, m: nat)
    requires IsWrap(t) && m == 4 * WrapBeats(t)
    ensures NextAddr(a, t) == StepLowField(a, m, 4)
  {
  }

  lemma {:induction false} WrapIsSteps(a: Addr, t: BurstType, k: nat, m: nat)
    requires IsWrap(t) && m == 4 * WrapBeats(t)
    ensures Beat(a, t, k) == Steps(a, m, k)
  {
    if k > 0 {
      WrapIsSteps(a, t, k - 1, m);
      WrapIsStep(Beat(a, t, k - 1), t, m);
    }
  }

  lemma WrapFromStart(a: Addr, t: BurstType, k: nat, m: nat, q: nat)
    requires IsWrap(t) && m == 4 * WrapBeats(t) && q == a / m
    ensures Beat(a, t, k) == q * m + (a + 4 * k) % m
  {
    WrapIsSteps(a, t, k, m);
    DivMod(a, m, q);
    StepsClosedForm(a, q, m, k);
  }

  lemma WrapClosedForm(a: Addr, t: BurstType, k: nat)
    requires IsWrap(t)
    ensures var m := 4 * WrapBeats(t); Beat(a, t, k) == a / m * m + (a + 4 * k) % m
  {
    WrapFromStart(a, t, k, 4 * WrapBeats(t), a / (4 * WrapBeats(t)));
  }

  lemma {:induction false} LinearClosedForm(a: Addr, k: nat)
    ensures Beat(a, Linear, k) == (a + 4 * k) % ADDRESS_SPACE
  {
    if k > 0 {
      LinearClosedForm(a, k - 1);
      ModStep(a + 4 * (k - 1), 4, ADDRESS_SPACE);
    } else {
      ModUnique(a, ADDRESS_SPACE, 0, a);
    }
  }

  lemma {:induction false} ConstantStays(a: Addr, k: nat)
    ensures Beat(a, Constant, k) == a
  {
    if k > 0 {
      ConstantStays(a, k - 1);
    }
  }

  /** The wrap successor never leaves the aligned block of the start address. */
  lemma WrapStaysInBlock(a: Addr, t: BurstType, k: nat)
    requires IsWrap(t)
    ensures Beat(a, t, k) / (4 * WrapBeats(t)) == a / (4 * WrapBeats(t))
  {
    var m := 4 * WrapBeats(t);
    WrapClosedForm(a, t, k);
    ModUnique(Beat(a, t, k), m, a / m, (a + 4 * k) % m);
  }

  /** The wrap successor has order exactly WrapBeats(t). */
  lemma WrapOrder(a: Addr, t: BurstType, i: nat, j: nat)
    requires IsWrap(t)
    ensures Beat(a, t, i) == Beat(a, t, j) <==> i % WrapBeats(t) == j % WrapBeats(t)
  {
    WrapClosedForm(a, t, i);
    WrapClosedForm(a, t, j);
    ModScale(a, WrapBeats(t), 4 * WrapBeats(t), i, j);
  }

  /** A linear burst revisits an address only by going round the whole address space. */
  lemma LinearOrder(a: Addr, i: nat, j: nat)
    ensures Beat(a, Linear, i) == Beat(a, Linear, j) <==> i % 0x4000_0000 == j % 0x4000_0000
  {
    LinearClosedForm(a, i);
    LinearClosedForm(a, j);
    ModScale(a, 0x4000_0000, ADDRESS_SPACE, i, j);
  }

  /** Shifting to words, stepping a word field of n and shifting back is stepping the byte
      field of 4*n, on word-aligned addresses. */
  lemma WordFieldIsByteField(w: nat, n: nat)
    requires n > 0
    ensures StepLowField(w, n, 1) * 4 == StepLowField(4 * w, 4 * n, 4)
  {
    var q, r := w / n, w % n;
    assert 4 * w == q * (4 * n) + 4 * r;
    ModUnique(4 * w, 4 * n, q, 4 * r);
    ModStep(w, 1, n);
    ModStep(4 * w, 4, 4 * n);
    assert q * (4 * n) == 4 * (q * n);
  }

  /** A low field of more than one value moves when it is stepped by one. */
  lemma StepLowFieldMoves(i: nat, m: nat, q: nat)
    requires m >= 2 && q == i / m
    ensures StepLowField(i, m, 1) != i
  {
    var r := i % m;
    assert i == q * m + r;
    if r + 1 < m {
      ModUnique(r + 1, m, 0, r + 1);
    } else {
      ModUnique(r + 1, m, 1, 0);
    }
  }

  lemma WordStep(w: nat, a: Addr, t: BurstType, n: nat)
    requires IsWrap(t) && n == WrapBeats(t) && w == a / 4
    ensures WbNextAdr(a, t) == (StepLowField(w, n, 1) * 4) % ADDRESS_SPACE
  {
  }

  lemma InSpace(x: nat)
    requires x < ADDRESS_SPACE
    ensures x % ADDRESS_SPACE == x
  {
  }

  lemma WrapAgreement(a: Addr, t: BurstType, w: nat, n: nat)
    requires IsWrap(t) && n == WrapBeats(t) && w == a / 4 && a == 4 * w
    ensures WbNextAdr(a, t) == NextAddr(a, t)
  {
    WordStep(w, a, t, n);
    WordFieldIsByteField(w, n);
    WrapIsStep(a, t, 4 * n);
    InSpace(NextAddr(a, t));
  }

  /** The two libraries step the same way on every word-aligned address. */
  lemma NextAddrAgreement(a: Addr, t: BurstType)
    requires !t.Constant? && a % 4 == 0
    ensures WbNextAdr(a, t) == NextAddr(a, t)
  {
    var w := a / 4;
    assert a == 4 * w;
    if IsWrap(t) {
      WrapAgreement(a, t, w, WrapBeats(t));
    }
  }
}
