/** The matchpoint hash table of gdb.c: 1021 chains of linked entries, and the memory
    breakpoints that live in it. */
module Matchpoints {
  import opened Common

  datatype MpType = BpMemory | BpHardware | WpWrite | WpRead | WpAccess

  const MP_HASH_SIZE: nat := 1021
  const OR1K_TRAP_INSTR: Uint32 := 0x2100_0001

  datatype Key = Key(ty: MpType, addr: Uint32)

  /** The value of a table entry. */
  datatype Entry = Entry(ty: MpType, addr: Uint32, instr: Uint32)

  function KeyOf(e: Entry): Key { Key(e.ty, e.addr) }

  // ---------------------------------------------------------------- a chain as a value

  type Chain = seq<Entry>

  /** Index of the first entry with this key, or the length of the chain. */
  function Find(c: Chain, k: Key): (i: nat)
    ensures i <= |c| && (i < |c| ==> KeyOf(c[i]) == k)
    ensures forall j :: 0 <= j < i ==> KeyOf(c[j]) != k
  {
    if c == [] || KeyOf(c[0]) == k then 0 else 1 + Find(c[1..], k)
  }

  function ChainAdd(c: Chain, e: Entry): Chain {
    if Find(c, KeyOf(e)) < |c| then c else [e] + c
  }

  function ChainDelete(c: Chain, k: Key): Chain {
    var i := Find(c, k);
    if i < |c| then c[..i] + c[i + 1..] else c
  }

  predicate Distinct(c: Chain) {
    forall i, j :: 0 <= i < j < |c| ==> KeyOf(c[i]) != KeyOf(c[j])
  }

  // ---------------------------------------------------------------- the table as a value

  /** One chain per hash value. */
  type Table = t: seq<Chain> | |t| == MP_HASH_SIZE witness seq(MP_HASH_SIZE, i => [])

  function Hash(addr: Uint32): nat { addr % MP_HASH_SIZE }

  function EmptyTable(): Table { seq(MP_HASH_SIZE, i => []) }

  function Add(t: Table, e: Entry): Table { t[Hash(e.addr) := ChainAdd(t[Hash(e.addr)], e)] }

  function Delete(t: Table, k: Key): Table { t[Hash(k.addr) := ChainDelete(t[Hash(k.addr)], k)] }

  predicate Has(t: Table, k: Key) {
    var c := t[Hash(k.addr)];
    Find(c, k) < |c|
  }

  function Lookup(t: Table, k: Key): Entry
    requires Has(t, k)
  {
    var c := t[Hash(k.addr)];
    c[Find(c, k)]
  }

  /** Chain i holds only addresses that hash to i, and no key twice. */
  predicate WellHashed(t: Table) {
    forall i :: 0 <= i < MP_HASH_SIZE ==>
                  Distinct(t[i]) && forall j :: 0 <= j < |t[i]| ==> Hash(t[i][j].addr) == i
  }

  lemma {:induction false} FindUnique(c: Chain, k: Key, i: nat)
    requires Distinct(c) && i < |c| && KeyOf(c[i]) == k
    ensures Find(c, k) == i
  {
  }

  lemma ChainDeleteAt(c: Chain, k: Key, j: nat)
    requires Find(c, k) < |c| && j < |c| - 1
    ensures |ChainDelete(c, k)| == |c| - 1
    ensures ChainDelete(c, k)[j] == if j < Find(c, k) then c[j] else c[j + 1]
  {
  }

  lemma ChainDeleteDistinct(c: Chain, k: Key)
    requires Distinct(c)
    ensures Distinct(ChainDelete(c, k))
    ensures forall e :: e in ChainDelete(c, k) ==> e in c && KeyOf(e) != k
  {
    var n, d := Find(c, k), ChainDelete(c, k);
    if n < |c| {
      forall i, j | 0 <= i < j < |d|
        ensures KeyOf(d[i]) != KeyOf(d[j])
      {
        ChainDeleteAt(c, k, i);
        ChainDeleteAt(c, k, j);
      }
      forall j | 0 <= j < |d|
        ensures d[j] in c && KeyOf(d[j]) != k
      {
        ChainDeleteAt(c, k, j);
      }
    }
  }

  /** Deleting k from a chain changes what is found for k only. */
  lemma FindDelete(c: Chain, k: Key, k': Key)
    requires Distinct(c)
    ensures var d := ChainDelete(c, k);
            && (Find(d, k') < |d| <==> k' != k && Find(c, k') < |c|)
            && (k' != k && Find(c, k') < |c| ==> d[Find(d, k')] == c[Find(c, k')])
  {
    ChainDeleteDistinct(c, k);
    if Find(c, k) < |c| && k' != k && Find(c, k') < |c| {
      FindBehind(c, k, k');
    }
  }

  /** Where an entry is found once another one is gone. */
  lemma FindBehind(c: Chain, k: Key, k': Key)
    requires Distinct(c) && Find(c, k) < |c| && k' != k && Find(c, k') < |c|
    ensures var i, j, d := Find(c, k), Find(c, k'), ChainDelete(c, k);
            var j' := if i < j then j - 1 else j;
            j' < |d| && Find(d, k') == j' && d[j'] == c[j]
  {
    var i, j, d := Find(c, k), Find(c, k'), ChainDelete(c, k);
    assert i != j;
    var j' := if i < j then j - 1 else j;
    assert j' < |d|;
    assert Distinct(d) by {
      ChainDeleteDistinct(c, k);
    }
    assert d[j'] == c[j] by {
      ChainDeleteAt(c, k, j');
    }
    FindUnique(d, k', j');
  }

  lemma ChainAddKeepsDistinct(c: Chain, e: Entry)
    requires Distinct(c)
    ensures Distinct(ChainAdd(c, e))
  {
  }

  /** Add keeps an entry that is already there and otherwise adds exactly this one. */
  lemma AddRefinesMap(t: Table, e: Entry, k: Key)
    requires WellHashed(t)
    ensures WellHashed(Add(t, e))
    ensures Has(Add(t, e), k) <==> Has(t, k) || k == KeyOf(e)
    ensures Has(t, k) ==> Lookup(Add(t, e), k) == Lookup(t, k)
    ensures !Has(t, k) && k == KeyOf(e) ==> Lookup(Add(t, e), k) == e
  {
    var h := Hash(e.addr);
    ChainAddKeepsDistinct(t[h], e);
    if Hash(k.addr) == h && Find(t[h], KeyOf(e)) == |t[h]| {
      assert ([e] + t[h])[1..] == t[h];
    }
  }

  /** Delete removes exactly this key and leaves every other entry as it was. */
  lemma DeleteRefinesMap(t: Table, k: Key, k': Key)
    requires WellHashed(t)
    ensures WellHashed(Delete(t, k))
    ensures Has(Delete(t, k), k') <==> Has(t, k') && k' != k
    ensures Has(t, k') && k' != k ==> Lookup(Delete(t, k), k') == Lookup(t, k')
    ensures |Delete(t, k)[Hash(k.addr)]| == |t[Hash(k.addr)]| - (if Has(t, k) then 1 else 0)
  {
    var h := Hash(k.addr);
    FindDelete(t[h], k, k');
    ChainDeleteDistinct(t[h], k);
    forall j | 0 <= j < |Delete(t, k)[h]|
      ensures Hash(Delete(t, k)[h][j].addr) == h
    {
      assert Delete(t, k)[h][j] in t[h];
    }
  }

  // ---------------------------------------------------------------- the linked table

  class MpEntry {
    const ty: MpType
    const addr: Uint32
    const instr: Uint32
    var next: MpEntry?

    constructor (ty: MpType, addr: Uint32, instr: Uint32, next: MpEntry?)
      ensures this.ty == ty && this.addr == addr && this.instr == instr && this.next == next
    {
      this.ty, this.addr, this.instr, this.next := ty, addr, instr, next;
    }

    ghost function Value(): Entry {
      Entry(ty, addr, instr)
    }
  }

  /** Node j of a chain, or the null behind its last node. */
  ghost function NodeAt(nodes: seq<MpEntry>, j: nat): MpEntry? {
    if j < |nodes| then nodes[j] else null
  }

  /** From head, the next pointers run through exactly these nodes and then end. */
  ghost predicate Linked(head: MpEntry?, nodes: seq<MpEntry>)
    reads nodes
  {
    && head == NodeAt(nodes, 0)
    && forall j {:trigger nodes[j].next} :: 0 <= j < |nodes| ==> nodes[j].next == NodeAt(nodes, j + 1)
  }

  lemma LinkedCons(e: MpEntry, nodes: seq<MpEntry>)
    requires Linked(e.next, nodes)
    ensures Linked(e, [e] + nodes)
  {
    forall j | 0 <= j < |nodes| + 1
      ensures ([e] + nodes)[j].next == NodeAt([e] + nodes, j + 1)
    {
      if j > 0 {
        assert nodes[j - 1].next == NodeAt(nodes, j);
      }
    }
  }

  ghost function Values(nodes: seq<MpEntry>): (c: Chain)
    ensures |c| == |nodes|
    ensures forall j :: 0 <= j < |nodes| ==> c[j] == nodes[j].Value()
  {
    seq(|nodes|, j requires 0 <= j < |nodes| => nodes[j].Value())
  }

  ghost function TableOf(nodes: seq<seq<MpEntry>>): (t: Table)
    requires |nodes| == MP_HASH_SIZE
    ensures forall i :: 0 <= i < MP_HASH_SIZE ==> t[i] == Values(nodes[i])
  {
    seq(MP_HASH_SIZE, i requires 0 <= i < MP_HASH_SIZE => Values(nodes[i]))
  }

  lemma TableUpdate(nodes: seq<seq<MpEntry>>, h: nat, chain: seq<MpEntry>)
    requires |nodes| == MP_HASH_SIZE && h < MP_HASH_SIZE
    ensures TableOf(nodes[h := chain]) == TableOf(nodes)[h := Values(chain)]
  {
    var t, t' := TableOf(nodes[h := chain]), TableOf(nodes)[h := Values(chain)];
    assert forall i :: 0 <= i < MP_HASH_SIZE ==> t[i] == t'[i];
  }

  lemma ValuesCons(e: MpEntry, chain: seq<MpEntry>)
    ensures Values([e] + chain) == [e.Value()] + Values(chain)
  {
  }

  lemma ValuesRemove(chain: seq<MpEntry>, i: nat)
    requires i < |chain|
    ensures Values(chain[..i] + chain[i + 1..]) == Values(chain)[..i] + Values(chain)[i + 1..]
  {
  }

  /** A node and its successor in a chain. */
  lemma Follow(head: MpEntry?, ns: seq<MpEntry>, i: nat)
    requires Linked(head, ns) && i < |ns|
    ensures NodeAt(ns, i) == ns[i] && ns[i].next == NodeAt(ns, i + 1)
    ensures KeyOf(Values(ns)[i]) == Key(ns[i].ty, ns[i].addr)
  {
  }

  /** The search loop that the three table operations share. */
  method Search(head: MpEntry?, ty: MpType, addr: Uint32, ghost ns: seq<MpEntry>)
    returns (prev: MpEntry?, curr: MpEntry?, ghost i: nat)
    requires Linked(head, ns)
    ensures i == Find(Values(ns), Key(ty, addr)) <= |ns| && curr == NodeAt(ns, i)
    ensures prev == if i == 0 then null else ns[i - 1]
  {
    ghost var c, k := Values(ns), Key(ty, addr);
    prev, curr, i := null, head, 0;
    while curr != null && !(ty == curr.ty && addr == curr.addr)
      invariant i <= |ns| && curr == NodeAt(ns, i)
      invariant prev == if i == 0 then null else ns[i - 1]
      invariant forall j :: 0 <= j < i ==> KeyOf(c[j]) != k
      decreases |ns| - i
    {
      Follow(head, ns, i);
      prev := curr;
      curr := curr.next;
      i := i + 1;
    }
    if curr != null {
      Follow(head, ns, i);
    }
    FindIs(c, k, i);
  }

  lemma {:induction false} FindIs(c: Chain, k: Key, i: nat)
    requires i <= |c| && (i < |c| ==> KeyOf(c[i]) == k)
    requires forall j :: 0 <= j < i ==> KeyOf(c[j]) != k
    ensures Find(c, k) == i
    decreases i
  {
    if i > 0 {
      FindIs(c[1..], k, i - 1);
    }
  }

  /** prev->next = curr->next */
  method Bypass(ghost head: MpEntry?, prev: MpEntry, curr: MpEntry, ghost ns: seq<MpEntry>, ghost i: nat)
    requires Linked(head, ns) && 0 < i < |ns| && ns[i] == curr && ns[i - 1] == prev
    requires forall j :: 0 <= j < |ns| && ns[j] == prev ==> j == i - 1
    modifies prev`next
    ensures Linked(head, ns[..i] + ns[i + 1..])
  {
    assert curr.next == NodeAt(ns, i + 1);
    prev.next := curr.next;
    ghost var ns' := ns[..i] + ns[i + 1..];
    forall j | 0 <= j < |ns'|
      ensures ns'[j].next == NodeAt(ns', j + 1)
    {
      var j' := if j < i then j else j + 1;
      assert ns'[j] == ns[j'] && old(ns[j'].next) == NodeAt(ns, j' + 1);
    }
  }

  /** All nodes of the table are among es. */
  ghost predicate Within(nodes: seq<seq<MpEntry>>, es: set<MpEntry>) {
    forall i, j :: 0 <= i < |nodes| && 0 <= j < |nodes[i]| ==> nodes[i][j] in es
  }

  lemma WithoutNode(nodes: seq<seq<MpEntry>>, es: set<MpEntry>, h: nat, i: nat)
    requires h < |nodes| && i < |nodes[h]| && Within(nodes, es)
    requires forall h', i' :: 0 <= h' < |nodes| && 0 <= i' < |nodes[h']| && nodes[h'][i'] == nodes[h][i] ==>
               h' == h && i' == i
    ensures Within(nodes[h := nodes[h][..i] + nodes[h][i + 1..]], es - {nodes[h][i]})
  {
    var chain := nodes[h][..i] + nodes[h][i + 1..];
    forall j | 0 <= j < |chain|
      ensures chain[j] in es && chain[j] != nodes[h][i]
    {
      assert chain[j] == nodes[h][if j < i then j else j + 1];
    }
  }

  class MpHash {
    const mpHash: array<MpEntry?>
    ghost var nodes: seq<seq<MpEntry>>
    ghost var repr: set<MpEntry>

    ghost predicate Shape()
      reads this, mpHash
    {
      && mpHash.Length == |nodes| == MP_HASH_SIZE
      && Within(nodes, repr)
    }

    ghost function Value(): (t: Table)
      requires |nodes| == MP_HASH_SIZE
      reads this
    {
      TableOf(nodes)
    }

    /** Every chain is a finite list of owned nodes. */
    ghost predicate Links()
      reads this, mpHash, repr
    {
      Shape() && forall i :: 0 <= i < MP_HASH_SIZE ==> Linked(mpHash[i], nodes[i])
    }

    /** Hashing and distinct keys make the chains acyclic and disjoint. */
    ghost predicate Valid()
      reads this, mpHash, repr
    {
      Links() && WellHashed(Value())
    }

    lemma NodesDisjoint(i: nat, j: nat, i': nat, j': nat)
      requires |nodes| == MP_HASH_SIZE && WellHashed(Value()) && i < MP_HASH_SIZE && i' < MP_HASH_SIZE
      requires j < |nodes[i]| && j' < |nodes[i']| && nodes[i][j] == nodes[i'][j']
      ensures i == i' && j == j'
    {
      assert Value()[i][j] == Value()[i'][j'];
    }

    /** mp_hash_init */
    constructor ()
      ensures Valid() && fresh(mpHash) && fresh(repr) && Value() == EmptyTable()
    {
      mpHash := new MpEntry?[MP_HASH_SIZE](_ => null);
      nodes := seq(MP_HASH_SIZE, i => []);
      repr := {};
      new;
      assert Value() == EmptyTable();
    }

    /** mp_hash_lookup */
    method MpHashLookup(ty: MpType, addr: Uint32) returns (e: MpEntry?)
      requires Valid()
      ensures e == null <==> !Has(Value(), Key(ty, addr))
      ensures e != null ==> e in repr && e.Value() == Lookup(Value(), Key(ty, addr))
    {
      var _, curr, i := Search(mpHash[addr % MP_HASH_SIZE], ty, addr, nodes[Hash(addr)]);
      e := curr;
    }

    /** Link a new entry at the head of a chain. */
    method Push(hv: nat, ty: MpType, addr: Uint32, instr: Uint32) returns (ghost e: MpEntry)
      requires Links() && hv < MP_HASH_SIZE
      modifies this, mpHash
      ensures Links() && fresh(repr - old(repr))
      ensures fresh(e) && e.Value() == Entry(ty, addr, instr)
      ensures nodes == old(nodes)[hv := [e] + old(nodes)[hv]]
    {
      assert Linked(mpHash[hv], nodes[hv]);
      var curr := new MpEntry(ty, addr, instr, mpHash[hv]);
      mpHash[hv] := curr;
      nodes := nodes[hv := [curr] + nodes[hv]];
      repr := repr + {curr};
      LinkedCons(curr, old(nodes)[hv]);
      e := curr;
    }

    /** mp_hash_add */
    method MpHashAdd(ty: MpType, addr: Uint32, instr: Uint32)
      requires Valid()
      modifies this, mpHash
      ensures Valid() && fresh(repr - old(repr))
      ensures Value() == Add(old(Value()), Entry(ty, addr, instr))
    {
      ghost var t, hv := Value(), Hash(addr);
      var _, curr, i := Search(mpHash[addr % MP_HASH_SIZE], ty, addr, nodes[Hash(addr)]);
      if curr != null {
        assert t[hv := t[hv]] == t;
        return;
      }
      AddRefinesMap(t, Entry(ty, addr, instr), Key(ty, addr));
      ghost var e := Push(addr % MP_HASH_SIZE, ty, addr, instr);
      TableUpdate(old(nodes), hv, [e] + old(nodes)[hv]);
      ValuesCons(e, old(nodes)[hv]);
    }

    /** Unlink the first node of a chain. */
    method UnlinkHead(hv: nat, curr: MpEntry)
      requires Links() && hv < MP_HASH_SIZE && nodes[hv] != [] && nodes[hv][0] == curr
      requires Once(curr, hv, 0)
      modifies this, mpHash
      ensures Links() && repr == old(repr) - {curr}
      ensures nodes == old(nodes)[hv := old(nodes)[hv][1..]]
    {
      ghost var ns := nodes[hv];
      assert Linked(mpHash[hv], ns);
      mpHash[hv] := curr.next;
      nodes := nodes[hv := ns[1..]];
      repr := repr - {curr};
      forall j | 0 <= j < |ns| - 1
        ensures ns[1..][j].next == NodeAt(ns[1..], j + 1)
      {
        assert ns[j + 1].next == NodeAt(ns, j + 2);
      }
    }

    /** Unlink node i of a chain behind its predecessor. */
    method UnlinkAfter(hv: nat, prev: MpEntry, curr: MpEntry, ghost i: nat)
      requires Links() && hv < MP_HASH_SIZE && 0 < i < |nodes[hv]|
      requires nodes[hv][i] == curr && nodes[hv][i - 1] == prev
      requires Once(curr, hv, i) && Once(prev, hv, i - 1)
      modifies this, prev`next
      ensures Links() && repr == old(repr) - {curr}
      ensures nodes == old(nodes)[hv := old(nodes)[hv][..i] + old(nodes)[hv][i + 1..]]
    {
      ghost var ns := nodes[hv];
      assert Linked(mpHash[hv], ns);
      WithoutNode(nodes, repr, hv, i);
      Bypass(mpHash[hv], prev, curr, ns, i);
      forall h | 0 <= h < MP_HASH_SIZE && h != hv
        ensures Linked(mpHash[h], nodes[h])
      {
        assert old(Linked(mpHash[h], nodes[h]));
        assert forall j :: 0 <= j < |nodes[h]| ==> nodes[h][j] != prev;
      }
      nodes := nodes[hv := ns[..i] + ns[i + 1..]];
      repr := repr - {curr};
    }

    /** This node is at one place of the table only. */
    ghost predicate Once(e: MpEntry, h: nat, i: nat)
      reads this
    {
      forall h', i' :: 0 <= h' < |nodes| && 0 <= i' < |nodes[h']| && nodes[h'][i'] == e ==> h' == h && i' == i
    }

    lemma OnlyAt(h: nat, i: nat)
      requires |nodes| == MP_HASH_SIZE && WellHashed(Value()) && h < MP_HASH_SIZE && i < |nodes[h]|
      ensures Once(nodes[h][i], h, i)
    {
      forall h', i' | 0 <= h' < MP_HASH_SIZE && 0 <= i' < |nodes[h']| && nodes[h'][i'] == nodes[h][i]
        ensures h' == h && i' == i
      {
        NodesDisjoint(h, i, h', i');
      }
    }

    /** mp_hash_delete: unlinks and returns the entry, or returns null. */
    method MpHashDelete(ty: MpType, addr: Uint32) returns (e: MpEntry?)
      requires Valid()
      modifies this, mpHash, repr
      ensures Valid() && repr <= old(repr)
      ensures Value() == Delete(old(Value()), Key(ty, addr))
      ensures e == null <==> !old(Has(Value(), Key(ty, addr)))
      ensures e != null ==>
                && e in old(repr) && e !in repr
                && e.Value() == old(Lookup(Value(), Key(ty, addr)))
    {
      ghost var t, hv := Value(), Hash(addr);
      var prev, curr, i := Search(mpHash[addr % MP_HASH_SIZE], ty, addr, nodes[Hash(addr)]);
      e := curr;
      DeleteRefinesMap(t, Key(ty, addr), Key(ty, addr));
      if curr == null {
        assert t[hv := t[hv]] == t;
        return;
      }
      OnlyAt(hv, i);
      if prev == null {
        UnlinkHead(addr % MP_HASH_SIZE, curr);
        assert old(nodes)[hv][..0] + old(nodes)[hv][1..] == old(nodes)[hv][1..];
      } else {
        OnlyAt(hv, i - 1);
        UnlinkAfter(addr % MP_HASH_SIZE, prev, curr, i);
      }
      TableUpdate(old(nodes), hv, old(nodes)[hv][..i] + old(nodes)[hv][i + 1..]);
      ValuesRemove(old(nodes)[hv], i);
    }
  }

  // ---------------------------------------------------------------- memory breakpoints

  /** Target memory, a word per word-aligned address. */
  type Memory = map<Uint32, Uint32>

  function Read(m: Memory, a: Uint32): Uint32 { if a in m then m[a] else 0 }

  type WordAddr = a: Uint32 | a % 4 == 0

  function Breakpoint(a: Uint32): Key { Key(BpMemory, a) }

  /** Z0 and z0 packets, and the other matchpoint kinds, which use neither memory nor table. */
  datatype Request = Insert(addr: WordAddr) | Remove(addr: WordAddr) | Other

  datatype Target = Target(table: Table, mem: Memory)

  function InsertBreakpoint(s: Target, a: WordAddr): Target {
    Target(Add(s.table, Entry(BpMemory, a, Read(s.mem, a))), s.mem[a := OR1K_TRAP_INSTR])
  }

  function RemoveBreakpoint(s: Target, a: WordAddr): Target {
    if Has(s.table, Breakpoint(a)) then
      Target(Delete(s.table, Breakpoint(a)), s.mem[a := Lookup(s.table, Breakpoint(a)).instr])
    else Target(Delete(s.table, Breakpoint(a)), s.mem)
  }

  function Serve(s: Target, r: Request): Target {
    match r
    case Insert(a) => InsertBreakpoint(s, a)
    case Remove(a) => RemoveBreakpoint(s, a)
    case Other => s
  }

  function ServeAll(s: Target, rs: seq<Request>): Target {
    if rs == [] then s else Serve(ServeAll(s, rs[..|rs| - 1]), rs[|rs| - 1])
  }

  /** The breakpoints a debugger believes to be set after these requests. */
  function Live(rs: seq<Request>): set<Uint32> {
    if rs == [] then {}
    else
      var before := Live(rs[..|rs| - 1]);
      match rs[|rs| - 1]
      case Insert(a) => before + {a}
      case Remove(a) => before - {a}
      case Other => before
  }

  /** Memory is the original overlaid with the trap word exactly on the live set, and each live
      entry holds the original word. */
  ghost predicate Transparent(s: Target, orig: Memory, live: set<Uint32>) {
    && WellHashed(s.table)
    && (forall a: Uint32 :: Has(s.table, Breakpoint(a)) <==> a in live)
    && (forall a: Uint32 :: Read(s.mem, a) == if a in live then OR1K_TRAP_INSTR else Read(orig, a))
    && (forall a: Uint32 :: a in live ==> Lookup(s.table, Breakpoint(a)).instr == Read(orig, a))
    && (forall a: Uint32 :: a in live ==> a in s.mem)
  }

  lemma InsertTransparent(s: Target, orig: Memory, live: set<Uint32>, a: WordAddr)
    requires Transparent(s, orig, live)
    ensures Transparent(InsertBreakpoint(s, a), orig, live + {a})
  {
    var e := Entry(BpMemory, a, Read(s.mem, a));
    forall b: Uint32
      ensures Has(Add(s.table, e), Breakpoint(b)) <==> b in live + {a}
      ensures b in live + {a} ==> Lookup(Add(s.table, e), Breakpoint(b)).instr == Read(orig, b)
    {
      AddRefinesMap(s.table, e, Breakpoint(b));
    }
    AddRefinesMap(s.table, e, KeyOf(e));
  }

  lemma RemoveTransparent(s: Target, orig: Memory, live: set<Uint32>, a: WordAddr)
    requires Transparent(s, orig, live)
    ensures Transparent(RemoveBreakpoint(s, a), orig, live - {a})
  {
    var k := Breakpoint(a);
    forall b: Uint32
      ensures Has(Delete(s.table, k), Breakpoint(b)) <==> b in live - {a}
      ensures b in live - {a} ==> Lookup(Delete(s.table, k), Breakpoint(b)).instr == Read(orig, b)
    {
      DeleteRefinesMap(s.table, k, Breakpoint(b));
    }
    DeleteRefinesMap(s.table, k, k);
  }

  /** Over every request sequence, with duplicate inserts and removals of absent entries, the
      overlay is exact; once no breakpoint is live memory is the original again. */
  lemma {:induction false} BreakpointsTransparent(mem: Memory, rs: seq<Request>)
    ensures var s := ServeAll(Target(EmptyTable(), mem), rs);
            && Transparent(s, mem, Live(rs))
            && (Live(rs) == {} ==> forall a: Uint32 :: Read(s.mem, a) == Read(mem, a))
  {
    if rs != [] {
      var front, r := rs[..|rs| - 1], rs[|rs| - 1];
      var s := ServeAll(Target(EmptyTable(), mem), front);
      BreakpointsTransparent(mem, front);
      match r {
        case Insert(a) => InsertTransparent(s, mem, Live(front), a);
        case Remove(a) => RemoveTransparent(s, mem, Live(front), a);
        case Other =>
      }
    }
  }

  class GdbStub {
    const table: MpHash
    var mem: Memory

    ghost predicate Valid()
      reads this, table, table.mpHash, table.repr
    {
      table.Valid()
    }

    ghost function State(): Target
      requires Valid()
      reads this, table, table.mpHash, table.repr
    {
      Target(table.Value(), mem)
    }

    constructor (mem: Memory)
      ensures Valid() && State() == Target(EmptyTable(), mem)
      ensures fresh(table) && fresh(table.mpHash) && fresh(table.repr)
    {
      this.mem := mem;
      table := new MpHash();
    }

    /** BP_MEMORY case of rsp_insert_matchpoint */
    method RspInsertMatchpoint(addr: WordAddr)
      requires Valid()
      modifies this, table, table.mpHash
      ensures Valid() && fresh(table.repr - old(table.repr))
      ensures State() == InsertBreakpoint(old(State()), addr)
    {
      var instr := Read(mem, addr);
      table.MpHashAdd(BpMemory, addr, instr);
      mem := mem[addr := OR1K_TRAP_INSTR];
    }

    /** BP_MEMORY case of rsp_remove_matchpoint */
    method RspRemoveMatchpoint(addr: WordAddr)
      requires Valid()
      modifies this, table, table.mpHash, table.repr
      ensures Valid() && table.repr <= old(table.repr)
      ensures State() == RemoveBreakpoint(old(State()), addr)
    {
      var mpe := table.MpHashDelete(BpMemory, addr);
      if mpe != null {
        mem := mem[addr := mpe.instr];
      }
    }
  }

  /** The trap word, in the memory itself. */
  lemma TrapsInMemory(s: Target, orig: Memory, live: set<Uint32>, a: Uint32)
    requires Transparent(s, orig, live) && a in live
    ensures a in s.mem && s.mem[a] == 0x2100_0001
  {
    assert Read(s.mem, a) == OR1K_TRAP_INSTR;
  }

  /** Request j inserts a, and no later one removes it. */
  predicate StillSet(rs: seq<Request>, a: WordAddr, j: nat) {
    j < |rs| && rs[j] == Insert(a) && forall l :: j < l < |rs| ==> rs[l] != Remove(a)
  }

  /** A breakpoint is live if and only if it was inserted and not removed since. */
  lemma {:induction false} LiveIffInserted(rs: seq<Request>, a: WordAddr)
    ensures a in Live(rs) <==> exists j: nat :: StillSet(rs, a, j)
  {
    if rs != [] {
      var n := |rs| - 1;
      var front := rs[..n];
      LiveIffInserted(front, a);
      if j: nat :| StillSet(front, a, j) {
        assert StillSet(rs, a, j) <==> rs[n] != Remove(a);
      }
      if j: nat :| StillSet(rs, a, j) {
        assert j < n ==> StillSet(front, a, j);
      }
      assert StillSet(rs, a, n) <==> rs[n] == Insert(a);
    }
  }

  /** What a well-formed table is, spelled out: chain i holds addresses that are i modulo 1021,
      and no chain holds a key twice. */
  lemma ChainsByHash(t: Table, i: nat, j: nat)
    requires WellHashed(t) && i < 1021 && j < |t[i]|
    ensures t[i][j].addr % 1021 == i
    ensures forall i', j' :: 0 <= i' < 1021 && 0 <= j' < |t[i']| && t[i'][j'].ty == t[i][j].ty && t[i'][j'].addr == t[i][j].addr
              ==> i' == i && j' == j
  {
  }
}
