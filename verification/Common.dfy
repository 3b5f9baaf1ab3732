/** What several of the models share. */
module Common {

  datatype Option<+T> = None | Some(value: T)

  type Byte = n: nat | n < 256

  type Uint32 = n: nat | n < 0x1_0000_0000

  /** A byte by its bits, bit 0 first. */
  type Octet = b: seq<bool> | |b| == 8 witness [false, false, false, false, false, false, false, false]

  /** Words of data_storage, the debug link's buffer on the simulator side. */
  const STORAGE_WORDS: nat := 4096

  /** A 32-bit word by byte lanes, lane 3 first, and one select line for each. */
  datatype Lanes = Lanes(b3: Byte, b2: Byte, b1: Byte, b0: Byte)
  datatype Select = Select(s3: bool, s2: bool, s1: bool, s0: bool)

  /** Byte merge of a partial write. */
  function Merge(before: Lanes, data: Lanes, sel: Select): Lanes {
    Lanes(if sel.s3 then data.b3 else before.b3, if sel.s2 then data.b2 else before.b2,
          if sel.s1 then data.b1 else before.b1, if sel.s0 then data.b0 else before.b0)
  }

  /** Byte lane i of a word, and whether it is selected. */
  function Lane(w: Lanes, i: nat): (b: Byte)
    requires i < 4
    ensures b == [w.b0, w.b1, w.b2, w.b3][i]
  {
    match i
    case 0 => w.b0
    case 1 => w.b1
    case 2 => w.b2
    case 3 => w.b3
  }

  predicate Selects(sel: Select, i: nat)
    requires i < 4
    ensures Selects(sel, i) == [sel.s0, sel.s1, sel.s2, sel.s3][i]
  {
    match i
    case 0 => sel.s0
    case 1 => sel.s1
    case 2 => sel.s2
    case 3 => sel.s3
  }

  /** A merge takes the selected lanes and leaves the others. */
  lemma MergedLanes(before: Lanes, data: Lanes, sel: Select, i: nat)
    requires i < 4
    ensures Lane(Merge(before, data, sel), i) == if Selects(sel, i) then Lane(data, i) else Lane(before, i)
  {
  }

  lemma Regroup<T>(a: seq<T>, b: seq<T>, c: seq<T>)
    ensures a + (b + c) == a + b + c
  {
  }

  lemma HeadAndTail<T>(a: seq<T>, b: seq<T>)
    requires a != []
    ensures (a + b)[0] == a[0] && (a + b)[1..] == a[1..] + b
  {
  }
}
