/** The simulator's reading side as jp_vpi.c and the command loop of vpi_debug_module.v have it:
    straight-line calls and a block loop over the server-to-simulator pipe. Each read is checked
    against the protocol's reading schedule, so these loops are the SimRead steps of DebugPipes. */
module VpiSide {
  import opened Common
  import opened DebugPipes

  /** How a stream that begins with two words and a block comes apart. */
  lemma Prefix(stream: Bytes, sent: Bytes)
    requires sent <= stream && |sent| >= 8
    ensures stream[4..][..4] == sent[4..8]
    ensures [] + stream[..4] + stream[4..][..4] == sent[..8] && stream[4..][4..] == stream[8..]
    ensures stream[8..][..|sent| - 8] == sent[8..] && stream[8..][|sent| - 8..] == stream[|sent|..]
    ensures sent[..8] + sent[8..] == sent && sent[..8][4..8] == sent[4..8]
  {
  }

  /** What is behind a header does not change it. */
  lemma HeaderStays(head: Bytes, more: Bytes)
    requires |head| == 8
    ensures (head + more)[4..8] == head[4..8]
  {
  }

  lemma TailRead(stream: Bytes, n: nat, length: nat)
    requires n <= length <= |stream|
    ensures stream[..n] + stream[n..][..length - n] == stream[..length] && stream[n..][length - n..] == stream[length..]
  {
  }

  /** These bytes are the first words of the storage, in order. */
  predicate InStorage(data: Bytes, storage: seq<Word>) {
    && |data| % 4 == 0 && |data| / 4 <= |storage|
    && forall k :: 0 <= k < |data| / 4 ==> WordOf(data[4 * k..4 * k + 4]) == storage[k]
  }

  lemma WordsKept(data: Bytes, storage: seq<Word>)
    requires |data| / 4 <= |storage|
    requires forall k :: 0 <= k < |data| / 4 ==> storage[k] == WordOf(data[4 * k..4 * k + 4])
    ensures InStorage(WholeWords(data), storage) && WholeWords(data) <= data && |data| - |WholeWords(data)| < 4
  {
    var kept := WholeWords(data);
    forall k | 0 <= k < |data| / 4
      ensures kept[4 * k..4 * k + 4] == data[4 * k..4 * k + 4]
    {
    }
  }

  class Vpi {
    /** What arrives on the pipe; reads wait for it. */
    var pipe: Bytes
    /** The command under way, the bytes read for it and the whole words among its reads. */
    ghost var cmd: Byte
    ghost var got: Bytes
    ghost var words: nat

    constructor (stream: Bytes)
      ensures pipe == stream && got == [] && words == 0
    {
      pipe, cmd, got, words := stream, 0, [], 0;
    }

    /** One read of the pipe, which the protocol has to expect. */
    method Read(n: nat) returns (b: Bytes)
      requires 0 < n <= |pipe|
      requires CanParse(Reading(cmd, got, words)) && n == NextRead(cmd, got, words)
      modifies this`pipe, this`got, this`words
      ensures b == old(pipe[..n]) && pipe == old(pipe[n..]) && got == old(got) + b
      ensures words == old(words) + (if n == 4 then 1 else 0)
    {
      b := pipe[..n];
      pipe, got, words := pipe[n..], got + b, if n == 4 then words + 1 else words;
    }

    /** get_command_address and get_command_data */
    method GetWord() returns (w: Word)
      requires |pipe| >= 4 && words < FixedWords(cmd) && |got| == 4 * words
      modifies this`pipe, this`got, this`words
      ensures w == WordOf(old(pipe[..4])) && pipe == old(pipe[4..]) && got == old(got) + old(pipe[..4])
      ensures words == old(words) + 1
    {
      var b := Read(4);
      w := WordOf(b);
    }

    /** The word loop of get_command_block_data. */
    method LoadWords(numWords: nat, storage: array<Word>)
      requires TakesBlock(cmd) && words == 2 && |got| == 8 && BlockLength(got) / 4 == numWords
      requires numWords <= STORAGE_WORDS == storage.Length && |pipe| >= 4 * numWords
      modifies this`pipe, this`got, this`words, storage
      ensures words == 2 + numWords
      ensures pipe == old(pipe[4 * numWords..]) && got == old(got) + old(pipe[..4 * numWords])
      ensures forall k :: 0 <= k < numWords ==> storage[k] == WordOf(old(pipe)[4 * k..4 * k + 4])
    {
      ghost var stream, head := pipe, got;
      var loaded := 0;
      while loaded < numWords
        invariant loaded <= numWords && words == 2 + loaded
        invariant pipe == stream[4 * loaded..] && got == head + stream[..4 * loaded]
        invariant forall k :: 0 <= k < loaded ==> storage[k] == WordOf(stream[4 * k..4 * k + 4])
      {
        assert got[4..8] == head[4..8];
        var b := Read(4);
        assert b == stream[4 * loaded..4 * loaded + 4];
        assert stream[..4 * loaded] + b == stream[..4 * (loaded + 1)];
        storage[loaded] := WordOf(b);
        loaded := loaded + 1;
      }
    }

    /** get_command_block_data: whole words go to data_storage, a shorter tail is read off. */
    method GetCommandBlockData(length: Word, storage: array<Word>)
      requires TakesBlock(cmd) && words == 2 && |got| == 8 && BlockLength(got) == length
      requires storage.Length == STORAGE_WORDS && (length / 4 <= STORAGE_WORDS ==> |pipe| >= length)
      modifies this`pipe, this`got, this`words, storage
      ensures |got| >= 8 && NextRead(cmd, got, words) == 0
      ensures length / 4 > STORAGE_WORDS ==> pipe == old(pipe) && got == old(got)
      ensures length / 4 <= STORAGE_WORDS ==>
                && pipe == old(pipe[length..]) && got == old(got) + old(pipe[..length])
                && forall k :: 0 <= k < length / 4 ==> storage[k] == WordOf(old(pipe)[4 * k..4 * k + 4])
    {
      ghost var stream, head := pipe, got;
      var numWords, throwAway := length / 4, length % 4;
      if storage.Length < numWords {
        return;
      }
      LoadWords(numWords, storage);
      HeaderStays(head, stream[..4 * numWords]);
      TailRead(stream, 4 * numWords, length);
      if throwAway != 0 {
        var b := Read(throwAway);
        Regroup(head, stream[..4 * numWords], b);
        HeaderStays(head, stream[..length]);
      }
    }

    /** The arguments of a command that takes a block. */
    method GetBlockArguments(storage: array<Word>, ghost r: Call)
      requires TakesBlock(cmd) && cmd == Cmd(r) && got == [] && words == 0
      requires Fits(r) && Sent(r) <= pipe && storage.Length == STORAGE_WORDS
      modifies this`pipe, this`got, this`words, storage
      ensures pipe == old(pipe[|Sent(r)|..]) && got == Sent(r) && NextRead(cmd, got, words) == 0
      ensures forall k :: 0 <= k < |r.data| / 4 ==> storage[k] == WordOf(r.data[4 * k..4 * k + 4])
    {
      ghost var stream := pipe;
      FieldsOf(r.adr, |r.data|, r.data);
      WordRoundTrip(|r.data|);
      Prefix(stream, Sent(r));
      var _ := GetWord();
      var blockCmdLength := GetWord();
      GetCommandBlockData(blockCmdLength, storage);
      forall k | 0 <= k < |r.data| / 4
        ensures storage[k] == WordOf(r.data[4 * k..4 * k + 4])
      {
        assert stream[8..][4 * k..4 * k + 4] == r.data[4 * k..4 * k + 4];
      }
    }

    /** The arguments a command takes, as the case statement of main fetches them. */
    method GetArguments(c: Byte, storage: array<Word>, ghost r: Call)
      requires c == Cmd(r) && Fits(r) && Sent(r) <= pipe && storage.Length == STORAGE_WORDS
      modifies this, storage
      ensures pipe == old(pipe[|Sent(r)|..]) && got == Sent(r)
      ensures Understood(c, got) == Stored(r) && NextRead(c, got, words) == 0
      ensures TakesBlock(c) ==> InStorage(Stored(r).data, storage[..])
    {
      cmd, got, words := c, [], 0;
      SentIsUnderstood(r);
      if c == 0x1 || c == 0x2 || c == 0x3 || c == 0x8 || c == 0xe {
        var _ := GetWord();
      } else if c == 0x6 || c == 0xa {
        var _ := GetWord();
        var _ := GetWord();
      } else if c == 0x7 {
        var _ := GetWord();
        var _ := GetWord();
        var _ := GetWord();
      } else if c == 0x5 || c == 0x9 {
        GetBlockArguments(storage, r);
        WordsKept(r.data, storage[..]);
      }
    }
  }
}
