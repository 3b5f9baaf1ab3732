/** Whole runs of the pipe protocol: what every interleaving keeps, and exactly which call
    sequences it keeps it for. */
module PipeRuns {
  import opened Common
  import opened DebugPipes

  /** What the protocol promises of a state: calls carried out in order as sent, replies read to
      the end, empty pipes between calls, and always something left to do until all are done. */
  ghost predicate Disciplined(s: System, all: seq<Call>) {
    && |s.results| <= |s.executed| <= |all|
    && (forall i :: 0 <= i < |s.executed| ==> s.executed[i].request == Stored(all[i]))
    && (forall i :: 0 <= i < |s.results| ==> Joined(s.results[i]) == s.executed[i].reply)
    && (s.srv.Rest? ==> s.command == [] && s.toVpi == [] && s.toRsp == [] && s.sim.Polling?)
    && (Finished(s) ==> |s.results| == |all|)
    && (!Finished(s) ==> exists step :: Enabled(s, step))
  }

  /** The protocol on every interleaving of every call sequence whose blocks fit; runs are
      finite. */
  lemma ProtocolSafety(all: seq<Call>, steps: seq<Step>)
    requires AllFit(all) && IsRun(Start(all), steps)
    ensures Disciplined(After(Start(all), steps), all)
    ensures |steps| <= TodoWork(all)
  {
    RunKeepsInv(Start(all), steps, all);
    RunsAreBounded(Start(all), steps, all);
    var s := After(Start(all), steps);
    if !Finished(s) {
      var step := NeverBothBlocked(s, all);
    }
  }

  /** In every interleaving the i-th call carried out is the i-th call made. */
  lemma ExecutedAsSent(all: seq<Call>, steps: seq<Step>, i: nat)
    requires AllFit(all) && IsRun(Start(all), steps) && i < |After(Start(all), steps).executed|
    ensures i < |all| && After(Start(all), steps).executed[i].request == Stored(all[i])
  {
    ProtocolSafety(all, steps);
  }

  /** The caller's buffer holds the reply, whatever it held before. */
  ghost predicate Delivered(chunks: seq<Bytes>, reply: Bytes) {
    forall buffer: Bytes :: |buffer| == |reply| ==> Landed(buffer, chunks) == reply
  }

  /** What a finished call hands its caller: the reply of its own execution if and only if at
      most one read fetched it, as is always the case for a word or a byte. */
  lemma RepliesDelivered(all: seq<Call>, steps: seq<Step>, i: nat)
    requires AllFit(all) && IsRun(Start(all), steps) && i < |After(Start(all), steps).results|
    ensures var s := After(Start(all), steps);
            && i < |s.executed| && i < |all|
            && (Delivered(s.results[i], s.executed[i].reply) <==> |s.results[i]| <= 1)
            && (!GivesBlock(Cmd(all[i])) ==> |s.results[i]| <= 1)
  {
    RunKeepsInv(Start(all), steps, all);
    BlockDataArrivesIffOneRead(After(Start(all), steps).results[i]);
  }

  // ---------------------------------------------------------------- building runs

  ghost predicate Reaches(s: System, t: System) { exists steps :: IsRun(s, steps) && After(s, steps) == t }

  lemma {:induction false} RunsJoin(s: System, front: seq<Step>, back: seq<Step>)
    requires IsRun(s, front) && IsRun(After(s, front), back)
    ensures IsRun(s, front + back) && After(s, front + back) == After(After(s, front), back)
    decreases |front|
  {
    if front == [] {
      assert front + back == back;
    } else {
      assert (front + back)[1..] == front[1..] + back;
      RunsJoin(Apply(s, front[0]), front[1..], back);
    }
  }

  lemma OneStep(s: System, step: Step)
    requires Enabled(s, step)
    ensures IsRun(s, [step]) && After(s, [step]) == Apply(s, step)
  {
    var t := Apply(s, step);
    assert [step][1..] == [];
    assert IsRun(t, []) && After(t, []) == t;
  }

  lemma ReachStep(s: System, t: System, step: Step)
    requires Reaches(s, t) && Enabled(t, step)
    ensures Reaches(s, Apply(t, step))
  {
    var steps :| IsRun(s, steps) && After(s, steps) == t;
    OneStep(t, step);
    RunsJoin(s, steps, [step]);
  }

  function WithMore(s: System, rest: seq<Call>): System { s.(todo := s.todo + rest) }

  lemma StepWithMore(s: System, step: Step, rest: seq<Call>)
    requires Enabled(s, step)
    ensures Enabled(WithMore(s, rest), step)
    ensures Apply(WithMore(s, rest), step) == WithMore(Apply(s, step), rest)
  {
    if step.SrvBegin? {
      assert (s.todo + rest)[1..] == s.todo[1..] + rest;
    }
  }

  /** Calls still to come do not disturb a run. */
  lemma {:induction false} RunWithMore(s: System, steps: seq<Step>, rest: seq<Call>)
    requires IsRun(s, steps)
    ensures IsRun(WithMore(s, rest), steps) && After(WithMore(s, rest), steps) == WithMore(After(s, steps), rest)
    decreases |steps|
  {
    if steps != [] {
      StepWithMore(s, steps[0], rest);
      RunWithMore(Apply(s, steps[0]), steps[1..], rest);
    }
  }

  /** Every state of the protocol can be run to the end. */
  lemma {:induction false} RunsToEnd(s: System, all: seq<Call>) returns (steps: seq<Step>)
    requires Inv(s, all) && AllFit(all)
    ensures IsRun(s, steps) && Finished(After(s, steps)) && Inv(After(s, steps), all)
    decreases Work(s)
  {
    WorkIsNatural(s, all);
    if Finished(s) {
      steps := [];
    } else {
      var step := NeverBothBlocked(s, all);
      StepKeepsInv(s, step, all);
      StepCostsWork(s, step, all);
      var rest := RunsToEnd(Apply(s, step), all);
      steps := [step] + rest;
      assert steps[1..] == rest;
    }
  }

  /** Between two calls: everything before is done and all pipes are empty. */
  predicate Between(s: System, done: nat, rest: seq<Call>) {
    Quiet(s) && s.srv.Rest? && |s.results| == done && s.todo == rest
  }

  /** Calls that fit can be completed before any others. */
  lemma FrontCompletes(front: seq<Call>, rest: seq<Call>) returns (s: System)
    requires AllFit(front)
    ensures Reaches(Start(front + rest), s) && Between(s, |front|, rest)
  {
    var steps := RunsToEnd(Start(front), front);
    RunWithMore(Start(front), steps, rest);
    var e := After(Start(front), steps);
    s := WithMore(e, rest);
    assert WithMore(Start(front), rest) == Start(front + rest);
    assert [] + rest == rest;
  }

  // ---------------------------------------------------------------- the start of any call

  /** The call's bytes are in the pipe and the simulator has read got of them. */
  function Reached(s: System, r: Call, got: Bytes, words: nat, pipe: Bytes): System
    requires s.todo != []
  {
    s.(srv := Talking(r, [], []), sim := Reading(Cmd(r), got, words), toVpi := pipe, todo := s.todo[1..])
  }

  lemma CallSent(start: System, s: System, r: Call, n: nat)
    requires Reaches(start, s) && Between(s, n, s.todo) && s.todo != [] && s.todo[0] == r && Sent(r) != []
    ensures Reaches(start, Reached(s, r, [], 0, Sent(r)))
  {
    ReachStep(start, s, SrvBegin);
    var s1 := Apply(s, SrvBegin);
    ReachStep(start, s1, SrvCommand);
    var s2 := Apply(s1, SrvCommand);
    assert s2.command == [Cmd(r)];
    ReachStep(start, s2, SimPoll);
    var s3 := Apply(s2, SimPoll);
    assert s3.toRsp == [Cmd(r)] && s3.command == [];
    ReachStep(start, s3, SrvAck);
    var s4 := Apply(s3, SrvAck);
    assert s4.toRsp == [] && s4.srv.left == Sent(r) && s4.toVpi == [];
    ReachStep(start, s4, SrvSend(|Sent(r)|));
    assert [] + Sent(r)[..|Sent(r)|] == Sent(r) && Sent(r)[|Sent(r)|..] == [];
  }

  /** Address and length are read; the simulator looks at a call that takes or gives a block. */
  lemma HeaderRead(start: System, s: System, r: Call)
    requires s.todo != [] && (TakesBlock(Cmd(r)) || GivesBlock(Cmd(r)))
    requires Reaches(start, Reached(s, r, [], 0, Sent(r)))
    ensures |Sent(r)| >= 8 && Reaches(start, Reached(s, r, Sent(r)[..8], 2, Sent(r)[8..]))
  {
    var b := Sent(r);
    var s0 := Reached(s, r, [], 0, b);
    ReachStep(start, s0, SimRead);
    assert Apply(s0, SimRead) == Reached(s, r, b[..4], 1, b[4..]) by {
      assert [] + b[..4] == b[..4];
    }
    var s1 := Reached(s, r, b[..4], 1, b[4..]);
    ReachStep(start, s1, SimRead);
    assert Apply(s1, SimRead) == Reached(s, r, b[..8], 2, b[8..]) by {
      assert b[..4] + b[4..][..4] == b[..8] && b[4..][4..] == b[8..];
    }
  }

  lemma HeaderLength(r: Call)
    requires TakesBlock(Cmd(r)) || GivesBlock(Cmd(r))
    ensures |Sent(r)| >= 8
    ensures BlockLength(Sent(r)[..8]) == if TakesBlock(Cmd(r)) then |r.data| else r.len
  {
    var n := if TakesBlock(Cmd(r)) then |r.data| else r.len;
    FieldsOf(r.adr, n, if TakesBlock(Cmd(r)) then r.data else []);
    WordRoundTrip(n);
    assert Sent(r) == WordBytes(r.adr) + WordBytes(n) + (if TakesBlock(Cmd(r)) then r.data else []);
    assert Sent(r)[..8][4..8] == Sent(r)[4..8];
  }

  /** A call that does not fit is answered by the response byte alone. */
  lemma AnsweredAtOnce(start: System, s: System, r: Call, pipe: Bytes) returns (t: System)
    requires s.todo != [] && !Fits(r) && s.toRsp == [] && s.command == []
    requires |Sent(r)| >= 8 && Reaches(start, Reached(s, r, Sent(r)[..8], 2, pipe))
    ensures Reaches(start, t)
    ensures t.srv == Talking(r, [], []) && t.sim == Polling && t.command == [] && t.toVpi == pipe && t.toRsp == [0]
    ensures t.todo == s.todo[1..]
  {
    HeaderLength(r);
    var s2 := Reached(s, r, Sent(r)[..8], 2, pipe);
    ReachStep(start, s2, SimExec([]));
    var s3 := Apply(s2, SimExec([]));
    assert s3.sim == Replying([0]) && [] + [0] == [0];
    ReachStep(start, s3, SimWrite(1));
    t := Apply(s3, SimWrite(1));
    assert [0][1..] == [] && [] + [0][..1] == [0];
  }

  /** A block too large to store is left in the pipe, for the next call to read as its own. */
  lemma LargeWriteStays(start: System, s: System, n: nat) returns (t: System)
    requires Reaches(start, s) && Between(s, n, s.todo) && s.todo != []
    requires TakesBlock(Cmd(s.todo[0])) && !Fits(s.todo[0])
    ensures Reaches(start, t) && t.srv.Rest? && t.toVpi == s.todo[0].data != []
  {
    var r := s.todo[0];
    HeaderLength(r);
    CallSent(start, s, r, n);
    HeaderRead(start, s, r);
    FieldsOf(r.adr, |r.data|, r.data);
    var u := AnsweredAtOnce(start, s, r, Sent(r)[8..]);
    ReachStep(start, u, SrvResp);
    t := Apply(u, SrvResp);
  }

  /** A block too large to return leaves the server waiting for good. */
  lemma LargeReadBlocks(start: System, s: System, n: nat) returns (t: System)
    requires Reaches(start, s) && Between(s, n, s.todo) && s.todo != []
    requires GivesBlock(Cmd(s.todo[0])) && !Fits(s.todo[0])
    ensures Reaches(start, t) && !Finished(t) && forall step :: !Enabled(t, step)
  {
    var r := s.todo[0];
    HeaderLength(r);
    CallSent(start, s, r, n);
    HeaderRead(start, s, r);
    var u := AnsweredAtOnce(start, s, r, Sent(r)[8..]);
    t := PieceRead(start, u, 1);
  }

  /** The server reads a piece of a block. */
  lemma PieceRead(start: System, s: System, n: nat) returns (t: System)
    requires Reaches(start, s) && s.srv.Talking? && s.srv.left == [] && GivesBlock(Cmd(s.srv.r))
    requires 0 < n <= |s.toRsp| && |Joined(s.srv.chunks)| + n <= ReplyLen(s.srv.r)
    requires n == |s.toRsp| || |Joined(s.srv.chunks)| + n == ReplyLen(s.srv.r)
    ensures Reaches(start, t)
    ensures t == s.(srv := Talking(s.srv.r, [], s.srv.chunks + [s.toRsp[..n]]), toRsp := s.toRsp[n..])
    ensures |Joined(t.srv.chunks)| == |Joined(s.srv.chunks)| + n
  {
    ReachStep(start, s, SrvRecv(n));
    t := Apply(s, SrvRecv(n));
    JoinedSnoc(s.srv.chunks, s.toRsp[..n]);
  }

  /** A block that fits is answered with any reply of its length. */
  lemma BlockAnswered(r: Call, reply: Bytes) returns (t: System)
    requires GivesBlock(Cmd(r)) && Fits(r) && |reply| == ReplyLen(r)
    ensures Reaches(Start([r]), t)
    ensures t == System(Talking(r, [], []), Replying(reply + [0]), [], [], [], [], [], [Execution(r, reply)])
  {
    var s := Start([r]);
    assert After(s, []) == s;
    ReplyFitsCall(r);
    SentIsUnderstood(r);
    CallSent(s, s, r, 0);
    HeaderRead(s, s, r);
    assert Sent(r)[..8] == Sent(r) && Sent(r)[8..] == [] && [r][1..] == [];
    var s2 := Reached(s, r, Sent(r), 2, []);
    ReachStep(s, s2, SimExec(reply));
    t := Apply(s2, SimExec(reply));
    assert t.executed == [Execution(r, reply)];
  }

  /** A part of the reply becomes visible in the pipe. */
  lemma PartWritten(start: System, s: System, n: nat) returns (t: System)
    requires Reaches(start, s) && s.sim.Replying? && 0 < n <= |s.sim.out|
    ensures Reaches(start, t)
    ensures t == s.(sim := if n == |s.sim.out| then Polling else Replying(s.sim.out[n..]),
                    toRsp := s.toRsp + s.sim.out[..n])
  {
    ReachStep(start, s, SimWrite(n));
    t := Apply(s, SimWrite(n));
  }

  /** If the reply of a block of two bytes or more becomes visible in two parts, with a read
      between them, the caller's buffer is wrong. */
  lemma ReplyCanBeSplit(r: Call, reply: Bytes) returns (t: System)
    requires GivesBlock(Cmd(r)) && Fits(r) && |reply| == ReplyLen(r) >= 2
    ensures Reaches(Start([r]), t) && Finished(t) && t.executed == [Execution(r, reply)]
    ensures |t.results| == 1 && !Delivered(t.results[0], reply)
  {
    var start, n, out := Start([r]), |reply|, reply + [0];
    var s0 := BlockAnswered(r, reply);
    var s1 := PartWritten(start, s0, 1);
    assert s1.toRsp == out[..1];
    var s2 := PieceRead(start, s1, 1);
    assert s2.toRsp == [] && s2.srv.chunks == [s1.toRsp[..1]];
    var s3 := PartWritten(start, s2, n);
    assert s3.toRsp == out[1..];
    var s4 := PieceRead(start, s3, n - 1);
    assert s4.srv.chunks == [s1.toRsp[..1], s3.toRsp[..n - 1]] && s4.toRsp != [];
    ReachStep(start, s4, SrvResp);
    t := Apply(s4, SrvResp);
    assert |s4.toRsp| == 1;
    var steps :| IsRun(start, steps) && After(start, steps) == t;
    RepliesDelivered([r], steps, 0);
  }

  // ---------------------------------------------------------------- the exact limit

  /** The discipline holds in every run of these calls if and only if every block fits. */
  lemma DisciplinedIffBlocksFit(all: seq<Call>)
    ensures (forall s :: Reaches(Start(all), s) ==> Disciplined(s, all)) <==> AllFit(all)
  {
    if AllFit(all) {
      forall s | Reaches(Start(all), s)
        ensures Disciplined(s, all)
      {
        var steps :| IsRun(Start(all), steps) && After(Start(all), steps) == s;
        ProtocolSafety(all, steps);
      }
    } else {
      var k := FirstLarge(all);
      var s := FrontCompletes(all[..k], all[k..]);
      assert all[..k] + all[k..] == all;
      var t: System;
      if TakesBlock(Cmd(all[k])) {
        t := LargeWriteStays(Start(all), s, k);
      } else {
        t := LargeReadBlocks(Start(all), s, k);
      }
      assert Reaches(Start(all), t) && !Disciplined(t, all);
    }
  }

  lemma {:induction false} FirstLarge(all: seq<Call>) returns (k: nat)
    requires !AllFit(all)
    ensures k < |all| && !Fits(all[k]) && AllFit(all[..k])
  {
    var front := all[..|all| - 1];
    if AllFit(front) {
      k := |all| - 1;
    } else {
      k := FirstLarge(front);
      assert front[..k] == all[..k];
    }
  }
}
