/**
 * What `on_commit` answers: success at once without changes or without a standby, otherwise
 * success only for a record the standby has applied, and when such an answer can still come.
 */
module ReplicationAnswers {
  import opened Bytes
  import opened SortedEntries
  import opened ChangeLog
  import opened Replication

  /** The commit at place i of the log changed something and found a standby connected. */
  ghost predicate Awaited(s: State, i: nat)
    requires i < |s.log|
  {
    s.log[i].changes != [] && s.connectedAt.Some? && s.connectedAt.value <= i
  }

  /** Every commit handed to the hub has its answer, except the one waited for. */
  ghost predicate AnswerInv(s: State) {
    && s.notified <= |s.log|
    && |s.returned| == (if s.waiting.Some? then s.notified - 1 else s.notified)
    && (s.connectedAt.Some? <==> s.connected) && (s.connected ==> s.connectedAt.value <= s.notified)
    && (s.waiting.Some? ==> s.notified > 0 && Awaited(s, s.notified - 1))
    && (forall i :: 0 <= i < |s.returned| ==> Honest(s, i))
  }

  /** An awaited commit is answered with success only when delivered, the others at once. */
  ghost predicate Honest(s: State, i: nat)
    requires i < |s.log| && i < |s.returned|
  {
    if Awaited(s, i) then s.returned[i] == Success ==> s.log[i] in s.delivered else s.returned[i] == Success
  }

  lemma HonestStays(s: State, r: State, i: nat)
    requires i < |s.log| <= |r.log| && i < |s.returned| <= |r.returned| && Honest(s, i)
    requires r.log[i] == s.log[i] && r.returned[i] == s.returned[i]
    requires forall x :: x in s.delivered ==> x in r.delivered
    requires Awaited(r, i) <==> Awaited(s, i)
    ensures Honest(r, i)
  {
  }

  /** No step takes back an answer, a delivery or a place in the log. */
  lemma Grows(s: State, e: Event)
    requires AnswerInv(s) && Inv(s) && Enabled(s, e)
    ensures var r := After(s, e);
            && |s.log| <= |r.log| && r.log[..|s.log|] == s.log && |s.returned| <= |r.returned|
            && r.returned[..|s.returned|] == s.returned && (forall x :: x in s.delivered ==> x in r.delivered)
            && forall i {:trigger Awaited(r, i)} :: 0 <= i < |s.returned| ==> (Awaited(r, i) <==> Awaited(s, i))
  {
    hide LogInv, StreamInv, AckInv, Honest, Replay;
    var r := After(s, e);
    assert r.connectedAt == s.connectedAt || (s.connectedAt.None? && r.connectedAt == Some(s.notified));
  }

  /** The answer a step adds. */
  lemma NewAnswer(s: State, e: Event)
    requires Inv(s) && AnswerInv(s) && Enabled(s, e) && |After(s, e).returned| > |s.returned|
    ensures |s.returned| < |s.log| && Honest(After(s, e), |s.returned|)
  {
    hide LogInv, StreamInv, AckInv, Replay;
    assert e.OnCommit? || e.OnCommitOk? || e.OnCommitTimeout?;
    if e.OnCommitOk? {
      WaitedIsLast(s);
    }
  }

  lemma AnswerCounts(s: State, e: Event)
    requires AnswerInv(s) && Inv(s) && Enabled(s, e)
    ensures var r := After(s, e);
            && r.notified <= |r.log|
            && |r.returned| == (if r.waiting.Some? then r.notified - 1 else r.notified)
            && |r.returned| <= |s.returned| + 1
            && (r.connectedAt.Some? <==> r.connected) && (r.connected ==> r.connectedAt.value <= r.notified)
  {
    hide LogInv, StreamInv, AckInv, Honest, Replay, Awaited;
  }

  lemma StillAwaited(s: State, e: Event)
    requires AnswerInv(s) && Inv(s) && Enabled(s, e) && After(s, e).waiting.Some?
    ensures var r := After(s, e);
            0 < r.notified <= |r.log| && Awaited(r, r.notified - 1)
  {
    hide LogInv, StreamInv, AckInv, Honest, Replay;
  }

  lemma AnswerStep(s: State, e: Event)
    requires Inv(s) && AnswerInv(s) && Enabled(s, e)
    ensures AnswerInv(After(s, e))
  {
    hide Inv, Enabled, After, Honest, Awaited;
    var r := After(s, e);
    AnswerCounts(s, e);
    if r.waiting.Some? {
      StillAwaited(s, e);
    }
    Grows(s, e);
    forall i | 0 <= i < |r.returned| ensures i < |r.log| && Honest(r, i) {
      if i < |s.returned| {
        assert Honest(s, i) && i < |s.log|;
        assert r.log[i] == r.log[..|s.log|][i] && r.returned[i] == r.returned[..|s.returned|][i];
        HonestStays(s, r, i);
      } else {
        NewAnswer(s, e);
      }
    }
  }

  lemma {:induction false} RunAnswers(s: State, es: seq<Event>, r: State)
    requires Inv(s) && AnswerInv(s) && Run(s, es, r)
    ensures Inv(r) && AnswerInv(r)
    decreases es
  {
    hide Inv, AnswerInv, After, Enabled;
    if es != [] {
      StepKeeps(s, es[0]);
      AnswerStep(s, es[0]);
      RunAnswers(After(s, es[0]), es[1..], r);
    }
  }

  lemma ReachableAnswers(s: State)
    requires Reachable(s)
    ensures Inv(s) && AnswerInv(s)
  {
    var es :| Run(INITIAL, es, s);
    RunAnswers(INITIAL, es, s);
  }

  /**
   * In every reachable state, each commit handed to the hub but the one waited for has an answer.
   * One that changed something while a standby was connected was answered with success only if
   * the standby received and applied it; every other was answered with success.
   */
  lemma SuccessMeansApplied(s: State)
    requires Reachable(s)
    ensures s.notified <= |s.log| && |s.returned| == (if s.waiting.Some? then s.notified - 1 else s.notified)
    ensures forall i :: 0 <= i < |s.returned| && Awaited(s, i) && s.returned[i] == Success ==>
              s.log[i] in s.delivered && s.subscribed && s.standby.Following?
    ensures forall i :: 0 <= i < |s.returned| && !Awaited(s, i) ==> s.returned[i] == Success
    ensures s.subscribed && s.standby.Following? ==>
              s.snapshotAt.Some? && s.snapshotAt.value <= |s.log|
              && s.standby.db == Replay(Replay(map[], s.log[..s.snapshotAt.value]), s.delivered)
  {
    hide Replay, NonEmpty, Messages, Increasing;
    ReachableAnswers(s);
    forall i | 0 <= i < |s.returned|
      ensures if Awaited(s, i) then s.returned[i] == Success ==> s.log[i] in s.delivered else s.returned[i] == Success
    {
      assert Honest(s, i);
    }
  }

  /**
   * No commit answered with success is missing on a standby that has caught up with its snapshot:
   * its maps are the primary's after a stretch of the log that includes the commit.
   */
  lemma SuccessIsOnStandby(s: State, i: nat)
    requires Reachable(s) && i < |s.log| && i < |s.returned| && Awaited(s, i) && s.returned[i] == Success
    requires s.delivered != [] && s.delivered[|s.delivered| - 1].version >= s.snapshotVersion
    ensures exists m :: i < m <= |s.log| && s.standby.Following? && Same(s.standby.db, Replay(map[], s.log[..m]))
  {
    hide Replay, NonEmpty, Messages, Same, Increasing, StreamInv, Sent;
    SuccessMeansApplied(s);
    StandbyCatchesUp(s);
    var m :| 0 < m <= |s.log| && s.log[m - 1] == s.delivered[|s.delivered| - 1]
             && Same(s.standby.db, Replay(map[], s.log[..m]));
    ReachableKeeps(s);
    DeliveredOrder(s, s.log[i]);
    NotAfter(s.log, i, m - 1);
  }

  /** Records reach the standby oldest first. */
  lemma DeliveredOrder(s: State, x: Record)
    requires Inv(s) && s.subscribed && s.standby.Following? && x in s.delivered
    ensures x.version <= s.delivered[|s.delivered| - 1].version
  {
    hide Replay, NonEmpty, Messages;
    SentIncreasing(s);
    var i :| 0 <= i < |s.delivered| && s.delivered[i] == x;
    assert Sent(s)[i] == x && Sent(s)[|s.delivered| - 1] == s.delivered[|s.delivered| - 1];
  }

  lemma NotAfter(log: seq<Record>, i: nat, j: nat)
    requires Increasing(log) && i < |log| && j < |log| && log[i].version <= log[j].version
    ensures i <= j
  {
  }

  /** `on_commit` returns at once exactly without changes or without a standby, and then with success. */
  lemma AnswersAtOnce(s: State)
    requires Reachable(s) && Enabled(s, OnCommit)
    ensures var r, rec := After(s, OnCommit), s.log[s.notified];
            if rec.changes == [] || !s.connected
            then |r.returned| == r.notified && r.returned[s.notified] == Success && r.waiting == None
            else |r.returned| < r.notified && r.waiting == Some(rec.version) && !Enabled(r, OnCommitOk)
  {
    hide Replay, NonEmpty, Messages, StreamInv;
    ReachableAnswers(s);
    if s.log[s.notified].changes != [] && s.connected {
      NotYetApplied(s);
    }
  }

  /** No acknowledgement can be for a record that was never handed to the hub. */
  lemma NotYetApplied(s: State)
    requires Inv(s) && s.notified < |s.log|
    ensures s.applied < s.log[s.notified].version
  {
    hide Replay, Messages, NonEmpty;
    if s.applied > 0 {
      assert s.subscribed && !Overtaken(s);
      var part, last := s.log[s.subscribedAt..s.notified], s.delivered[|s.delivered| - 1];
      assert Sent(s)[|s.delivered| - 1] == last;
      SentFrom(part, last);
      var i :| 0 <= i < |part| && part[i] == last;
      assert s.log[s.subscribedAt + i] == last;
    }
  }

  lemma {:induction false} SentFrom(log: seq<Record>, r: Record)
    requires r in NonEmpty(log)
    ensures r in log && r.changes != []
  {
    if log[|log| - 1] != r || r.changes == [] {
      SentFrom(log[..|log| - 1], r);
    }
  }

  // ---------------------------------------------------------------- when success can still come

  /** The record waited for was sent to a subscribed standby that still follows its stream. */
  ghost predicate Answerable(s: State) {
    s.subscribed && s.subscribedAt < s.notified && !Overtaken(s)
  }

  /** The hub goes on waiting. */
  ghost predicate Pending(es: seq<Event>) {
    forall e :: e in es ==> !e.OnCommitOk? && !e.OnCommitTimeout?
  }

  /** The newest applied record is acknowledged or its acknowledgement is the last under way. */
  ghost predicate Owed(s: State) {
    s.delivered != [] ==>
      var v := s.delivered[|s.delivered| - 1].version;
      if s.acks == [] then s.applied >= v else s.acks[|s.acks| - 1] == v
  }

  lemma OwedStep(s: State, e: Event)
    requires Inv(s) && Owed(s) && Enabled(s, e)
    ensures Owed(After(s, e))
  {
    hide LogInv, StreamInv;
  }

  lemma {:induction false} RunOwes(s: State, es: seq<Event>, r: State)
    requires Inv(s) && Owed(s) && Run(s, es, r)
    ensures Owed(r)
    decreases es
  {
    hide Inv, Owed, After, Enabled;
    if es != [] {
      StepKeeps(s, es[0]);
      OwedStep(s, es[0]);
      RunOwes(After(s, es[0]), es[1..], r);
    }
  }

  /** The next event on the way to the standby and back. */
  function Next(s: State): (e: Event) {
    if s.snapshotAt.None? then SendSnapshot
    else if s.channel != [] then Forward
    else if s.wire != [] then Receive
    else ReceiveAck
  }

  function Distance(s: State): (n: nat) {
    3 * |s.channel| + 2 * |s.wire| + |s.acks| + if s.snapshotAt.None? then 3 else 0
  }

  ghost predicate Ready(s: State) {
    Inv(s) && Owed(s) && Answerable(s) && s.waiting.Some? && 0 < s.notified <= |s.log| && s.log[s.notified - 1].changes != []
  }

  lemma NextStep(s: State)
    requires Ready(s) && Distance(s) > 0
    ensures Enabled(s, Next(s)) && Distance(After(s, Next(s))) < Distance(s)
    ensures !Next(s).OnCommitOk? && !Next(s).OnCommitTimeout?
    ensures Ready(After(s, Next(s)))
  {
    hide Inv, Owed, Answerable, Enabled, After, Distance;
    NextEnabled(s);
    NextCloser(s);
    NextAnswerable(s);
    StepKeeps(s, Next(s));
    OwedStep(s, Next(s));
  }

  lemma NextCloser(s: State)
    requires Enabled(s, Next(s))
    ensures Distance(After(s, Next(s))) < Distance(s)
    ensures var r := After(s, Next(s));
            r.waiting == s.waiting && r.notified == s.notified && r.log == s.log
            && r.subscribed == s.subscribed && r.subscribedAt == s.subscribedAt
  {
    hide Replay, ApplyAll;
  }

  lemma NextAnswerable(s: State)
    requires Inv(s) && Answerable(s) && Enabled(s, Next(s))
    ensures Answerable(After(s, Next(s)))
  {
    hide Replay, ApplyAll, NonEmpty, Increasing, AckInv;
  }

  lemma NextEnabled(s: State)
    requires Inv(s) && Answerable(s) && Distance(s) > 0
    ensures Enabled(s, Next(s))
  {
    hide Replay, NonEmpty, Increasing;
  }

  /** With nothing under way, everything sent was applied and acknowledged. */
  lemma Settled(s: State)
    requires Ready(s) && Distance(s) == 0
    ensures Enabled(s, OnCommitOk)
  {
    hide Replay, Increasing;
    assert s.onWire == [];
    var part := s.log[s.subscribedAt..s.notified];
    assert part[|part| - 1] == s.log[s.notified - 1];
    assert s.delivered == NonEmpty(part);
  }

  lemma {:induction false} WayToSuccess(s: State) returns (es: seq<Event>, r: State)
    requires Ready(s)
    ensures Pending(es) && Run(s, es, r) && Enabled(r, OnCommitOk)
    decreases Distance(s)
  {
    hide Ready, Enabled, After, Distance;
    if Distance(s) == 0 {
      Settled(s);
      es, r := [], s;
    } else {
      NextStep(s);
      var rest;
      rest, r := WayToSuccess(After(s, Next(s)));
      es := [Next(s)] + rest;
      assert es[1..] == rest;
    }
  }

  /** Nothing that happens while the hub waits makes a lost record answerable again. */
  lemma LostStays(s: State, e: Event)
    requires Inv(s) && s.waiting.Some? && !Answerable(s) && Enabled(s, e) && !e.OnCommitOk? && !e.OnCommitTimeout?
    ensures After(s, e).waiting.Some? && !Answerable(After(s, e))
  {
    hide Replay, NonEmpty, Increasing, Messages;
  }

  lemma {:induction false} LostForGood(s: State, es: seq<Event>, r: State)
    requires Inv(s) && s.waiting.Some? && !Answerable(s) && Pending(es) && Run(s, es, r)
    ensures !Enabled(r, OnCommitOk)
    decreases es
  {
    hide Inv, Answerable, After;
    if es == [] {
      if Enabled(s, OnCommitOk) {
        SuccessNeeds(s);
      }
    } else {
      assert es[0] in es;
      StepKeeps(s, es[0]);
      LostStays(s, es[0]);
      LostForGood(After(s, es[0]), es[1..], r);
    }
  }

  lemma SuccessNeeds(s: State)
    requires Inv(s) && Enabled(s, OnCommitOk)
    ensures Answerable(s)
  {
    hide Replay, NonEmpty, Increasing, Messages;
    WaitedIsLast(s);
    NonEmptyNothing(s.log[s.subscribedAt..s.notified]);
    assert Sent(s)[|s.delivered| - 1] == s.delivered[|s.delivered| - 1];
  }

  /**
   * A waiting `on_commit` can still return success exactly when its record was sent after the
   * subscription and no record overtook the snapshot; otherwise only the timeout ends the wait.
   */
  lemma SuccessPossibleIff(s: State)
    requires Reachable(s) && s.waiting.Some?
    ensures Answerable(s) <==> exists es, r :: Pending(es) && Run(s, es, r) && Enabled(r, OnCommitOk)
  {
    hide Inv, Enabled, Answerable;
    if Answerable(s) {
      MadeReady(s);
      var es, r := WayToSuccess(s);
    } else {
      ReachableKeeps(s);
      forall es, r | Pending(es) && Run(s, es, r) ensures !Enabled(r, OnCommitOk) {
        LostForGood(s, es, r);
      }
    }
  }

  lemma MadeReady(s: State)
    requires Reachable(s) && s.waiting.Some? && Answerable(s)
    ensures Ready(s)
  {
    hide Inv, Answerable, Run, After;
    InitialFits();
    ReachableAnswers(s);
    assert |s.returned| < |s.log|;
    var es :| Run(INITIAL, es, s);
    RunOwes(INITIAL, es, s);
  }

  lemma InitialFits()
    ensures Inv(INITIAL) && Owed(INITIAL)
  {
  }

  lemma Before(s: State, e: Event, es: seq<Event>, r: State)
    requires Enabled(s, e) && Run(After(s, e), es, r)
    ensures Run(s, [e] + es, r)
  {
    hide After, Enabled;
    assert ([e] + es)[1..] == es;
  }

  /** The store before its first commit, with a standby that applied the empty snapshot. */
  const FOLLOWED :=
    State([], 0, 0, None, true, true, [], [], Following(map[]), [], 0, Some(0), 0, Some(0), 0, [], [], [])

  lemma Followed(es: seq<Event>, r: State)
    requires Run(FOLLOWED, es, r)
    ensures Run(INITIAL, [Connect, Subscribe, SendSnapshot, Receive] + es, r)
  {
    hide Run;
    var s1 := After(INITIAL, Connect);
    var s2 := After(s1, Subscribe);
    var s3 := After(s2, SendSnapshot);
    ReplayNone(map[]);
    assert s3.wire[0] == Snapshot(0, map[]);
    assert After(s3, Receive) == FOLLOWED;
    Before(s3, Receive, es, r);
    Before(s2, SendSnapshot, [Receive] + es, r);
    Before(s1, Subscribe, [SendSnapshot] + ([Receive] + es), r);
    Before(INITIAL, Connect, [Subscribe] + ([SendSnapshot] + ([Receive] + es)), r);
    assert [Connect] + ([Subscribe] + ([SendSnapshot] + ([Receive] + es))) == [Connect, Subscribe, SendSnapshot, Receive] + es;
  }

  /** `on_commit` waits for the first record, which is in the channel. */
  function AwaitingFirst(rec: Record): (s: State) {
    FOLLOWED.(log := [rec], version := rec.version, notified := 1, waiting := Some(rec.version), channel := [rec])
  }

  lemma WaitingFollows(rec: Record, es: seq<Event>, r: State)
    requires rec.version > 0 && rec.changes != [] && Run(AwaitingFirst(rec), es, r)
    ensures Run(FOLLOWED, [Commit(rec)] + ([OnCommit] + es), r)
  {
    hide Run;
    var s := After(FOLLOWED, Commit(rec));
    assert After(s, OnCommit) == AwaitingFirst(rec);
    Before(s, OnCommit, es, r);
    Before(FOLLOWED, Commit(rec), [OnCommit] + es, r);
  }

  /** The record is on its way, then applied, then acknowledged. */
  function UnderWay(rec: Record): (s: State) {
    AwaitingFirst(rec).(channel := [], wire := [CommitMessage(rec)], onWire := [rec])
  }

  function AppliedFirst(rec: Record): (s: State) {
    AwaitingFirst(rec).(channel := [], acks := [rec.version], delivered := [rec],
                        standby := Following(ApplyAll(map[], rec.changes)))
  }

  lemma Forwarded(rec: Record)
    ensures Enabled(AwaitingFirst(rec), Forward) && After(AwaitingFirst(rec), Forward) == UnderWay(rec)
  {
    hide Replay, ApplyAll;
  }

  lemma Received(rec: Record)
    ensures Enabled(UnderWay(rec), Receive) && After(UnderWay(rec), Receive) == AppliedFirst(rec)
  {
    hide Replay, ApplyAll;
  }

  lemma Released(rec: Record) returns (s: State)
    requires rec.version > 0
    ensures Enabled(AppliedFirst(rec), ReceiveAck) && s == After(AppliedFirst(rec), ReceiveAck)
    ensures Enabled(s, OnCommitOk) && s.waiting == Some(rec.version) && s.log == [rec] && s.delivered == [rec]
  {
    hide Replay, ApplyAll;
    s := After(AppliedFirst(rec), ReceiveAck);
  }

  /** The record reaches the standby and its acknowledgement the hub. */
  lemma Acknowledged(rec: Record) returns (s: State)
    requires rec.version > 0
    ensures Enabled(s, OnCommitOk) && s.waiting == Some(rec.version) && s.log == [rec] && s.delivered == [rec]
    ensures Run(AwaitingFirst(rec), [Forward] + ([Receive] + ([ReceiveAck] + [])), s)
  {
    hide Run, Enabled, After, AwaitingFirst, UnderWay, AppliedFirst;
    Forwarded(rec);
    Received(rec);
    s := Released(rec);
    RunNone(s);
    Before(AppliedFirst(rec), ReceiveAck, [], s);
    Before(UnderWay(rec), Receive, [ReceiveAck] + [], s);
    Before(AwaitingFirst(rec), Forward, [Receive] + ([ReceiveAck] + []), s);
  }

  /** Success after waiting is reachable for every first commit that changes something. */
  lemma SuccessReachable(rec: Record) returns (s: State)
    requires rec.version > 0 && rec.changes != []
    ensures Reachable(s) && Enabled(s, OnCommitOk) && s.waiting == Some(rec.version)
    ensures s.log == [rec] && s.delivered == [rec]
  {
    hide Run, After, Enabled;
    s := Acknowledged(rec);
    var es := [Forward] + ([Receive] + ([ReceiveAck] + []));
    WaitingFollows(rec, es, s);
    Followed([Commit(rec)] + ([OnCommit] + es), s);
  }

  lemma RunNone(s: State)
    ensures Run(s, [], s)
  {
  }
}
