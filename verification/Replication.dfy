/**
 * Synchronous replication to one standby: connect, subscribe, snapshot, then a stream of commit
 * records and acknowledgements. Each step is one action of the primary, the connection handler
 * or the standby; messages travel in order.
 */
module Replication {
  import opened Bytes
  import opened SortedEntries
  import opened ChangeLog

  datatype Message = Snapshot(version: nat, maps: Db) | CommitMessage(record: Record)

  /** Waiting for its snapshot, given up after an unexpected first message, or following the stream. */
  datatype Standby = Waiting | GaveUp | Following(db: Db)

  /** What `on_commit` returns. */
  datatype Answer = Success | Timeout

  /**
   * `log` holds the commits applied to the primary's maps, `notified` how many of them were handed
   * to the hub. The fields from `connectedAt` on exist for the proof: where in the log the
   * connection, the subscription and the snapshot fell, which records are on the wire, what the
   * standby has applied since its snapshot, and what each finished `on_commit` returned.
   */
  datatype State = State(
    log: seq<Record>,
    version: nat,
    notified: nat,
    waiting: Option<nat>,
    connected: bool,
    subscribed: bool,
    channel: seq<Record>,
    wire: seq<Message>,
    standby: Standby,
    acks: seq<nat>,
    applied: nat,
    connectedAt: Option<nat>,
    subscribedAt: nat,
    snapshotAt: Option<nat>,
    snapshotVersion: nat,
    onWire: seq<Record>,
    delivered: seq<Record>,
    returned: seq<Answer>)

  datatype Event =
    | Commit(record: Record)
    | Checkpoint
    | Connect
    | Subscribe
    | OnCommit
    | OnCommitOk
    | OnCommitTimeout
    | Forward
    | SendSnapshot
    | Receive
    | ReceiveAck

  const INITIAL := State([], 0, 0, None, false, false, [], [], Waiting, [], 0, None, 0, None, 0, [], [], [])

  ghost predicate Enabled(s: State, e: Event) {
    match e
    case Commit(r) => r.version > s.version
    case Checkpoint => true
    case Connect => !s.connected
    case Subscribe => s.connected && !s.subscribed
    case OnCommit => s.waiting.None? && s.notified < |s.log|
    case OnCommitOk => s.waiting.Some? && s.applied >= s.waiting.value
    case OnCommitTimeout => s.waiting.Some?
    case Forward => s.subscribed && s.channel != []
    case SendSnapshot => s.subscribed && s.snapshotAt.None?
    case Receive => s.wire != [] && !s.standby.GaveUp?
    case ReceiveAck => s.acks != []
  }

  function After(s: State, e: Event): (r: State)
    requires Enabled(s, e)
  {
    match e
    case Commit(rec) => s.(log := s.log + [rec], version := rec.version)
    case Checkpoint => s.(version := s.version + 1)
    case Connect => s.(connected := true, connectedAt := Some(s.notified))
    case Subscribe => s.(subscribed := true, subscribedAt := s.notified)
    case OnCommit =>
      // An empty change set and a store without a standby return at once; a record sent before
      // the handler subscribes reaches nobody.
      var rec := s.log[s.notified];
      if rec.changes == [] || !s.connected then s.(notified := s.notified + 1, returned := s.returned + [Success])
      else s.(notified := s.notified + 1, waiting := Some(rec.version),
              channel := if s.subscribed then s.channel + [rec] else s.channel)
    case OnCommitOk => s.(waiting := None, returned := s.returned + [Success])
    case OnCommitTimeout => s.(waiting := None, returned := s.returned + [Timeout])
    case Forward => s.(channel := s.channel[1..], wire := s.wire + [CommitMessage(s.channel[0])],
                      onWire := s.onWire + [s.channel[0]])
    case SendSnapshot =>
      s.(wire := s.wire + [Snapshot(s.version, Replay(map[], s.log))],
         snapshotAt := Some(|s.log|), snapshotVersion := s.version)
    case Receive => ReceiveStep(s)
    case ReceiveAck =>
      s.(acks := s.acks[1..], applied := if s.acks[0] > s.applied then s.acks[0] else s.applied)
  }

  function ReceiveStep(s: State): (r: State)
    requires s.wire != []
  {
    var m, rest := s.wire[0], s.wire[1..];
    match s.standby
    case Waiting => s.(wire := rest, standby := if m.Snapshot? then Following(m.maps) else GaveUp)
    case GaveUp => s
    case Following(db) =>
      if m.Snapshot? then s.(wire := rest) else
        s.(wire := rest, standby := Following(ApplyAll(db, m.record.changes)), acks := s.acks + [m.record.version],
           delivered := s.delivered + [m.record], onWire := if s.onWire == [] then [] else s.onWire[1..])
  }

  ghost predicate Run(s: State, es: seq<Event>, r: State)
    decreases es
  {
    if es == [] then s == r else Enabled(s, es[0]) && Run(After(s, es[0]), es[1..], r)
  }

  ghost predicate Reachable(s: State) {
    exists es :: Run(INITIAL, es, s)
  }

  // ---------------------------------------------------------------- the stream

  /** The records a log sends: those that change something. */
  function NonEmpty(log: seq<Record>): (rs: seq<Record>) {
    if log == [] then []
    else NonEmpty(log[..|log| - 1]) + if log[|log| - 1].changes == [] then [] else [log[|log| - 1]]
  }

  function Messages(rs: seq<Record>): (ms: seq<Message>)
    ensures |ms| == |rs|
    ensures forall i :: 0 <= i < |rs| ==> ms[i] == CommitMessage(rs[i])
  {
    seq(|rs|, i requires 0 <= i < |rs| => CommitMessage(rs[i]))
  }

  ghost predicate Increasing(rs: seq<Record>) {
    forall i, j :: 0 <= i < j < |rs| ==> rs[i].version < rs[j].version
  }

  /** Everything sent to the standby since it was subscribed. */
  ghost function Sent(s: State): seq<Record>
    requires s.subscribedAt <= s.notified <= |s.log|
  {
    NonEmpty(s.log[s.subscribedAt..s.notified])
  }

  ghost predicate LogInv(s: State) {
    && Increasing(s.log) && (forall r :: r in s.log ==> 0 < r.version <= s.version)
    && s.subscribedAt <= s.notified <= |s.log|
    && (s.waiting.Some? ==> s.notified > 0 && s.waiting.value == s.log[s.notified - 1].version)
    && (if s.subscribed then s.connected else s.channel == [] && s.snapshotAt.None?)
    && (s.snapshotAt.Some? ==>
          && s.subscribedAt <= s.snapshotAt.value <= |s.log| && s.snapshotVersion <= s.version
          && (forall i :: 0 <= i < s.snapshotAt.value ==> s.log[i].version <= s.snapshotVersion)
          && (forall i :: s.snapshotAt.value <= i < |s.log| ==> s.log[i].version > s.snapshotVersion))
  }

  /** A record overtook the snapshot, so the standby gives up at its first message. */
  ghost predicate Overtaken(s: State) {
    s.standby.GaveUp? || (s.standby.Waiting? && s.wire != [] && s.wire[0].CommitMessage?)
  }

  /** What is delivered, on the wire and in the channel is what was sent, in order. */
  ghost predicate StreamInv(s: State)
    requires LogInv(s)
  {
    s.subscribed && !Overtaken(s) ==>
      && Sent(s) == s.delivered + s.onWire + s.channel
      && match s.standby
         case Waiting =>
           s.delivered == [] &&
           (if s.snapshotAt.None? then s.wire == [] && s.onWire == []
            else s.wire == [Snapshot(s.snapshotVersion, Replay(map[], s.log[..s.snapshotAt.value]))] + Messages(s.onWire))
         case Following(db) =>
           && s.snapshotAt.Some? && s.wire == Messages(s.onWire)
           && db == Replay(Replay(map[], s.log[..s.snapshotAt.value]), s.delivered)
         case GaveUp => true
  }

  /** No acknowledgement is ahead of what the standby applied. */
  ghost predicate AckInv(s: State) {
    && (!s.subscribed ==> s.standby.Waiting? && s.wire == [] && s.onWire == [] && s.delivered == [])
    && (s.waiting.Some? ==> s.waiting.value > 0)
    && (!s.standby.Following? ==> s.delivered == [])
    && (forall a :: a in s.acks ==> s.delivered != [] && a <= s.delivered[|s.delivered| - 1].version)
    && (s.applied > 0 ==> s.delivered != [] && s.applied <= s.delivered[|s.delivered| - 1].version)
  }

  ghost predicate Inv(s: State) {
    LogInv(s) && StreamInv(s) && AckInv(s)
  }

  // ---------------------------------------------------------------- what every step keeps

  /** Records without changes leave replay alone. */
  lemma {:induction false} ReplayNonEmpty(db: Db, log: seq<Record>)
    ensures Replay(db, NonEmpty(log)) == Replay(db, log)
  {
    if log != [] {
      var front, last := log[..|log| - 1], log[|log| - 1];
      ReplayNonEmpty(db, front);
      assert log == front + [last];
      ReplayConcat(db, front, [last]);
      if last.changes == [] {
        assert Changes([last]) == [] by {
          assert [last][..0] == [];
        }
        assert NonEmpty(log) == NonEmpty(front);
      } else {
        ReplayConcat(db, NonEmpty(front), [last]);
      }
    }
  }

  lemma ReplayOne(db: Db, rs: seq<Record>, r: Record)
    ensures Replay(db, rs + [r]) == ApplyAll(Replay(db, rs), r.changes)
  {
    ReplayConcat(db, rs, [r]);
    assert [r][..0] == [] && Changes([r]) == [] + r.changes == r.changes;
  }

  lemma CommitKeeps(s: State, rec: Record)
    requires Inv(s) && Enabled(s, Commit(rec))
    ensures Inv(After(s, Commit(rec)))
  {
    hide Replay, NonEmpty, Messages, LogInv, AckInv, Overtaken;
    var r := After(s, Commit(rec));
    CommitLog(s, rec);
    LogBounds(s);
    assert r.log[s.subscribedAt..s.notified] == s.log[s.subscribedAt..s.notified];
    assert Overtaken(r) == Overtaken(s) && AckInv(r) == AckInv(s) by {
      SameStandby(s, r);
    }
    if s.snapshotAt.Some? {
      assert r.log[..s.snapshotAt.value] == s.log[..s.snapshotAt.value];
    }
  }

  lemma CommitLog(s: State, rec: Record)
    requires LogInv(s) && Enabled(s, Commit(rec))
    ensures LogInv(After(s, Commit(rec)))
  {
    var r := After(s, Commit(rec));
    assert forall x :: x in r.log <==> x in s.log || x == rec;
  }

  lemma LogBounds(s: State)
    requires LogInv(s)
    ensures s.subscribedAt <= s.notified <= |s.log|
    ensures s.snapshotAt.Some? ==> s.snapshotAt.value <= |s.log|
  {
    hide Increasing;
  }

  lemma SameStandby(s: State, r: State)
    requires r == s.(log := r.log, version := r.version)
    ensures Overtaken(r) == Overtaken(s) && AckInv(r) == AckInv(s)
  {
  }

  lemma PrimaryKeeps(s: State, e: Event)
    requires Inv(s) && Enabled(s, e) && (e.Checkpoint? || e.Connect? || e.Subscribe?)
    ensures Inv(After(s, e))
  {
    hide Replay, NonEmpty, Messages, Increasing;
    if e.Subscribe? {
      SentNothing(s);
    }
  }

  lemma SentNothing(s: State)
    requires LogInv(s)
    ensures NonEmpty(s.log[s.notified..s.notified]) == []
  {
  }

  lemma OnCommitKeeps(s: State)
    requires Inv(s) && Enabled(s, OnCommit)
    ensures Inv(After(s, OnCommit))
  {
    hide Replay, Messages, NonEmpty;
    var rec, r := s.log[s.notified], After(s, OnCommit);
    SentSnoc(s);
    if s.subscribed && rec.changes != [] {
      assert s.delivered + s.onWire + r.channel == s.delivered + s.onWire + s.channel + [rec];
    }
  }

  lemma SentSnoc(s: State)
    requires LogInv(s) && s.notified < |s.log|
    ensures NonEmpty(s.log[s.subscribedAt..s.notified + 1])
         == Sent(s) + if s.log[s.notified].changes == [] then [] else [s.log[s.notified]]
  {
    var a, rec := s.log[s.subscribedAt..s.notified], s.log[s.notified];
    assert s.log[s.subscribedAt..s.notified + 1] == a + [rec];
    assert (a + [rec])[..|a|] == a;
  }

  lemma WaitKeeps(s: State, e: Event)
    requires Inv(s) && Enabled(s, e) && (e.OnCommitOk? || e.OnCommitTimeout? || e.ReceiveAck?)
    ensures Inv(After(s, e))
  {
    hide Replay, NonEmpty, Messages, AckInv;
    var r := After(s, e);
    assert LogInv(r) && Sent(r) == Sent(s);
    assert StreamInv(r);
    WaitAcks(s, e);
  }

  lemma WaitAcks(s: State, e: Event)
    requires AckInv(s) && Enabled(s, e) && (e.OnCommitOk? || e.OnCommitTimeout? || e.ReceiveAck?)
    ensures AckInv(After(s, e))
  {
    if e.ReceiveAck? {
      assert s.acks[0] in s.acks && forall a :: a in s.acks[1..] ==> a in s.acks;
    }
  }

  lemma ForwardKeeps(s: State)
    requires Inv(s) && Enabled(s, Forward)
    ensures Inv(After(s, Forward))
  {
    hide Replay, NonEmpty, Messages;
    var r := After(s, Forward);
    if !Overtaken(r) {
      assert !Overtaken(s);
      assert s.onWire + s.channel == r.onWire + r.channel;
      MessagesSnoc(s.onWire, s.channel[0]);
    }
  }

  lemma MessagesSnoc(rs: seq<Record>, r: Record)
    ensures Messages(rs + [r]) == Messages(rs) + [CommitMessage(r)]
  {
  }

  lemma SendSnapshotKeeps(s: State)
    requires Inv(s) && Enabled(s, SendSnapshot)
    ensures Inv(After(s, SendSnapshot))
  {
    hide Replay, NonEmpty;
    var r := After(s, SendSnapshot);
    assert s.log[..|s.log|] == s.log;
    assert forall i :: 0 <= i < |s.log| ==> s.log[i] in s.log;
    if !Overtaken(r) {
      assert Messages([]) == [];
    }
  }

  lemma ReceiveKeeps(s: State)
    requires Inv(s) && Enabled(s, Receive)
    ensures Inv(After(s, Receive))
  {
    hide Replay, NonEmpty;
    var r := After(s, Receive);
    if s.subscribed && !Overtaken(s) {
      match s.standby
      case Waiting =>
        assert r.wire == Messages(s.onWire);
        ReplayNone(Replay(map[], s.log[..s.snapshotAt.value]));
      case Following(db) =>
        assert s.wire[0] == CommitMessage(s.onWire[0]);
        assert s.delivered + s.onWire == r.delivered + r.onWire;
        ReplayOne(Replay(map[], s.log[..s.snapshotAt.value]), s.delivered, s.onWire[0]);
        DeliveredGrow(s, r);
      case GaveUp =>
    }
  }

  lemma ReplayNone(db: Db)
    ensures Replay(db, []) == db
  {
  }

  /** Delivered records come in version order, so the newest bounds all acknowledgements. */
  lemma DeliveredGrow(s: State, r: State)
    requires Inv(s) && s.subscribed && !Overtaken(s) && s.standby.Following? && s.onWire != []
    requires r.delivered == s.delivered + [s.onWire[0]] && r.acks == s.acks + [s.onWire[0].version] && r.applied == s.applied
    requires r.subscribed && r.standby.Following? && r.waiting == s.waiting
    ensures AckInv(r)
  {
    hide Replay, NonEmpty;
    SentIncreasing(s);
    if s.delivered != [] {
      var sent := Sent(s);
      assert sent[|s.delivered| - 1] == s.delivered[|s.delivered| - 1] && sent[|s.delivered|] == s.onWire[0];
    }
  }

  lemma SentIncreasing(s: State)
    requires LogInv(s)
    ensures Increasing(Sent(s))
  {
    var part := s.log[s.subscribedAt..s.notified];
    forall i, j | 0 <= i < j < |part| ensures part[i].version < part[j].version {
      assert part[i] == s.log[s.subscribedAt + i] && part[j] == s.log[s.subscribedAt + j];
    }
    NonEmptyIncreasing(part);
  }

  lemma {:induction false} NonEmptyIncreasing(log: seq<Record>)
    requires Increasing(log)
    ensures Increasing(NonEmpty(log))
    ensures forall r :: r in NonEmpty(log) ==> r in log
  {
    if log != [] {
      var front, last := log[..|log| - 1], log[|log| - 1];
      NonEmptyIncreasing(front);
      forall r | r in NonEmpty(front) ensures r.version < last.version {
        assert r in front;
      }
    }
  }

  lemma StepKeeps(s: State, e: Event)
    requires Inv(s) && Enabled(s, e)
    ensures Inv(After(s, e))
  {
    hide Inv, After, Enabled;
    match e {
      case Commit(rec) => CommitKeeps(s, rec);
      case OnCommit => OnCommitKeeps(s);
      case OnCommitOk => WaitKeeps(s, e);
      case OnCommitTimeout => WaitKeeps(s, e);
      case ReceiveAck => WaitKeeps(s, e);
      case Forward => ForwardKeeps(s);
      case SendSnapshot => SendSnapshotKeeps(s);
      case Receive => ReceiveKeeps(s);
      case _ => PrimaryKeeps(s, e);
    }
  }

  lemma {:induction false} RunKeeps(s: State, es: seq<Event>, r: State)
    requires Inv(s) && Run(s, es, r)
    ensures Inv(r)
    decreases es
  {
    hide Inv, After, Enabled;
    if es != [] {
      StepKeeps(s, es[0]);
      RunKeeps(After(s, es[0]), es[1..], r);
    }
  }

  lemma ReachableKeeps(s: State)
    requires Reachable(s)
    ensures Inv(s)
  {
    var es :| Run(INITIAL, es, s);
    RunKeeps(INITIAL, es, s);
  }

  // ---------------------------------------------------------------- theorems

  /** What has been delivered is what one stretch of the log sends. */
  lemma {:induction false} PrefixOfNonEmpty(log: seq<Record>, n: nat) returns (m: nat)
    requires n <= |NonEmpty(log)|
    ensures m <= |log| && NonEmpty(log[..m]) == NonEmpty(log)[..n]
    ensures n > 0 ==> m > 0 && log[m - 1] == NonEmpty(log)[n - 1]
  {
    if n == 0 {
      m := 0;
    } else if n == |NonEmpty(log)| && log[|log| - 1].changes != [] {
      m := |log|;
      assert log[..m] == log;
    } else {
      m := PrefixOfNonEmpty(log[..|log| - 1], n);
      assert log[..|log| - 1][..m] == log[..m];
    }
  }

  /** A record not older than the snapshot stands at or after the snapshot's last record. */
  lemma NotBeforeSnapshot(s: State, m: nat)
    requires LogInv(s) && s.snapshotAt.Some? && 0 < m <= |s.log|
    requires s.log[m - 1].version >= s.snapshotVersion
    ensures s.snapshotAt.value <= m
  {
    var at := s.snapshotAt.value;
    if at > 0 {
      assert s.log[at - 1].version <= s.snapshotVersion;
    }
  }

  /**
   * Once the standby has applied a record not older than its snapshot, its maps are the primary's
   * after exactly the commits up to that record, even though records between subscription and
   * snapshot were applied twice.
   */
  lemma StandbyCatchesUp(s: State)
    requires Reachable(s) && s.standby.Following? && s.delivered != []
    requires s.delivered[|s.delivered| - 1].version >= s.snapshotVersion
    ensures exists m :: 0 < m <= |s.log| && s.log[m - 1] == s.delivered[|s.delivered| - 1]
                        && Same(s.standby.db, Replay(map[], s.log[..m]))
  {
    hide Replay, NonEmpty, Messages, Same, Increasing;
    ReachableKeeps(s);
    var part := s.log[s.subscribedAt..s.notified];
    var n := |s.delivered|;
    assert NonEmpty(part)[..n] == s.delivered;
    var k := PrefixOfNonEmpty(part, n);
    var m := s.subscribedAt + k;
    assert part[..k] == s.log[s.subscribedAt..m];
    assert s.log[m - 1] == part[k - 1] == s.delivered[n - 1];
    NotBeforeSnapshot(s, m);
    Absorbed(s.log, s.subscribedAt, s.snapshotAt.value, m);
  }

  /** What is sent of a log from i to m, replayed over the store at position at, gives the store at m. */
  lemma Absorbed(log: seq<Record>, i: nat, at: nat, m: nat)
    requires i <= at <= m <= |log|
    ensures Same(Replay(Replay(map[], log[..at]), NonEmpty(log[i..m])), Replay(map[], log[..m]))
  {
    hide Replay, NonEmpty, Same;
    var upto := log[..m];
    ReplayNonEmpty(Replay(map[], log[..at]), log[i..m]);
    assert upto[..at] == log[..at] && upto[i..] == log[i..m];
    ReplayFromEarlier(map[], upto, i, at);
  }

  /** The last record of a log's sent part is not newer than the log's last, and equal if not older. */
  lemma LastSent(log: seq<Record>, r: Record)
    requires Increasing(log) && log != [] && r in NonEmpty(log) && r.version >= log[|log| - 1].version
    ensures r == log[|log| - 1]
  {
    NonEmptyIncreasing(log);
    var i :| 0 <= i < |log| && log[i] == r;
  }

  /** The record waited for, once acknowledged, is the last one the standby applied. */
  lemma WaitedIsLast(s: State)
    requires Inv(s) && Enabled(s, OnCommitOk)
    ensures 0 < s.notified <= |s.log| && s.waiting.value == s.log[s.notified - 1].version
    ensures s.subscribed && s.standby.Following? && s.delivered != []
    ensures s.delivered[|s.delivered| - 1] == s.log[s.notified - 1]
  {
    hide Replay, NonEmpty, Messages, Increasing;
    var n := |s.delivered|;
    var part := s.log[s.subscribedAt..s.notified];
    assert Sent(s)[n - 1] == s.delivered[n - 1];
    Stretch(s.log, s.subscribedAt, s.notified);
    NonEmptyNothing(part);
    assert part[|part| - 1] == s.log[s.notified - 1];
    LastSent(part, s.delivered[n - 1]);
  }

  lemma NonEmptyNothing(log: seq<Record>)
    ensures NonEmpty(log) != [] ==> log != []
  {
  }

  lemma Stretch(log: seq<Record>, i: nat, j: nat)
    requires Increasing(log) && i <= j <= |log|
    ensures Increasing(log[i..j])
  {
  }

  /**
   * `on_commit` returns success only after the standby applied the very record it waited for and
   * every record sent before it. If the snapshot is not newer, the standby's maps are then the
   * primary's after exactly the commits up to that record.
   */
  lemma AcknowledgedMeansApplied(s: State)
    requires Reachable(s) && Enabled(s, OnCommitOk)
    ensures s.subscribedAt < s.notified <= |s.log|
    ensures s.waiting.value == s.log[s.notified - 1].version && s.log[s.notified - 1] in s.delivered
    ensures s.subscribed && s.delivered == Sent(s)
    ensures s.waiting.value >= s.snapshotVersion ==>
              s.standby.Following? && Same(s.standby.db, Replay(map[], s.log[..s.notified]))
  {
    hide Replay, NonEmpty, Messages, Increasing, Same;
    ReachableKeeps(s);
    WaitedIsLast(s);
    SentIncreasing(s);
    var sent, n := Sent(s), |s.delivered|;
    assert sent[n - 1] == s.delivered[n - 1] == s.log[s.notified - 1];
    NothingBehind(s, sent, n);
    NonEmptyNothing(s.log[s.subscribedAt..s.notified]);
    if s.waiting.value >= s.snapshotVersion {
      CaughtUpAt(s, s.notified);
    }
  }

  /** `StandbyCatchesUp` at a known place of the log. */
  lemma CaughtUpAt(s: State, at: nat)
    requires Reachable(s) && LogInv(s) && s.standby.Following? && s.delivered != [] && 0 < at <= |s.log|
    requires s.delivered[|s.delivered| - 1] == s.log[at - 1] && s.log[at - 1].version >= s.snapshotVersion
    ensures Same(s.standby.db, Replay(map[], s.log[..at]))
  {
    hide Replay, Increasing, Same;
    StandbyCatchesUp(s);
    var m :| 0 < m <= |s.log| && s.log[m - 1] == s.log[at - 1] && Same(s.standby.db, Replay(map[], s.log[..m]));
    SamePlace(s.log, m - 1, at - 1);
  }

  /** Nothing sent is newer than the last record handed to the hub, so nothing is still on its way. */
  lemma NothingBehind(s: State, sent: seq<Record>, n: nat)
    requires LogInv(s) && sent == Sent(s) && 0 < n <= |sent| && Increasing(sent)
    requires s.notified > 0 && sent[n - 1] == s.log[s.notified - 1]
    ensures n == |sent|
  {
    hide NonEmpty;
    var part, last := s.log[s.subscribedAt..s.notified], sent[|sent| - 1];
    NonEmptyIncreasing(part);
    assert last in sent;
    var i :| 0 <= i < |part| && part[i] == last;
    assert s.log[s.subscribedAt + i] == last;
    assert last.version <= sent[n - 1].version;
  }

  lemma SamePlace(log: seq<Record>, i: nat, j: nat)
    requires Increasing(log) && i < |log| && j < |log| && log[i] == log[j]
    ensures i == j
  {
  }
}
