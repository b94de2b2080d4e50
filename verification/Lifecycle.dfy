/**
 * The life of a node's record over whole runs: how its status moves, when failed polls take it
 * offline, and when what was removed stays removed - each with the exact condition under which an
 * update that was read earlier does not undo it.
 */
module Lifecycle {
  import opened Types
  import opened Records
  import opened Queries
  import opened Heartbeat
  import opened Sweeps
  import opened Cluster

  ghost function StatusOf(db: DB, id: string): Option<NodeStatus> {
    match VitalsOf(db, id)
    case Some(v) => Some(v.status)
    case None => None
  }

  /** The status moves that are not back: from online to unknown or offline, from unknown to offline. */
  predicate Moves(p: Option<NodeStatus>, q: Option<NodeStatus>) {
    || p == q
    || q == None
    || (p == Some(Online) && (q == Some(Unknown) || q == Some(Offline)))
    || (p == Some(Unknown) && q == Some(Offline))
  }

  /** The step writes a node whose status is no longer the one its request read. */
  ghost predicate Stale(s: State, a: Action, id: string)
    requires Enabled(s, a)
  {
    a.WriteNode? && s.drafts[a.request].id == id && StatusOf(s.db, id) != Some(s.drafts[a.request].status)
  }

  ghost predicate NoStale(s: State, actions: seq<Action>, id: string)
    requires CanRun(s, actions)
    decreases |actions|
  {
    actions == [] || (!Stale(s, actions[0], id) && NoStale(Next(s, actions[0]), actions[1..], id))
  }

  /** At every step of the run the node's status moves only as allowed. */
  ghost predicate OnlyDegrades(s: State, actions: seq<Action>, id: string)
    requires CanRun(s, actions)
    decreases |actions|
  {
    actions == [] ||
    (&& Moves(StatusOf(s.db, id), StatusOf(Next(s, actions[0]).db, id))
     && OnlyDegrades(Next(s, actions[0]), actions[1..], id))
  }

  /** What the sweep has listed and requests have read of the node is as it is, or as it was before. */
  ghost predicate Fits(s: State, id: string) {
    && (forall i :: 0 <= i < |s.pending| && s.pending[i].id == id ==>
          StatusOf(s.db, id) in {None, Some(s.pending[i].status)})
    && (forall k :: k in s.drafts && s.drafts[k].id == id ==>
          Moves(Some(s.drafts[k].status), StatusOf(s.db, id)))
  }

  lemma {:induction false} InitialFits(s: State, id: string)
    requires Initial(s)
    ensures StoreOk(s) && Fits(s, id)
  {
  }

  lemma {:induction false} StatusAfter(s: State, a: Action, id: string)
    requires StoreOk(s) && Enabled(s, a)
    ensures VitalsOf(Next(s, a).db, id) == VitalsAfter(s, a, id)
  {
    StoreNext(s, a);
  }

  lemma {:induction false} StepMoves(s: State, a: Action, id: string)
    requires StoreOk(s) && Fits(s, id) && Enabled(s, a) && id in s.used && !Stale(s, a, id)
    ensures Moves(StatusOf(s.db, id), StatusOf(Next(s, a).db, id))
  {
    StatusAfter(s, a, id);
  }

  /** A write of a stale read always moves the status back. */
  lemma {:induction false} StaleMovesBack(s: State, a: Action, id: string)
    requires StoreOk(s) && Fits(s, id) && Enabled(s, a) && Stale(s, a, id)
    ensures !Moves(StatusOf(s.db, id), StatusOf(Next(s, a).db, id))
  {
    StatusAfter(s, a, id);
    assert a.request in s.drafts;
  }

  lemma {:induction false} MovesOn(p: Option<NodeStatus>, q: Option<NodeStatus>, r: Option<NodeStatus>)
    requires Moves(p, q) && Moves(q, r)
    ensures Moves(p, r)
  {
  }

  /** The nodes a sweep still has to poll are as listed, or gone. */
  lemma {:induction false} PendingFits(s: State, a: Action, id: string)
    requires StoreOk(s) && Fits(s, id) && Enabled(s, a) && !Stale(s, a, id)
    ensures forall i :: 0 <= i < |NextPending(s, a)| && NextPending(s, a)[i].id == id ==>
              StatusOf(Next(s, a).db, id) in {None, Some(NextPending(s, a)[i].status)}
  {
    var t := Next(s, a);
    StatusAfter(s, a, id);
    forall i | 0 <= i < |t.pending| && t.pending[i].id == id
      ensures StatusOf(t.db, id) in {None, Some(t.pending[i].status)}
    {
      if a.ListPolled? {
        ListingIsExact(s.db, POLLED, a.polled);
        assert t.pending[i] in a.polled;
        assert IsNode(s.db, t.pending[i]);
      } else if a.PollFails? || a.PollAnswers? {
        assert t.pending[i] == s.pending[i + 1];
        assert s.pending[0].id != s.pending[i + 1].id;
      } else {
        assert t.pending[i] == s.pending[i];
        assert t.pending[i].id in s.used;
      }
    }
  }

  lemma {:induction false} DraftsFit(s: State, a: Action, id: string)
    requires StoreOk(s) && Fits(s, id) && Enabled(s, a) && !Stale(s, a, id)
    ensures forall k :: k in NextDrafts(s, a) && NextDrafts(s, a)[k].id == id ==>
              Moves(Some(NextDrafts(s, a)[k].status), StatusOf(Next(s, a).db, id))
  {
    var t := Next(s, a);
    StatusAfter(s, a, id);
    forall k | k in t.drafts && t.drafts[k].id == id
      ensures Moves(Some(t.drafts[k].status), StatusOf(t.db, id))
    {
      if a.ReadNode? && k == a.request {
        assert DocOk(NodeKey(a.id), s.db[NodeKey(a.id)]);
      } else {
        assert k in s.drafts && t.drafts[k] == s.drafts[k];
        StepMoves(s, a, id);
        MovesOn(Some(s.drafts[k].status), StatusOf(s.db, id), StatusOf(t.db, id));
      }
    }
  }

  lemma {:induction false} FitsKept(s: State, a: Action, id: string)
    requires StoreOk(s) && Fits(s, id) && Enabled(s, a) && !Stale(s, a, id)
    ensures Fits(Next(s, a), id)
  {
    PendingFits(s, a, id);
    DraftsFit(s, a, id);
  }

  lemma {:induction false} FitsRun(s: State, actions: seq<Action>, id: string)
    requires StoreOk(s) && Fits(s, id) && CanRun(s, actions) && NoStale(s, actions, id)
    ensures Fits(Run(s, actions), id)
    decreases |actions|
  {
    if actions == [] {
    } else {
      StoreKept(s, actions[0]);
      FitsKept(s, actions[0], id);
      FitsRun(Next(s, actions[0]), actions[1..], id);
    }
  }

  lemma {:induction false} NoStaleConcat(s: State, a: seq<Action>, b: seq<Action>, id: string)
    requires CanRun(s, a + b)
    ensures CanRun(s, a) && CanRun(Run(s, a), b)
    ensures NoStale(s, a + b, id) <==> NoStale(s, a, id) && NoStale(Run(s, a), b, id)
    decreases |a|
  {
    RunConcat(s, a, b);
    if a == [] {
      assert a + b == b;
    } else {
      assert (a + b)[0] == a[0] && (a + b)[1..] == a[1..] + b;
      NoStaleConcat(Next(s, a[0]), a[1..], b, id);
    }
  }

  /**
   * Over every run, a known node's status moves only from online to unknown or offline and from
   * unknown to offline if and only if no update request writes a status that is not the stored one
   * any more.
   */
  lemma {:induction false} StatusOnlyDegrades(s: State, actions: seq<Action>, id: string)
    requires StoreOk(s) && Fits(s, id) && CanRun(s, actions) && id in s.used
    ensures OnlyDegrades(s, actions, id) <==> NoStale(s, actions, id)
    ensures NoStale(s, actions, id) ==> Moves(StatusOf(s.db, id), StatusOf(Run(s, actions).db, id))
    decreases |actions|
  {
    if actions == [] {
    } else {
      var a, t := actions[0], Next(s, actions[0]);
      if Stale(s, a, id) {
        StaleMovesBack(s, a, id);
      } else {
        StoreKept(s, a);
        FitsKept(s, a, id);
        StepMoves(s, a, id);
        StatusOnlyDegrades(t, actions[1..], id);
        if NoStale(t, actions[1..], id) {
          MovesOn(StatusOf(s.db, id), StatusOf(t.db, id), StatusOf(Run(t, actions[1..]).db, id));
        }
      }
    }
  }

  /** A failed poll leaves the node unknown, offline or gone. */
  lemma {:induction false} MissTakesNodeOut(s: State, decidedAt: Time, markedAt: Time)
    requires StoreOk(s) && Enabled(s, PollFails(decidedAt, markedAt))
    ensures s.pending[0].id in s.used
    ensures StatusOf(Next(s, PollFails(decidedAt, markedAt)).db, s.pending[0].id)
            in {Some(Unknown), Some(Offline), None}
  {
    StatusAfter(s, PollFails(decidedAt, markedAt), s.pending[0].id);
  }

  lemma {:induction false} ReadThenMiss(s: State, k: nat, d: Time, m: Time)
    requires StoreOk(s) && s.sweeper == Between && s.pending != [] && k !in s.drafts && IsNode(s.db, s.pending[0])
    ensures var n := s.pending[0];
            var one := Next(s, ReadNode(k, n.id));
            && Enabled(one, PollFails(d, m))
            && var two := Next(one, PollFails(d, m));
               && VitalsOf(two.db, n.id) == Some(Vitals(MissedStatus(n, d), m))
               && two.drafts == s.drafts[k := n] && StoreOk(two)
  {
    var n := s.pending[0];
    var one := Next(s, ReadNode(k, n.id));
    StoreKept(s, ReadNode(k, n.id));
    StatusAfter(s, ReadNode(k, n.id), n.id);
    StoreKept(one, PollFails(d, m));
    StatusAfter(one, PollFails(d, m), n.id);
  }

  /** An update request that reads a node before a poll fails, and writes it after, undoes the poll. */
  lemma {:induction false} UpdateUndoesPoll(
      s: State, k: nat, d: Time, m: Time, metadata: string, tops: seq<Float>, now: Time)
    requires StoreOk(s) && s.sweeper == Between && s.pending != [] && k !in s.drafts && IsNode(s.db, s.pending[0])
    ensures var n := s.pending[0];
            var upTo, all := [ReadNode(k, n.id), PollFails(d, m)],
                             [ReadNode(k, n.id), PollFails(d, m), WriteNode(k, metadata, tops, now)];
            && CanRun(s, upTo) && CanRun(s, all)
            && StatusOf(Run(s, upTo).db, n.id) == Some(MissedStatus(n, d))
            && StatusOf(Run(s, all).db, n.id) == Some(n.status)
            && (n.lastHeartbeat != ZERO_TIME ==> VitalsOf(Run(s, all).db, n.id) == Some(VitalsIn(n)))
  {
    var n := s.pending[0];
    var read, miss, write := ReadNode(k, n.id), PollFails(d, m), WriteNode(k, metadata, tops, now);
    ReadThenMiss(s, k, d, m);
    RunTwo(s, read, miss);
    var two := Run(s, [read, miss]);
    RunOne(two, write);
    StatusAfter(two, write, n.id);
    RunConcat(s, [read, miss], [write]);
    assert [read, miss] + [write] == [read, miss, write];
  }

  lemma {:induction false} RunTwo(s: State, a: Action, b: Action)
    requires Enabled(s, a) && Enabled(Next(s, a), b)
    ensures CanRun(s, [a, b]) && Run(s, [a, b]) == Next(Next(s, a), b)
  {
    RunOne(s, a);
    RunOne(Next(s, a), b);
    RunConcat(s, [a], [b]);
    assert [a] + [b] == [a, b];
  }

  // ----- Offline timing -----

  /** Every poll of the node in the run fails. */
  ghost predicate AllFail(s: State, actions: seq<Action>, id: string)
    requires CanRun(s, actions)
    decreases |actions|
  {
    actions == [] ||
    (!(actions[0].PollAnswers? && s.pending[0].id == id) && AllFail(Next(s, actions[0]), actions[1..], id))
  }

  ghost predicate IsMiss(s: State, a: Action, id: string)
    requires Enabled(s, a)
  {
    a.PollFails? && s.pending[0].id == id
  }

  /** Every poll of the node is decided within 40 seconds of its mark before. */
  ghost predicate OnTime(s: State, actions: seq<Action>, id: string, last: Time)
    requires CanRun(s, actions)
    decreases |actions|
  {
    actions == [] ||
    if IsMiss(s, actions[0], id)
    then actions[0].decidedAt <= last + OFFLINE_AFTER
         && OnTime(Next(s, actions[0]), actions[1..], id, actions[0].markedAt)
    else OnTime(Next(s, actions[0]), actions[1..], id, last)
  }

  /** The step writes a node whose status or mark is no longer the one its request read, if it read one. */
  ghost predicate StaleMark(s: State, a: Action, id: string)
    requires Enabled(s, a)
  {
    && a.WriteNode? && s.drafts[a.request].id == id
    && var e := s.drafts[a.request];
       var now := VitalsOf(s.db, id);
       || now == None || now.value.status != e.status
       || (e.lastHeartbeat != ZERO_TIME && now.value.lastHeartbeat != e.lastHeartbeat)
  }

  ghost predicate NoStaleMark(s: State, actions: seq<Action>, id: string)
    requires CanRun(s, actions)
    decreases |actions|
  {
    actions == [] || (!StaleMark(s, actions[0], id) && NoStaleMark(Next(s, actions[0]), actions[1..], id))
  }

  /** The nodes a sweep still has to poll have the marks it listed them with, or are gone. */
  ghost predicate MarksFit(s: State, id: string) {
    forall i :: 0 <= i < |s.pending| && s.pending[i].id == id ==>
      VitalsOf(s.db, id) in {None, Some(VitalsIn(s.pending[i]))}
  }

  /** Only a failed poll of the node itself and its removal change what sweeps decide on. */
  lemma {:induction false} VitalsKept(s: State, a: Action, id: string)
    requires StoreOk(s) && Enabled(s, a) && id in s.used && !StaleMark(s, a, id) && !IsMiss(s, a, id)
    ensures VitalsOf(Next(s, a).db, id) == if a == DeRegister(id) then None else VitalsOf(s.db, id)
  {
    StatusAfter(s, a, id);
  }

  /** At every step, the node's status and mark change only by a failed poll or its removal. */
  ghost predicate OnlyPollsMark(s: State, actions: seq<Action>, id: string)
    requires CanRun(s, actions)
    decreases |actions|
  {
    actions == [] ||
    (&& (|| IsMiss(s, actions[0], id) || actions[0] == DeRegister(id)
         || VitalsOf(Next(s, actions[0]).db, id) == VitalsOf(s.db, id))
     && OnlyPollsMark(Next(s, actions[0]), actions[1..], id))
  }

  /** Over every run nothing else changes them, if and only if no update request writes stale ones. */
  lemma {:induction false} MarksMoveOnlyByPolls(s: State, actions: seq<Action>, id: string)
    requires StoreOk(s) && CanRun(s, actions) && id in s.used
    ensures OnlyPollsMark(s, actions, id) <==> NoStaleMark(s, actions, id)
    decreases |actions|
  {
    if actions == [] {
    } else {
      StoreKept(s, actions[0]);
      StoreNext(s, actions[0]);
      MarksMoveOnlyByPolls(Next(s, actions[0]), actions[1..], id);
    }
  }

  lemma {:induction false} MissVitals(s: State, a: Action, id: string)
    requires StoreOk(s) && MarksFit(s, id) && Enabled(s, a) && IsMiss(s, a, id) && VitalsOf(s.db, id).Some?
    ensures var last := VitalsOf(s.db, id).value.lastHeartbeat;
            VitalsOf(Next(s, a).db, id)
            == Some(Vitals(if last + OFFLINE_AFTER < a.decidedAt then Offline else Unknown, a.markedAt))
    ensures VitalsOf(s.db, id).value.status in POLLED
  {
    StatusAfter(s, a, id);
  }

  lemma {:induction false} MarksKept(s: State, a: Action, id: string)
    requires StoreOk(s) && MarksFit(s, id) && Enabled(s, a) && id in s.used && !StaleMark(s, a, id)
    ensures MarksFit(Next(s, a), id)
  {
    var t := Next(s, a);
    StatusAfter(s, a, id);
    forall i | 0 <= i < |t.pending| && t.pending[i].id == id
      ensures VitalsOf(t.db, id) in {None, Some(VitalsIn(t.pending[i]))}
    {
      if a.ListPolled? {
        ListingIsExact(s.db, POLLED, a.polled);
        assert t.pending[i] in a.polled;
        assert IsNode(s.db, t.pending[i]);
      } else if a.PollFails? || a.PollAnswers? {
        assert t.pending[i] == s.pending[i + 1];
        assert s.pending[0].id != s.pending[i + 1].id;
      } else {
        assert t.pending[i] == s.pending[i];
      }
    }
  }

  /** A node that is gone stays gone as long as no update that read it earlier writes it. */
  lemma {:induction false} StayingGone(s: State, actions: seq<Action>, id: string)
    requires StoreOk(s) && CanRun(s, actions) && NoStaleMark(s, actions, id)
    requires id in s.used && VitalsOf(s.db, id) == None
    ensures VitalsOf(Run(s, actions).db, id) == None
    decreases |actions|
  {
    if actions == [] {
    } else {
      StoreKept(s, actions[0]);
      StatusAfter(s, actions[0], id);
      StoreNext(s, actions[0]);
      StayingGone(Next(s, actions[0]), actions[1..], id);
    }
  }

  /** An offline node is left alone until it is deregistered. */
  lemma {:induction false} OfflineLasts(s: State, actions: seq<Action>, id: string)
    requires StoreOk(s) && MarksFit(s, id) && CanRun(s, actions) && NoStaleMark(s, actions, id)
    requires id in s.used && StatusOf(s.db, id) == Some(Offline)
    ensures StatusOf(Run(s, actions).db, id) == if DeRegister(id) in actions then None else Some(Offline)
    decreases |actions|
  {
    if actions == [] {
    } else {
      var a, t, rest := actions[0], Next(s, actions[0]), actions[1..];
      assert actions == [a] + rest;
      StoreKept(s, a);
      StoreNext(s, a);
      MarksKept(s, a, id);
      if IsMiss(s, a, id) {
        MissVitals(s, a, id);
        assert false;
      } else {
        VitalsKept(s, a, id);
        if a == DeRegister(id) {
          StayingGone(t, rest, id);
        } else {
          OfflineLasts(t, rest, id);
        }
      }
    }
  }

  /**
   * Over every run, an unknown node that fails all its polls is gone exactly if it was deregistered;
   * otherwise it is unknown if each poll came within 40 seconds of the mark before, and offline if
   * not - as long as no update request writes marks older than the stored ones.
   */
  lemma {:induction false} OfflineTimingOverRuns(s: State, actions: seq<Action>, id: string, last: Time)
    requires StoreOk(s) && MarksFit(s, id) && CanRun(s, actions)
    requires AllFail(s, actions, id) && NoStaleMark(s, actions, id)
    requires id in s.used && VitalsOf(s.db, id) == Some(Vitals(Unknown, last))
    ensures StatusOf(Run(s, actions).db, id)
         == if DeRegister(id) in actions then None
            else Some(if OnTime(s, actions, id, last) then Unknown else Offline)
    decreases |actions|
  {
    if actions == [] {
    } else {
      var a, t, rest := actions[0], Next(s, actions[0]), actions[1..];
      assert actions == [a] + rest;
      StoreKept(s, a);
      StoreNext(s, a);
      MarksKept(s, a, id);
      if IsMiss(s, a, id) {
        MissVitals(s, a, id);
        if StatusOf(t.db, id) == Some(Unknown) {
          OfflineTimingOverRuns(t, rest, id, a.markedAt);
        } else {
          OfflineLasts(t, rest, id);
        }
      } else {
        VitalsKept(s, a, id);
        if a == DeRegister(id) {
          StayingGone(t, rest, id);
        } else {
          OfflineTimingOverRuns(t, rest, id, last);
        }
      }
    }
  }

  // ----- What was removed -----

  /** Some update request has read the node and not written it yet. */
  ghost predicate Drafted(s: State, id: string) {
    exists k :: k in s.drafts && s.drafts[k].id == id
  }

  lemma {:induction false} UndraftedStaysGone(s: State, actions: seq<Action>, id: string)
    requires StoreOk(s) && CanRun(s, actions) && id in s.used && VitalsOf(s.db, id) == None && !Drafted(s, id)
    ensures VitalsOf(Run(s, actions).db, id) == None
    decreases |actions|
  {
    if actions == [] {
    } else {
      var a, t := actions[0], Next(s, actions[0]);
      StoreKept(s, a);
      StoreNext(s, a);
      forall k | k in t.drafts ensures t.drafts[k].id != id {
        if a.ReadNode? && k == a.request {
          assert DocOk(NodeKey(a.id), s.db[NodeKey(a.id)]);
        } else {
          assert k in s.drafts && t.drafts[k] == s.drafts[k];
        }
      }
      UndraftedStaysGone(t, actions[1..], id);
    }
  }

  /** A removed node stays removed in every run, if and only if no update request has it read already. */
  lemma {:induction false} RemovedNodeStaysGone(s: State, id: string)
    requires StoreOk(s) && id in s.used && VitalsOf(s.db, id) == None
    ensures (forall actions :: CanRun(s, actions) ==> VitalsOf(Run(s, actions).db, id) == None) <==> !Drafted(s, id)
  {
    if Drafted(s, id) {
      var k :| k in s.drafts && s.drafts[k].id == id;
      var write := WriteNode(k, "", [], 0);
      RunOne(s, write);
      StatusAfter(s, write, id);
      assert CanRun(s, [write]) && VitalsOf(Run(s, [write]).db, id) != None;
    } else {
      forall actions | CanRun(s, actions) ensures VitalsOf(Run(s, actions).db, id) == None {
        UndraftedStaysGone(s, actions, id);
      }
    }
  }

  /** The sweep has read the replica and is about to write it. */
  predicate AboutToWrite(x: Sweeper, id: string) {
    x.Refreshing? && x.read.Some? && x.ids != [] && x.ids[0] == id
  }

  ghost predicate NotPut(actions: seq<Action>, id: string) {
    forall i :: 0 <= i < |actions| ==> !(actions[i].PutReplica? && actions[i].id == id)
  }

  /** Only a put of the replica, or the sweep that has read it already, can add it. */
  lemma {:induction false} ReplicaAdded(s: State, a: Action, id: string)
    requires StoreOk(s) && Enabled(s, a) && ReplicaKey(id) !in s.db
    requires !(a.PutReplica? && a.id == id)
    ensures ReplicaKey(id) in NextDb(s, a) <==> a.WriteReplica? && AboutToWrite(s.sweeper, id)
  {
    var k := ReplicaKey(id);
    assert KindOf(k) == ReplicaKind && IdOf(k) == id;
    if WritesNode(a) {
      NodeStepKeys(s, a, k);
    } else {
      match a
      case WriteReplica(at) =>
        var x := s.sweeper.ids[0];
        assert IdOf(ReplicaKey(x)) == x;
        WriteBackKeys(s.db, x, s.sweeper.read.value, s.sweeper.reports, at);
      case PutReplica(x, _) => assert IdOf(ReplicaKey(x)) == x;
      case PutModel(x, _) => assert ModelKey(x) != k;
      case _ =>
    }
  }

  lemma {:induction false} NodeStepKeys(s: State, a: Action, k: string)
    requires Enabled(s, a) && WritesNode(a) && KindOf(k) != NodeKind
    ensures k in NextDb(s, a) <==> k in s.db
  {
  }

  lemma {:induction false} WriteBackKeys(db: DB, id: string, info: ReplicaInfo, reports: seq<Report>, at: Time)
    requires info.id == id != ""
    ensures WriteBack(db, id, info, reports, at).Keys == db.Keys + {ReplicaKey(id)}
  {
  }

  lemma {:induction false} UnreadReplicaStaysGone(s: State, actions: seq<Action>, id: string)
    requires StoreOk(s) && CanRun(s, actions) && NotPut(actions, id)
    requires ReplicaKey(id) !in s.db && !AboutToWrite(s.sweeper, id)
    ensures ReplicaKey(id) !in Run(s, actions).db
    decreases |actions|
  {
    if actions == [] {
    } else {
      var a, t := actions[0], Next(s, actions[0]);
      StoreKept(s, a);
      ReplicaAdded(s, a, id);
      if AboutToWrite(t.sweeper, id) {
        assert a.ReadReplica?;
        FoundIs(s.db, id);
        assert false;
      }
      UnreadReplicaStaysGone(t, actions[1..], id);
    }
  }

  /**
   * A removed replica stays removed in every run in which it is not put again, if and only if no
   * sweep is between reading it and writing it back.
   */
  lemma {:induction false} RemovedReplicaStaysGone(s: State, id: string)
    requires StoreOk(s) && ReplicaKey(id) !in s.db
    ensures (forall actions :: CanRun(s, actions) && NotPut(actions, id) ==> ReplicaKey(id) !in Run(s, actions).db)
            <==> !AboutToWrite(s.sweeper, id)
  {
    if AboutToWrite(s.sweeper, id) {
      var write := WriteReplica(0);
      RunOne(s, write);
      ReplicaAdded(s, write, id);
      assert CanRun(s, [write]) && NotPut([write], id) && ReplicaKey(id) in Run(s, [write]).db;
    } else {
      forall actions | CanRun(s, actions) && NotPut(actions, id) ensures ReplicaKey(id) !in Run(s, actions).db {
        UnreadReplicaStaysGone(s, actions, id);
      }
    }
  }
}
