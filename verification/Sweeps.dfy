/**
 * What sweeps do to the store, what the table contains, and when nodes go offline.
 */
module Sweeps {
  import opened Types
  import opened Records
  import opened Registry
  import opened Queries
  import opened Heartbeat

  // ----- Listings -----

  /** Distinct stored nodes: what a listing of a well-formed store is. */
  ghost predicate DistinctNodes(db: DB, nodes: seq<NodeInfo>) {
    && (forall i :: 0 <= i < |nodes| ==> IsNode(db, nodes[i]))
    && (forall i, j :: 0 <= i < j < |nodes| ==> nodes[i].id != nodes[j].id)
  }

  lemma {:induction false} SelectionDistinct(db: DB, all: seq<NodeInfo>, statuses: set<NodeStatus>)
    requires DistinctNodes(db, all)
    ensures DistinctNodes(db, WithStatus(all, statuses))
  {
    if all == [] {
    } else {
      var rest := all[..|all| - 1];
      SelectionDistinct(db, rest, statuses);
      var r := WithStatus(rest, statuses);
      forall i | 0 <= i < |r| ensures r[i].id != all[|all| - 1].id {
        assert r[i] in rest;
      }
    }
  }

  /** A listing holds each stored node in the given statuses exactly once. */
  lemma {:induction false} ListingIsExact(db: DB, statuses: set<NodeStatus>, nodes: seq<NodeInfo>)
    requires WellFormed(db) && Listing(db, statuses, nodes)
    ensures DistinctNodes(db, nodes)
    ensures forall n :: n in nodes <==> IsNode(db, n) && n.status in statuses
  {
    var keys: seq<string>, all: seq<NodeInfo> :| ListsNodes(db, keys, all) && nodes == WithStatus(all, statuses);
    forall i | 0 <= i < |all| ensures IsNode(db, all[i]) && keys[i] == NodeKey(all[i].id) {
      ListedIsNode(db, keys, all, i);
    }
    SelectionDistinct(db, all, statuses);
    forall n | IsNode(db, n) ensures n in all {
      var i := NodeIsListed(db, keys, all, n);
    }
  }

  // ----- Effect and frame of a sweep -----

  lemma {:induction false} RefreshOneEffect(db: DB, id: string, reports: seq<Report>, at: Time)
    requires WellFormed(db)
    ensures var t := RefreshOne(db, id, reports, at);
            && WellFormed(t) && t.Keys == db.Keys
            && (forall k :: k in db && k != ReplicaKey(id) ==> t[k] == db[k])
            && (ReplicaKey(id) in db ==>
                  t[ReplicaKey(id)] == ReplicaDoc(Refreshed(db[ReplicaKey(id)].replica, FirstReport(reports, id), at)))
  {
    var k := ReplicaKey(id);
    if k in db {
      assert DocOk(k, db[k]);
    }
  }

  lemma {:induction false} RefreshEffect(db: DB, ids: seq<string>, reports: seq<Report>, at: Time)
    requires WellFormed(db)
    ensures var t := Refresh(db, ids, reports, at);
            && WellFormed(t) && t.Keys == db.Keys
            && (forall k :: k in db && !(KindOf(k) == ReplicaKind && IdOf(k) in ids) ==> t[k] == db[k])
            && (forall id :: id in ids && ReplicaKey(id) in db ==>
                  db[ReplicaKey(id)].ReplicaDoc?
                  && t[ReplicaKey(id)]
                        == ReplicaDoc(Refreshed(db[ReplicaKey(id)].replica, FirstReport(reports, id), at)))
  {
    if ids == [] {
    } else {
      var rest, last := ids[..|ids| - 1], ids[|ids| - 1];
      RefreshEffect(db, rest, reports, at);
      var m := Refresh(db, rest, reports, at);
      RefreshOneEffect(m, last, reports, at);
      var t := Refresh(db, ids, reports, at);
      forall id | id in ids && ReplicaKey(id) in db
        ensures db[ReplicaKey(id)].ReplicaDoc?
        ensures t[ReplicaKey(id)] == ReplicaDoc(Refreshed(db[ReplicaKey(id)].replica, FirstReport(reports, id), at))
      {
        assert DocOk(ReplicaKey(id), db[ReplicaKey(id)]);
        if id != last {
          assert id in rest;
          assert ReplicaKey(id) != ReplicaKey(last);
        } else if last !in rest {
          assert m[ReplicaKey(id)] == db[ReplicaKey(id)];
        }
      }
    }
  }

  /** The keys that polling a node may write. */
  ghost predicate Touches(node: NodeInfo, poll: Poll, k: string) {
    match poll
    case Unreachable(_, _) => k == NodeKey(node.id)
    case Answered(_, _) => KindOf(k) == ReplicaKind && IdOf(k) in node.assignedModels
  }

  lemma {:induction false} PollFrame(db: DB, node: NodeInfo, poll: Poll)
    requires WellFormed(db)
    ensures var t := PollNode(db, node, poll);
            && WellFormed(t) && t.Keys == db.Keys
            && forall k :: k in db && !Touches(node, poll, k) ==> t[k] == db[k]
  {
    match poll
    case Answered(reports, at) => RefreshEffect(db, node.assignedModels, reports, at);
    case Unreachable(d, m) =>
      if NodeKey(node.id) in db {
        assert DocOk(NodeKey(node.id), db[NodeKey(node.id)]);
      }
  }

  /**
   * A sweep adds and removes no key, keeps records well formed, and changes only the records
   * of nodes that did not answer and of replicas listed by nodes that did.
   */
  lemma {:induction false} SweepFrame(db: DB, nodes: seq<NodeInfo>, polls: string -> Poll)
    requires WellFormed(db)
    ensures var t := Sweep(db, nodes, polls);
            && WellFormed(t) && t.Keys == db.Keys
            && forall k :: k in db && (forall n :: n in nodes ==> !Touches(n, polls(n.id), k)) ==> t[k] == db[k]
  {
    if nodes == [] {
    } else {
      var rest, last := nodes[..|nodes| - 1], nodes[|nodes| - 1];
      SweepFrame(db, rest, polls);
      PollFrame(Sweep(db, rest, polls), last, polls(last.id));
      assert forall n :: n in rest ==> n in nodes;
      assert last in nodes;
    }
  }

  lemma {:induction false} SweepLeavesAlone(db: DB, nodes: seq<NodeInfo>, polls: string -> Poll, k: string)
    requires WellFormed(db) && k in db && forall n :: n in nodes ==> !Touches(n, polls(n.id), k)
    ensures WellFormed(Sweep(db, nodes, polls)) && k in Sweep(db, nodes, polls) && Sweep(db, nodes, polls)[k] == db[k]
  {
    SweepFrame(db, nodes, polls);
  }

  /** The poll says something about the replica: its node answered and lists it. */
  predicate Covers(node: NodeInfo, poll: Poll, id: string) {
    poll.Answered? && id in node.assignedModels
  }

  /** A replica's record after the answers that cover it, in listing order. */
  function Reported(info: ReplicaInfo, nodes: seq<NodeInfo>, polls: string -> Poll, id: string): ReplicaInfo {
    if nodes == [] then info
    else
      var r, last := Reported(info, nodes[..|nodes| - 1], polls, id), nodes[|nodes| - 1];
      var p := polls(last.id);
      if Covers(last, p, id) then Refreshed(r, FirstReport(p.reports, id), p.at) else r
  }

  /** A sweep leaves each stored replica as the answers that cover it report it. */
  lemma {:induction false} SweepReportsReplica(db: DB, nodes: seq<NodeInfo>, polls: string -> Poll, id: string)
    requires WellFormed(db) && ReplicaKey(id) in db
    ensures db[ReplicaKey(id)].ReplicaDoc? && ReplicaKey(id) in Sweep(db, nodes, polls)
    ensures Sweep(db, nodes, polls)[ReplicaKey(id)]
         == ReplicaDoc(Reported(db[ReplicaKey(id)].replica, nodes, polls, id))
  {
    var k := ReplicaKey(id);
    assert DocOk(k, db[k]);
    if nodes == [] {
    } else {
      var rest, last := nodes[..|nodes| - 1], nodes[|nodes| - 1];
      var p := polls(last.id);
      SweepReportsReplica(db, rest, polls, id);
      SweepFrame(db, rest, polls);
      if Covers(last, p, id) {
        RefreshEffect(Sweep(db, rest, polls), last.assignedModels, p.reports, p.at);
      } else {
        PollLeavesAlone(Sweep(db, rest, polls), last, p, k);
      }
    }
  }

  lemma {:induction false} ReportedKeepsIdentity(
      info: ReplicaInfo, nodes: seq<NodeInfo>, polls: string -> Poll, id: string)
    ensures var r := Reported(info, nodes, polls, id);
            r.id == info.id && r.modelId == info.modelId && r.name == info.name
  {
    if nodes == [] {
    } else {
      ReportedKeepsIdentity(info, nodes[..|nodes| - 1], polls, id);
    }
  }

  /** The last answering node in listing order that lists the replica decides its record. */
  lemma {:induction false} LastAnswerDecides(
    info: ReplicaInfo, nodes: seq<NodeInfo>, polls: string -> Poll, i: nat, id: string)
    requires i < |nodes| && Covers(nodes[i], polls(nodes[i].id), id)
    requires forall j :: i < j < |nodes| ==> !Covers(nodes[j], polls(nodes[j].id), id)
    ensures Reported(info, nodes, polls, id)
         == Refreshed(Reported(info, nodes[..i], polls, id), FirstReport(polls(nodes[i].id).reports, id),
               polls(nodes[i].id).at)
  {
    var last := |nodes| - 1;
    if i < last {
      LastAnswerDecides(info, nodes[..last], polls, i, id);
      assert nodes[..last][..i] == nodes[..i];
    }
  }

  lemma {:induction false} NoAnswerKeeps(info: ReplicaInfo, nodes: seq<NodeInfo>, polls: string -> Poll, id: string)
    requires forall j :: 0 <= j < |nodes| ==> !Covers(nodes[j], polls(nodes[j].id), id)
    ensures Reported(info, nodes, polls, id) == info
  {
    if nodes == [] {
    } else {
      NoAnswerKeeps(info, nodes[..|nodes| - 1], polls, id);
    }
  }

  /**
   * A stored replica that some answering node lists ends with the status that the last such node
   * in listing order reported first, or unknown if that answer leaves it out; if no other answering
   * node lists it, its whole record is the old one so refreshed.
   */
  lemma {:induction false} SweepRefreshesReplica(
    db: DB, nodes: seq<NodeInfo>, polls: string -> Poll, i: nat, id: string)
    requires WellFormed(db) && i < |nodes| && ReplicaKey(id) in db
    requires Covers(nodes[i], polls(nodes[i].id), id)
    requires forall j :: i < j < |nodes| ==> !Covers(nodes[j], polls(nodes[j].id), id)
    ensures db[ReplicaKey(id)].ReplicaDoc? && ReplicaKey(id) in Sweep(db, nodes, polls)
    ensures var was, doc := db[ReplicaKey(id)].replica, Sweep(db, nodes, polls)[ReplicaKey(id)];
            var p := polls(nodes[i].id);
            var report := FirstReport(p.reports, id);
            && doc.ReplicaDoc?
            && doc.replica.status == (if report.Some? then ConvertStatus(report.value.status) else UnknownReplica)
            && doc.replica.lastHeartbeat == p.at
            && doc.replica.id == was.id && doc.replica.modelId == was.modelId && doc.replica.name == was.name
            && (report.Some? ==> doc.replica.errorCode == report.value.errorCode
                                 && doc.replica.errorMessage == report.value.errorMessage)
            && ((forall j :: 0 <= j < i ==> !Covers(nodes[j], polls(nodes[j].id), id)) ==>
                  doc.replica == Refreshed(was, report, p.at))
  {
    var was := db[ReplicaKey(id)];
    SweepReportsReplica(db, nodes, polls, id);
    LastAnswerDecides(was.replica, nodes, polls, i, id);
    ReportedKeepsIdentity(was.replica, nodes[..i], polls, id);
    if forall j :: 0 <= j < i ==> !Covers(nodes[j], polls(nodes[j].id), id) {
      NoAnswerKeeps(was.replica, nodes[..i], polls, id);
    }
  }

  lemma {:induction false} PollLeavesAlone(db: DB, node: NodeInfo, poll: Poll, k: string)
    requires WellFormed(db) && k in db && !Touches(node, poll, k)
    ensures k in PollNode(db, node, poll) && PollNode(db, node, poll)[k] == db[k]
  {
    PollFrame(db, node, poll);
  }

  lemma {:induction false} TouchesOwnNodeKey(m: NodeInfo, poll: Poll, id: string)
    ensures Touches(m, poll, NodeKey(id)) ==> m.id == id
  {
    assert IdOf(NodeKey(m.id)) == m.id && IdOf(NodeKey(id)) == id;
  }

  /** A polled node that does not answer is marked once, from its own record. */
  lemma {:induction false} SweepMarksNode(db: DB, nodes: seq<NodeInfo>, polls: string -> Poll, i: nat)
    requires WellFormed(db) && DistinctNodes(db, nodes) && i < |nodes|
    requires polls(nodes[i].id).Unreachable?
    ensures var n, p := nodes[i], polls(nodes[i].id);
            NodeKey(n.id) in Sweep(db, nodes, polls)
            && Sweep(db, nodes, polls)[NodeKey(n.id)] == NodeDoc(Marked(n, MissedStatus(n, p.decidedAt), p.markedAt))
  {
    var last := nodes[|nodes| - 1];
    var rest, k := nodes[..|nodes| - 1], NodeKey(nodes[i].id);
    assert IsNode(db, nodes[i]);
    assert DocOk(k, db[k]);
    if i < |nodes| - 1 {
      SweepMarksNode(db, rest, polls, i);
      SweepFrame(db, rest, polls);
      TouchesOwnNodeKey(last, polls(last.id), nodes[i].id);
      PollLeavesAlone(Sweep(db, rest, polls), last, polls(last.id), k);
    } else {
      forall n | n in rest ensures !Touches(n, polls(n.id), k) {
        TouchesOwnNodeKey(n, polls(n.id), last.id);
      }
      SweepLeavesAlone(db, rest, polls, k);
    }
  }

  // ----- Offline timing -----

  /** One sweep with the nodes it polled and how they answered. */
  datatype Round = Round(nodes: seq<NodeInfo>, polls: string -> Poll)

  ghost predicate ValidRounds(db: DB, rounds: seq<Round>)
    decreases |rounds|
  {
    rounds == [] ||
    (Listing(db, POLLED, rounds[0].nodes) && ValidRounds(Sweep(db, rounds[0].nodes, rounds[0].polls), rounds[1..]))
  }

  ghost function AfterRounds(db: DB, rounds: seq<Round>): DB
    decreases |rounds|
  {
    if rounds == [] then db else AfterRounds(Sweep(db, rounds[0].nodes, rounds[0].polls), rounds[1..])
  }

  /** The node fails every poll of the run. */
  ghost predicate AlwaysFails(id: string, rounds: seq<Round>) {
    forall i :: 0 <= i < |rounds| ==> rounds[i].polls(id).Unreachable?
  }

  /** Each poll is decided within 40 seconds of the mark before it. */
  ghost predicate GapsWithin(last: Time, id: string, rounds: seq<Round>)
    requires AlwaysFails(id, rounds)
    decreases |rounds|
  {
    rounds == [] ||
    (var p := rounds[0].polls(id); p.decidedAt <= last + OFFLINE_AFTER && GapsWithin(p.markedAt, id, rounds[1..]))
  }

  lemma {:induction false} PolledIsNotOffline(db: DB, r: Round, n: NodeInfo, m: NodeInfo)
    requires IsNode(db, n) && n.status == Offline
    requires IsNode(db, m) && m.status in POLLED
    ensures !Touches(m, r.polls(m.id), NodeKey(n.id))
  {
    TouchesOwnNodeKey(m, r.polls(m.id), n.id);
  }

  lemma {:induction false} OfflineIsNotPolled(db: DB, r: Round, n: NodeInfo)
    requires WellFormed(db) && Listing(db, POLLED, r.nodes) && IsNode(db, n) && n.status == Offline
    ensures WellFormed(Sweep(db, r.nodes, r.polls)) && IsNode(Sweep(db, r.nodes, r.polls), n)
  {
    ListingIsExact(db, POLLED, r.nodes);
    forall m | m in r.nodes ensures !Touches(m, r.polls(m.id), NodeKey(n.id)) {
      PolledIsNotOffline(db, r, n, m);
    }
    SweepLeavesAlone(db, r.nodes, r.polls, NodeKey(n.id));
  }

  lemma {:induction false} FailureIsMarked(db: DB, r: Round, n: NodeInfo)
    requires WellFormed(db) && Listing(db, POLLED, r.nodes) && IsNode(db, n) && n.status in POLLED
    requires r.polls(n.id).Unreachable?
    ensures var p := r.polls(n.id);
            && WellFormed(Sweep(db, r.nodes, r.polls))
            && IsNode(Sweep(db, r.nodes, r.polls), Marked(n, MissedStatus(n, p.decidedAt), p.markedAt))
  {
    ListingIsExact(db, POLLED, r.nodes);
    SweepFrame(db, r.nodes, r.polls);
    var i :| 0 <= i < |r.nodes| && r.nodes[i] == n;
    SweepMarksNode(db, r.nodes, r.polls, i);
  }

  lemma {:induction false} OfflineStaysOffline(db: DB, rounds: seq<Round>, n: NodeInfo)
    requires WellFormed(db) && ValidRounds(db, rounds) && AlwaysFails(n.id, rounds)
    requires IsNode(db, n) && n.status == Offline
    ensures IsNode(AfterRounds(db, rounds), n)
    decreases |rounds|
  {
    if rounds == [] {
    } else {
      OfflineIsNotPolled(db, rounds[0], n);
      OfflineStaysOffline(Sweep(db, rounds[0].nodes, rounds[0].polls), rounds[1..], n);
    }
  }

  /**
   * An unknown node that keeps failing stays unknown if and only if each poll comes within 40
   * seconds of the previous mark; otherwise it ends offline.  However many polls fail, spacing
   * them at most 40 seconds apart never takes the node offline.
   */
  lemma {:induction false} OfflineTiming(db: DB, rounds: seq<Round>, n: NodeInfo)
    requires WellFormed(db) && ValidRounds(db, rounds) && AlwaysFails(n.id, rounds)
    requires IsNode(db, n) && n.status == Unknown
    ensures exists m :: IsNode(AfterRounds(db, rounds), m) && m.id == n.id
                        && m.status == if GapsWithin(n.lastHeartbeat, n.id, rounds) then Unknown else Offline
    decreases |rounds|
  {
    if rounds == [] {
      assert IsNode(AfterRounds(db, rounds), n);
    } else {
      var r := rounds[0];
      var p := r.polls(n.id);
      var t := Sweep(db, r.nodes, r.polls);
      FailureIsMarked(db, r, n);
      var marked := Marked(n, MissedStatus(n, p.decidedAt), p.markedAt);
      if marked.status == Unknown {
        OfflineTiming(t, rounds[1..], marked);
      } else {
        OfflineStaysOffline(t, rounds[1..], marked);
      }
    }
  }

  /** Some listing of a set of keys. */
  lemma {:induction false} KeySequence(ks: set<string>) returns (keys: seq<string>)
    ensures forall k :: k in keys <==> k in ks
    ensures forall i, j :: 0 <= i < j < |keys| ==> keys[i] != keys[j]
  {
    if ks == {} {
      keys := [];
    } else {
      var k :| k in ks;
      var rest := KeySequence(ks - {k});
      keys := rest + [k];
    }
  }

  lemma {:induction false} SomeListing(db: DB, statuses: set<NodeStatus>) returns (nodes: seq<NodeInfo>)
    requires NodesDecode(db)
    ensures Listing(db, statuses, nodes)
  {
    var keys := KeySequence(set k | k in db && KindOf(k) == NodeKind);
    assert forall i :: 0 <= i < |keys| ==> keys[i] in keys;
    var all := seq(|keys|, i requires 0 <= i < |keys| => db[keys[i]].node);
    assert ListsNodes(db, keys, all);
    nodes := WithStatus(all, statuses);
  }

  /** A sweep in which the node fails a poll decided just 40 seconds after the last mark. */
  lemma {:induction false} SilentSweep(db: DB, n: NodeInfo) returns (r: Round)
    requires WellFormed(db) && IsNode(db, n) && n.status == Unknown
    ensures Listing(db, POLLED, r.nodes)
    ensures r.polls(n.id) == Unreachable(n.lastHeartbeat + OFFLINE_AFTER, n.lastHeartbeat + OFFLINE_AFTER)
    ensures WellFormed(Sweep(db, r.nodes, r.polls))
    ensures IsNode(Sweep(db, r.nodes, r.polls), Marked(n, Unknown, n.lastHeartbeat + OFFLINE_AFTER))
  {
    var t := n.lastHeartbeat + OFFLINE_AFTER;
    WellFormedDecodes(db);
    var nodes := SomeListing(db, POLLED);
    r := Round(nodes, id => Unreachable(t, t));
    FailureIsMarked(db, r, n);
  }

  lemma {:induction false} FirstRound(db: DB, r: Round, rest: seq<Round>)
    ensures var t := Sweep(db, r.nodes, r.polls);
            && (ValidRounds(db, [r] + rest) <==> Listing(db, POLLED, r.nodes) && ValidRounds(t, rest))
            && AfterRounds(db, [r] + rest) == AfterRounds(t, rest)
  {
    assert ([r] + rest)[1..] == rest;
  }

  /** The node fails every poll, and the polls are decided 40 seconds apart. */
  ghost predicate SilentEvery40(id: string, last: Time, rounds: seq<Round>) {
    forall i :: 0 <= i < |rounds| ==>
      && rounds[i].polls(id).Unreachable?
      && rounds[i].polls(id).decidedAt == last + (i + 1) * OFFLINE_AFTER
  }

  lemma {:induction false} FirstSilent(id: string, last: Time, r: Round, rest: seq<Round>)
    requires r.polls(id).Unreachable? && r.polls(id).decidedAt == last + OFFLINE_AFTER
    requires SilentEvery40(id, last + OFFLINE_AFTER, rest)
    ensures SilentEvery40(id, last, [r] + rest)
  {
    var all := [r] + rest;
    forall i | 0 <= i < |all|
      ensures all[i].polls(id).Unreachable? && all[i].polls(id).decidedAt == last + (i + 1) * OFFLINE_AFTER
    {
      assert i > 0 ==> all[i] == rest[i - 1];
    }
  }

  /**
   * However many sweeps a node stays silent for, polls that come 40 seconds apart leave it unknown:
   * from every store there is such a run of any length.
   */
  lemma {:induction false} SilenceCanLastForever(db: DB, n: NodeInfo, k: nat) returns (rounds: seq<Round>)
    requires WellFormed(db) && IsNode(db, n) && n.status == Unknown
    ensures |rounds| == k && ValidRounds(db, rounds) && SilentEvery40(n.id, n.lastHeartbeat, rounds)
    ensures exists m :: IsNode(AfterRounds(db, rounds), m) && m.id == n.id && m.status == Unknown
    decreases k
  {
    if k == 0 {
      rounds := [];
      assert IsNode(AfterRounds(db, rounds), n);
    } else {
      var r := SilentSweep(db, n);
      var marked := Marked(n, Unknown, n.lastHeartbeat + OFFLINE_AFTER);
      var rest := SilenceCanLastForever(Sweep(db, r.nodes, r.polls), marked, k - 1);
      rounds := [r] + rest;
      FirstRound(db, r, rest);
      FirstSilent(n.id, n.lastHeartbeat, r, rest);
    }
  }

  // ----- Contents of the table -----

  lemma {:induction false} EntryIsRunning(db: DB, node: NodeInfo, id: string, e: Entry)
    requires WellFormed(db) && e in EntryOf(db, node, id)
    ensures ReplicaKey(id) in db && db[ReplicaKey(id)].ReplicaDoc?
    ensures db[ReplicaKey(id)].replica.status == Running && db[ReplicaKey(id)].replica.modelId == e.0
    ensures e.1 == EndpointOf(node, id)
  {
    assert DocOk(ReplicaKey(id), db[ReplicaKey(id)]);
  }

  /** An endpoint of the model: an online node that lists a stored, running replica of it. */
  ghost predicate IsLive(db: DB, modelId: string, e: EndpointDetail) {
    exists n :: && IsNode(db, n) && n.status == Online
                && e.replicaId in n.assignedModels && e == EndpointOf(n, e.replicaId)
                && ReplicaKey(e.replicaId) in db && db[ReplicaKey(e.replicaId)].ReplicaDoc?
                && db[ReplicaKey(e.replicaId)].replica.status == Running
                && db[ReplicaKey(e.replicaId)].replica.modelId == modelId
  }

  lemma {:induction false} NodeEntriesAreLive(db: DB, node: NodeInfo, ids: seq<string>, e: Entry)
    requires WellFormed(db) && IsNode(db, node) && node.status == Online
    requires forall id :: id in ids ==> id in node.assignedModels
    requires e in NodeEntries(db, node, ids)
    ensures IsLive(db, e.0, e.1)
  {
    var rest, last := ids[..|ids| - 1], ids[|ids| - 1];
    if e in NodeEntries(db, node, rest) {
      NodeEntriesAreLive(db, node, rest, e);
    } else {
      EntryIsRunning(db, node, last, e);
    }
  }

  lemma {:induction false} EntriesAreLive(db: DB, nodes: seq<NodeInfo>, e: Entry)
    requires WellFormed(db) && forall i :: 0 <= i < |nodes| ==> IsNode(db, nodes[i]) && nodes[i].status == Online
    requires e in Entries(db, nodes)
    ensures IsLive(db, e.0, e.1)
  {
    var rest, last := nodes[..|nodes| - 1], nodes[|nodes| - 1];
    if e in Entries(db, rest) {
      EntriesAreLive(db, rest, e);
    } else {
      NodeEntriesAreLive(db, last, last.assignedModels, e);
    }
  }

  lemma {:induction false} SelectedIsEntry(es: seq<Entry>, modelId: string, e: EndpointDetail)
    requires e in Select(es, modelId)
    ensures (modelId, e) in es
  {
    var rest := es[..|es| - 1];
    if e in Select(rest, modelId) {
      SelectedIsEntry(rest, modelId, e);
    } else {
      assert es[|es| - 1] == (modelId, e);
    }
  }

  /** Everything in a table is live in the store it was built from. */
  lemma {:induction false} TableIsLive(db: DB, online: seq<NodeInfo>, modelId: string, e: EndpointDetail)
    requires WellFormed(db) && Listing(db, {Online}, online)
    requires e in Select(Entries(db, online), modelId)
    ensures IsLive(db, modelId, e)
  {
    ListingIsExact(db, {Online}, online);
    forall i | 0 <= i < |online| ensures IsNode(db, online[i]) && online[i].status == Online {
      assert online[i] in online;
    }
    SelectedIsEntry(Entries(db, online), modelId, e);
    EntriesAreLive(db, online, (modelId, e));
  }

  /** The replica is stored, running, and of this model. */
  ghost predicate RunsModel(db: DB, id: string, modelId: string) {
    id != "" && ReplicaKey(id) in db && db[ReplicaKey(id)].ReplicaDoc?
    && db[ReplicaKey(id)].replica.status == Running && db[ReplicaKey(id)].replica.modelId == modelId
  }

  lemma {:induction false} CountInEntry(db: DB, node: NodeInfo, x: string, modelId: string, n: NodeInfo, id: string)
    requires WellFormed(db) && (n.id == node.id ==> n == node)
    ensures Count(Select(EntryOf(db, node, x), modelId), EndpointOf(n, id))
         == if node == n && x == id && RunsModel(db, id, modelId) then 1 else 0
  {
    var es := EntryOf(db, node, x);
    if ReplicaKey(x) in db {
      assert DocOk(ReplicaKey(x), db[ReplicaKey(x)]);
    }
    if es != [] {
      var e := es[0];
      assert es == [e];
      assert Select(es, modelId) == Select([], modelId) + (if e.0 == modelId then [e.1] else []);
      if e.0 == modelId {
        assert Select(es, modelId) == [e.1];
        CountOne(e.1, EndpointOf(n, id));
      }
    }
  }

  lemma {:induction false} CountInBoth(a: seq<Entry>, b: seq<Entry>, modelId: string, e: EndpointDetail)
    ensures Count(Select(a + b, modelId), e) == Count(Select(a, modelId), e) + Count(Select(b, modelId), e)
  {
    SelectConcat(a, b, modelId);
    CountConcat(Select(a, modelId), Select(b, modelId), e);
  }

  lemma {:induction false} CountLast(ids: seq<string>, id: string)
    requires ids != []
    ensures Count(ids, id) == Count(ids[..|ids| - 1], id) + if ids[|ids| - 1] == id then 1 else 0
  {
    assert ids == ids[..|ids| - 1] + [ids[|ids| - 1]];
    CountConcat(ids[..|ids| - 1], [ids[|ids| - 1]], id);
    CountOne(ids[|ids| - 1], id);
  }

  lemma {:induction false} CountInNode(
      db: DB, node: NodeInfo, ids: seq<string>, modelId: string, n: NodeInfo, id: string)
    requires WellFormed(db) && (n.id == node.id ==> n == node)
    ensures Count(Select(NodeEntries(db, node, ids), modelId), EndpointOf(n, id))
         == if node == n && RunsModel(db, id, modelId) then Count(ids, id) else 0
  {
    if ids == [] {
    } else {
      var rest, last := ids[..|ids| - 1], ids[|ids| - 1];
      CountInNode(db, node, rest, modelId, n, id);
      CountInEntry(db, node, last, modelId, n, id);
      CountInBoth(NodeEntries(db, node, rest), EntryOf(db, node, last), modelId, EndpointOf(n, id));
      CountLast(ids, id);
    }
  }

  lemma {:induction false} CountInNodes(db: DB, nodes: seq<NodeInfo>, modelId: string, n: NodeInfo, id: string)
    requires WellFormed(db) && DistinctNodes(db, nodes) && IsNode(db, n)
    ensures Count(Select(Entries(db, nodes), modelId), EndpointOf(n, id))
         == if n in nodes && RunsModel(db, id, modelId) then Count(n.assignedModels, id) else 0
  {
    if nodes == [] {
    } else {
      var rest, last := nodes[..|nodes| - 1], nodes[|nodes| - 1];
      assert IsNode(db, last);
      CountInNodes(db, rest, modelId, n, id);
      CountInNode(db, last, last.assignedModels, modelId, n, id);
      CountInBoth(Entries(db, rest), NodeEntries(db, last, last.assignedModels), modelId, EndpointOf(n, id));
      InLast(nodes, n);
    }
  }

  lemma {:induction false} InLast(nodes: seq<NodeInfo>, n: NodeInfo)
    requires nodes != [] && forall i, j :: 0 <= i < j < |nodes| ==> nodes[i].id != nodes[j].id
    ensures n in nodes <==> n in nodes[..|nodes| - 1] || n == nodes[|nodes| - 1]
    ensures !(n in nodes[..|nodes| - 1] && n == nodes[|nodes| - 1])
  {
    assert nodes == nodes[..|nodes| - 1] + [nodes[|nodes| - 1]];
  }

  /**
   * The table lists a node's replica under a model exactly as often as the node, if online,
   * lists that replica, if it is stored, running and of that model; the weight is the sum of
   * the node's TOPS.
   */
  lemma {:induction false} TableIsExact(db: DB, online: seq<NodeInfo>, modelId: string, n: NodeInfo, id: string)
    requires WellFormed(db) && Listing(db, {Online}, online) && IsNode(db, n)
    ensures Count(Select(Entries(db, online), modelId), EndpointOf(n, id))
         == if n.status == Online && RunsModel(db, id, modelId) then Count(n.assignedModels, id) else 0
  {
    ListingIsExact(db, {Online}, online);
    CountInNodes(db, online, modelId, n, id);
  }
}
