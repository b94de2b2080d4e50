/**
 * The agent's inference worker pools as an interleaving of atomic steps: pools are started,
 * stopped and restarted under the same replica ID while calls look a pool up, submit a job,
 * time out or receive, and workers take jobs, reply or exit.
 *
 * The session is foreign code: a worker may reply with any outcome, but the reply records the
 * session and the input it was produced from.  Call i owns job i; pool p owns session p.
 */
module WorkerPool {
  import opened Types

  /** Capacity of a pool's job channel. */
  const CAPACITY: nat := 100

  datatype Input = Input(data: seq<real>, scaling: bool)

  datatype Outcome = Prediction(value: real) | Failure

  datatype Reply = Reply(session: nat, input: Input, outcome: Outcome)

  datatype Worker = Idle | Busy(job: nat) | Exited

  datatype Pool = Pool(replica: string, instances: nat, quit: bool, queue: seq<nat>, workers: seq<Worker>)

  datatype Phase = LookedUp | Rejected | Waiting | TimedOut | Returned(reply: Reply)

  /** One ModelInference call with its job; `result` and `err` are the one-place reply channels. */
  datatype Call = Call(
    replica: string,
    input: Input,
    pool: nat,
    phase: Phase,
    result: Option<Reply>,
    err: Option<Reply>,
    sends: nat)

  datatype State = State(pools: seq<Pool>, registry: map<string, nat>, calls: seq<Call>)

  const INITIAL: State := State([], map[], [])

  datatype Action =
    | Start(replica: string, instanceCount: int, loads: bool)
    | Stop(replica: string)
    | Lookup(replica: string, input: Input)
    | Submit(call: nat)
    | Take(pool: nat, worker: nat)
    | Finish(pool: nat, worker: nat, outcome: Outcome)
    | Exit(pool: nat, worker: nat)
    | Receive(call: nat)
    | Expire(call: nat)

  // ----- Steps -----

  function StartStep(s: State, replica: string, instanceCount: int, loads: bool): State {
    if replica in s.registry || !loads then s
    else
      var n: nat := if instanceCount <= 0 then 1 else instanceCount;
      State(s.pools + [Pool(replica, n, false, [], seq(n, _ => Idle))], s.registry[replica := |s.pools|], s.calls)
  }

  function StopStep(s: State, replica: string): State {
    if replica !in s.registry || s.registry[replica] >= |s.pools| then s
    else
      var p := s.registry[replica];
      State(s.pools[p := s.pools[p].(quit := true)], s.registry - {replica}, s.calls)
  }

  function LookupStep(s: State, replica: string, input: Input): State {
    if replica !in s.registry then s
    else s.(calls := s.calls + [Call(replica, input, s.registry[replica], LookedUp, None, None, 0)])
  }

  predicate CanSubmit(s: State, j: nat) {
    j < |s.calls| && s.calls[j].phase == LookedUp && s.calls[j].pool < |s.pools|
  }

  /** Submitting never waits: a full queue rejects the job. */
  function SubmitStep(s: State, j: nat): State
    requires CanSubmit(s, j)
  {
    var p := s.calls[j].pool;
    if |s.pools[p].queue| < CAPACITY then
      s.(pools := s.pools[p := s.pools[p].(queue := s.pools[p].queue + [j])],
         calls := s.calls[j := s.calls[j].(phase := Waiting)])
    else s.(calls := s.calls[j := s.calls[j].(phase := Rejected)])
  }

  predicate HasWorker(s: State, p: nat, w: nat) {
    p < |s.pools| && w < |s.pools[p].workers|
  }

  function SetWorker(s: State, p: nat, w: nat, x: Worker): State
    requires HasWorker(s, p, w)
  {
    s.(pools := s.pools[p := s.pools[p].(workers := s.pools[p].workers[w := x])])
  }

  /** An idle worker may take a job even after quit was signalled: the select is free to choose. */
  predicate CanTake(s: State, p: nat, w: nat) {
    HasWorker(s, p, w) && s.pools[p].workers[w] == Idle && s.pools[p].queue != []
  }

  function TakeStep(s: State, p: nat, w: nat): State
    requires CanTake(s, p, w)
  {
    var t := SetWorker(s, p, w, Busy(s.pools[p].queue[0]));
    t.(pools := t.pools[p := t.pools[p].(queue := s.pools[p].queue[1..])])
  }

  predicate Holds(s: State, p: nat, w: nat) {
    HasWorker(s, p, w) && s.pools[p].workers[w].Busy? && s.pools[p].workers[w].job < |s.calls|
  }

  /** The send goes through only if the reply channel it is for has room. */
  predicate CanFinish(s: State, p: nat, w: nat, outcome: Outcome) {
    && Holds(s, p, w)
    && var c := s.calls[s.pools[p].workers[w].job];
       (if outcome.Prediction? then c.result else c.err) == None
  }

  function FinishStep(s: State, p: nat, w: nat, outcome: Outcome): State
    requires CanFinish(s, p, w, outcome)
  {
    var j := s.pools[p].workers[w].job;
    var c := s.calls[j];
    var reply := Some(Reply(p, c.input, outcome));
    var sent := if outcome.Prediction? then c.(result := reply, sends := c.sends + 1)
                else c.(err := reply, sends := c.sends + 1);
    SetWorker(s, p, w, Idle).(calls := s.calls[j := sent])
  }

  predicate CanExit(s: State, p: nat, w: nat) {
    HasWorker(s, p, w) && s.pools[p].quit && s.pools[p].workers[w] == Idle
  }

  predicate IsWaiting(s: State, j: nat) {
    j < |s.calls| && s.calls[j].phase == Waiting
  }

  predicate CanReceive(s: State, j: nat) {
    IsWaiting(s, j) && (s.calls[j].result.Some? || s.calls[j].err.Some?)
  }

  function ReceiveStep(s: State, j: nat): State
    requires CanReceive(s, j)
  {
    var c := s.calls[j];
    if c.result.Some? then s.(calls := s.calls[j := c.(phase := Returned(c.result.value), result := None)])
    else s.(calls := s.calls[j := c.(phase := Returned(c.err.value), err := None)])
  }

  /** The state after an action, if it is possible. */
  function Next(s: State, a: Action): Option<State> {
    match a
    case Start(r, n, loads) => Some(StartStep(s, r, n, loads))
    case Stop(r) => Some(StopStep(s, r))
    case Lookup(r, input) => Some(LookupStep(s, r, input))
    case Submit(j) => if CanSubmit(s, j) then Some(SubmitStep(s, j)) else None
    case Take(p, w) => if CanTake(s, p, w) then Some(TakeStep(s, p, w)) else None
    case Finish(p, w, o) => if CanFinish(s, p, w, o) then Some(FinishStep(s, p, w, o)) else None
    case Exit(p, w) => if CanExit(s, p, w) then Some(SetWorker(s, p, w, Exited)) else None
    case Receive(j) => if CanReceive(s, j) then Some(ReceiveStep(s, j)) else None
    case Expire(j) => if IsWaiting(s, j) then Some(s.(calls := s.calls[j := s.calls[j].(phase := TimedOut)])) else None
  }

  /** The state after a run from the start of the agent. */
  function Run(actions: seq<Action>): Option<State> {
    if actions == [] then Some(INITIAL)
    else match Run(actions[..|actions| - 1])
      case None => None
      case Some(s) => Next(s, actions[|actions| - 1])
  }

  ghost predicate Reachable(s: State) {
    exists actions :: Run(actions) == Some(s)
  }

  // ----- Invariant -----

  predicate Accepted(c: Call) {
    !c.phase.LookedUp? && !c.phase.Rejected?
  }

  /** A job of pool p that no worker has answered. */
  predicate Pending(s: State, p: nat, j: nat) {
    j < |s.calls| && s.calls[j].pool == p && Accepted(s.calls[j]) && s.calls[j].sends == 0
  }

  ghost predicate Placed(pool: Pool, j: nat) {
    j in pool.queue || Busy(j) in pool.workers
  }

  ghost predicate PoolOk(s: State, p: nat)
    requires p < |s.pools|
  {
    var pool := s.pools[p];
    && |pool.queue| <= CAPACITY
    && |pool.workers| == pool.instances && pool.instances >= 1
    && (!pool.quit ==> forall w :: 0 <= w < |pool.workers| ==> pool.workers[w] != Exited)
    && (forall j :: j in pool.queue ==> Pending(s, p, j))
    && (forall j :: Busy(j) in pool.workers ==> Pending(s, p, j) && j !in pool.queue)
    && (forall i, k :: 0 <= i < k < |pool.queue| ==> pool.queue[i] != pool.queue[k])
    && (forall v, w :: 0 <= v < w < |pool.workers| && pool.workers[v].Busy? ==> pool.workers[v] != pool.workers[w])
  }

  /** A reply came from the session of the pool looked up, on the call's own input. */
  predicate OwnReply(c: Call, r: Reply) {
    r.session == c.pool && r.input == c.input
  }

  /** How many replies to the call are in its channels or were returned. */
  function Replies(c: Call): nat {
    (if c.result.Some? then 1 else 0) + (if c.err.Some? then 1 else 0) + (if c.phase.Returned? then 1 else 0)
  }

  predicate RepliesOk(c: Call) {
    && (c.result.Some? ==> OwnReply(c, c.result.value) && c.result.value.outcome.Prediction?)
    && (c.err.Some? ==> OwnReply(c, c.err.value) && c.err.value.outcome.Failure?)
    && (c.phase.Returned? ==> OwnReply(c, c.phase.reply))
    && Replies(c) == c.sends <= 1
    && (!Accepted(c) ==> c.sends == 0)
  }

  ghost predicate CallOk(s: State, j: nat)
    requires j < |s.calls|
  {
    var c := s.calls[j];
    && c.pool < |s.pools| && s.pools[c.pool].replica == c.replica
    && RepliesOk(c)
    && (Accepted(c) && c.sends == 0 ==> Placed(s.pools[c.pool], j))
  }

  ghost predicate RegistryOk(s: State) {
    forall r :: r in s.registry ==>
      s.registry[r] < |s.pools| && s.pools[s.registry[r]].replica == r && !s.pools[s.registry[r]].quit
  }

  ghost predicate Inv(s: State) {
    && RegistryOk(s)
    && (forall p :: 0 <= p < |s.pools| ==> PoolOk(s, p))
    && (forall j :: 0 <= j < |s.calls| ==> CallOk(s, j))
  }

  // ----- Every step keeps it -----

  lemma {:induction false} StartKeeps(s: State, replica: string, instanceCount: int, loads: bool)
    requires Inv(s)
    ensures Inv(StartStep(s, replica, instanceCount, loads))
  {
    var t := StartStep(s, replica, instanceCount, loads);
    if t != s {
      forall p | 0 <= p < |t.pools| ensures PoolOk(t, p) {
        assert p < |s.pools| ==> t.pools[p] == s.pools[p] && PoolOk(s, p);
      }
      forall j | 0 <= j < |t.calls| ensures CallOk(t, j) {
        assert CallOk(s, j);
      }
    }
  }

  lemma {:induction false} StopKeeps(s: State, replica: string)
    requires Inv(s)
    ensures Inv(StopStep(s, replica))
  {
    var t := StopStep(s, replica);
    if t != s {
      forall p | 0 <= p < |t.pools| ensures PoolOk(t, p) {
        assert PoolOk(s, p);
      }
      forall j | 0 <= j < |t.calls| ensures CallOk(t, j) {
        assert CallOk(s, j);
      }
    }
  }

  lemma {:induction false} LookupKeeps(s: State, replica: string, input: Input)
    requires Inv(s)
    ensures Inv(LookupStep(s, replica, input))
  {
    var t := LookupStep(s, replica, input);
    if t != s {
      forall p | 0 <= p < |t.pools| ensures PoolOk(t, p) {
        assert PoolOk(s, p);
      }
      forall j | 0 <= j < |t.calls| ensures CallOk(t, j) {
        assert j < |s.calls| ==> t.calls[j] == s.calls[j] && CallOk(s, j);
      }
    }
  }

  /** The pools after a step that changes only call j, and keeps it pending if it was. */
  lemma {:induction false} PoolsKeepOk(s: State, t: State, j: nat)
    requires Inv(s) && j < |s.calls| && t.pools == s.pools
    requires |t.calls| == |s.calls| && forall k :: 0 <= k < |s.calls| && k != j ==> t.calls[k] == s.calls[k]
    requires Pending(s, s.calls[j].pool, j) ==> Pending(t, s.calls[j].pool, j)
    ensures forall p :: 0 <= p < |t.pools| ==> PoolOk(t, p)
  {
    forall p | 0 <= p < |t.pools| ensures PoolOk(t, p) {
      assert PoolOk(s, p);
    }
  }

  lemma {:induction false} CallChangeKeeps(s: State, t: State, j: nat)
    requires Inv(s) && j < |s.calls| && t == s.(calls := t.calls)
    requires |t.calls| == |s.calls| && forall k :: 0 <= k < |s.calls| && k != j ==> t.calls[k] == s.calls[k]
    requires t.calls[j].pool == s.calls[j].pool && t.calls[j].replica == s.calls[j].replica
    requires Accepted(t.calls[j]) == Accepted(s.calls[j]) && t.calls[j].sends == s.calls[j].sends
    requires RepliesOk(t.calls[j])
    ensures Inv(t)
  {
    PoolsKeepOk(s, t, j);
    forall k | 0 <= k < |t.calls| ensures CallOk(t, k) {
      assert CallOk(s, k);
    }
  }

  lemma {:induction false} SubmitKeeps(s: State, j: nat)
    requires Inv(s) && CanSubmit(s, j)
    ensures Inv(SubmitStep(s, j))
  {
    var t, p := SubmitStep(s, j), s.calls[j].pool;
    assert CallOk(s, j) && PoolOk(s, p);
    if |s.pools[p].queue| == CAPACITY {
      CallChangeKeeps(s, t, j);
    } else {
      forall q | 0 <= q < |t.pools| ensures PoolOk(t, q) {
        assert PoolOk(s, q);
        assert !Pending(s, p, j);
      }
      forall k | 0 <= k < |t.calls| ensures CallOk(t, k) {
        assert CallOk(s, k);
        assert t.pools[p].queue[|s.pools[p].queue|] == j;
      }
    }
  }

  lemma {:induction false} TakeKeepsPool(s: State, p: nat, w: nat)
    requires Inv(s) && CanTake(s, p, w)
    ensures PoolOk(TakeStep(s, p, w), p)
    ensures forall j :: Placed(s.pools[p], j) ==> Placed(TakeStep(s, p, w).pools[p], j)
  {
    var t := TakeStep(s, p, w);
    var was, now := s.pools[p], t.pools[p];
    assert PoolOk(s, p);
    var taken := was.queue[0];
    assert taken in was.queue;
    assert now.workers == was.workers[w := Busy(taken)];
    assert now.workers[w] == Busy(taken);
    assert was.queue == [taken] + now.queue;
    assert forall i :: 0 <= i < |now.queue| ==> now.queue[i] == was.queue[i + 1];
    assert taken !in now.queue;
    forall j | j in now.queue ensures Pending(t, p, j) {
      assert j in was.queue;
      assert Pending(s, p, j);
    }
    forall j | Busy(j) in now.workers ensures Pending(t, p, j) && j !in now.queue {
      if j != taken {
        assert Busy(j) in was.workers;
      }
    }
    forall v, u | 0 <= v < u < |now.workers| && now.workers[v].Busy? ensures now.workers[v] != now.workers[u] {
      assert Busy(taken) !in was.workers;
      assert was.workers[v] in was.workers && was.workers[u] in was.workers;
    }
    forall j | Placed(was, j) ensures Placed(now, j) {
      if Busy(j) in was.workers {
        var v :| 0 <= v < |was.workers| && was.workers[v] == Busy(j);
        assert now.workers[v] == Busy(j);
      }
    }
  }

  lemma {:induction false} TakeKeeps(s: State, p: nat, w: nat)
    requires Inv(s) && CanTake(s, p, w)
    ensures Inv(TakeStep(s, p, w))
  {
    var t := TakeStep(s, p, w);
    TakeKeepsPool(s, p, w);
    forall q | 0 <= q < |t.pools| ensures PoolOk(t, q) {
      assert PoolOk(s, q);
    }
    forall j | 0 <= j < |t.calls| ensures CallOk(t, j) {
      assert CallOk(s, j);
    }
  }

  /** Freeing a worker drops exactly the job it held. */
  lemma {:induction false} FreeWorker(pool: Pool, w: nat, x: Worker)
    requires w < |pool.workers| && !x.Busy?
    requires forall v, u :: 0 <= v < u < |pool.workers| && pool.workers[v].Busy? ==> pool.workers[v] != pool.workers[u]
    ensures forall j :: Busy(j) in pool.workers[w := x] <==> Busy(j) in pool.workers && pool.workers[w] != Busy(j)
  {
    var ws := pool.workers[w := x];
    forall j ensures Busy(j) in ws <==> Busy(j) in pool.workers && pool.workers[w] != Busy(j) {
      if Busy(j) in pool.workers && pool.workers[w] != Busy(j) {
        var v :| 0 <= v < |pool.workers| && pool.workers[v] == Busy(j);
        assert ws[v] == Busy(j);
      }
    }
  }

  lemma {:induction false} FinishKeeps(s: State, p: nat, w: nat, outcome: Outcome)
    requires Inv(s) && CanFinish(s, p, w, outcome)
    ensures Inv(FinishStep(s, p, w, outcome))
  {
    var t, done := FinishStep(s, p, w, outcome), s.pools[p].workers[w].job;
    assert PoolOk(s, p) && CallOk(s, done);
    assert Busy(done) in s.pools[p].workers;
    FreeWorker(s.pools[p], w, Idle);
    forall q | 0 <= q < |t.pools| ensures PoolOk(t, q) {
      assert PoolOk(s, q);
    }
    forall j | 0 <= j < |t.calls| ensures CallOk(t, j) {
      assert CallOk(s, j);
    }
  }

  lemma {:induction false} ExitKeeps(s: State, p: nat, w: nat)
    requires Inv(s) && CanExit(s, p, w)
    ensures Inv(SetWorker(s, p, w, Exited))
  {
    var t := SetWorker(s, p, w, Exited);
    assert PoolOk(s, p);
    FreeWorker(s.pools[p], w, Exited);
    forall q | 0 <= q < |t.pools| ensures PoolOk(t, q) {
      assert PoolOk(s, q);
    }
    forall j | 0 <= j < |t.calls| ensures CallOk(t, j) {
      assert CallOk(s, j);
    }
  }

  lemma {:induction false} NextKeeps(s: State, a: Action)
    requires Inv(s) && Next(s, a).Some?
    ensures Inv(Next(s, a).value)
  {
    var t := Next(s, a).value;
    match a
    case Start(r, n, loads) => StartKeeps(s, r, n, loads);
    case Stop(r) => StopKeeps(s, r);
    case Lookup(r, input) => LookupKeeps(s, r, input);
    case Submit(j) => SubmitKeeps(s, j);
    case Take(p, w) => TakeKeeps(s, p, w);
    case Finish(p, w, o) => FinishKeeps(s, p, w, o);
    case Exit(p, w) => ExitKeeps(s, p, w);
    case Receive(j) =>
      assert CallOk(s, j);
      CallChangeKeeps(s, t, j);
    case Expire(j) =>
      assert CallOk(s, j);
      CallChangeKeeps(s, t, j);
  }

  lemma {:induction false} RunKeeps(actions: seq<Action>)
    requires Run(actions).Some?
    ensures Inv(Run(actions).value)
  {
    if actions == [] {
    } else {
      RunKeeps(actions[..|actions| - 1]);
      NextKeeps(Run(actions[..|actions| - 1]).value, actions[|actions| - 1]);
    }
  }

  lemma {:induction false} ReachableIsOk(s: State)
    requires Reachable(s)
    ensures Inv(s)
  {
    var actions :| Run(actions) == Some(s);
    RunKeeps(actions);
  }

  // ----- Conservation -----

  datatype Place = Queued(pool: nat, position: nat) | Held(pool: nat, worker: nat) | Answered

  ghost predicate IsAt(s: State, j: nat, x: Place)
    requires j < |s.calls|
  {
    match x
    case Queued(p, i) => p < |s.pools| && i < |s.pools[p].queue| && s.pools[p].queue[i] == j
    case Held(p, w) => HasWorker(s, p, w) && s.pools[p].workers[w] == Busy(j)
    case Answered => Replies(s.calls[j]) == 1
  }

  lemma {:induction false} PlaceOf(s: State, j: nat) returns (x: Place)
    requires Inv(s) && j < |s.calls| && Accepted(s.calls[j])
    ensures IsAt(s, j, x)
  {
    assert CallOk(s, j);
    var p := s.calls[j].pool;
    if s.calls[j].sends == 1 {
      x := Answered;
    } else if j in s.pools[p].queue {
      var i :| 0 <= i < |s.pools[p].queue| && s.pools[p].queue[i] == j;
      x := Queued(p, i);
    } else {
      var w :| 0 <= w < |s.pools[p].workers| && s.pools[p].workers[w] == Busy(j);
      x := Held(p, w);
    }
  }

  /** A queued or held job is pending in the pool of its place. */
  lemma {:induction false} PlaceIsPending(s: State, j: nat, x: Place)
    requires Inv(s) && j < |s.calls| && IsAt(s, j, x) && !x.Answered?
    ensures Pending(s, x.pool, j)
    ensures x.Held? ==> j !in s.pools[x.pool].queue
  {
    assert PoolOk(s, x.pool);
    if x.Queued? {
      assert j in s.pools[x.pool].queue;
    } else {
      assert Busy(j) in s.pools[x.pool].workers;
    }
  }

  lemma {:induction false} PlaceIsUnique(s: State, j: nat, x: Place, y: Place)
    requires Inv(s) && j < |s.calls| && IsAt(s, j, x) && IsAt(s, j, y)
    ensures x == y
  {
    assert CallOk(s, j);
    if !x.Answered? {
      PlaceIsPending(s, j, x);
      assert PoolOk(s, x.pool);
    }
    if !y.Answered? {
      PlaceIsPending(s, j, y);
    }
  }

  /**
   * In every reachable state an accepted job is in exactly one place: queued, held by one
   * worker, or answered, with its one reply in a channel or returned; a job not accepted is in
   * none.
   */
  lemma {:induction false} JobsAreConserved(s: State, j: nat)
    requires Reachable(s) && j < |s.calls|
    ensures Accepted(s.calls[j]) <==> exists x :: IsAt(s, j, x)
    ensures forall x, y :: IsAt(s, j, x) && IsAt(s, j, y) ==> x == y
    ensures Replies(s.calls[j]) == s.calls[j].sends <= 1
  {
    ReachableIsOk(s);
    assert CallOk(s, j);
    if Accepted(s.calls[j]) {
      var x := PlaceOf(s, j);
    }
    forall x | IsAt(s, j, x) ensures Accepted(s.calls[j]) {
      if !x.Answered? {
        PlaceIsPending(s, j, x);
      }
    }
    forall x, y | IsAt(s, j, x) && IsAt(s, j, y) ensures x == y {
      PlaceIsUnique(s, j, x, y);
    }
  }

  /** A waiting call can receive exactly when its job has been answered. */
  lemma {:induction false} AnsweredCanReceive(s: State, j: nat)
    requires Reachable(s) && IsWaiting(s, j)
    ensures CanReceive(s, j) <==> s.calls[j].sends == 1
    ensures CanReceive(s, j) <==> IsAt(s, j, Answered)
  {
    ReachableIsOk(s);
    assert CallOk(s, j);
  }

  /** No reply send ever blocks, whatever became of the caller. */
  lemma {:induction false} ReplyNeverBlocks(s: State, p: nat, w: nat, outcome: Outcome)
    requires Reachable(s) && HasWorker(s, p, w) && s.pools[p].workers[w].Busy?
    ensures Next(s, Finish(p, w, outcome)).Some?
  {
    ReachableIsOk(s);
    var j := s.pools[p].workers[w].job;
    assert PoolOk(s, p);
    assert Busy(j) in s.pools[p].workers;
    assert CallOk(s, j);
  }

  ghost function Unanswered(s: State, p: nat): set<nat> {
    set j: nat | j < |s.calls| && Pending(s, p, j)
  }

  ghost function JobsHeld(ws: seq<Worker>): (r: set<nat>)
    ensures |r| <= |ws|
    ensures forall j :: j in r <==> Busy(j) in ws
  {
    if ws == [] then {}
    else
      var rest := JobsHeld(ws[1..]);
      if ws[0].Busy? then rest + {ws[0].job} else rest
  }

  ghost function Elements(q: seq<nat>): (r: set<nat>)
    ensures |r| <= |q|
    ensures forall j :: j in q ==> j in r
  {
    if q == [] then {} else Elements(q[1..]) + {q[0]}
  }

  /** A pool never has more unanswered jobs than its queue and its workers can hold. */
  lemma {:induction false} BacklogIsBounded(s: State, p: nat)
    requires Reachable(s) && p < |s.pools|
    ensures |s.pools[p].queue| <= 100
    ensures |JobsHeld(s.pools[p].workers)| <= s.pools[p].instances
    ensures |Unanswered(s, p)| <= 100 + s.pools[p].instances
  {
    ReachableIsOk(s);
    assert PoolOk(s, p);
    var queued, held := Elements(s.pools[p].queue), JobsHeld(s.pools[p].workers);
    forall j | j in Unanswered(s, p) ensures j in queued + held {
      assert CallOk(s, j);
    }
    SubsetSize(Unanswered(s, p), queued + held);
  }

  /** The number of workers a replica is started with. */
  function Workers(instanceCount: int): nat {
    if instanceCount > 1 then instanceCount else 1
  }

  /**
   * A pool that is started has that many workers for as long as the agent runs, and its backlog is
   * bounded accordingly.
   */
  lemma {:induction false} StartedPoolIsBounded(
      before: seq<Action>, replica: string, instanceCount: int, after: seq<Action>)
    requires Run(before).Some? && replica !in Run(before).value.registry
    requires Run(before + [Start(replica, instanceCount, true)] + after).Some?
    ensures var s, p := Run(before + [Start(replica, instanceCount, true)] + after).value, |Run(before).value.pools|;
            && p < |s.pools| && s.pools[p].replica == replica
            && s.pools[p].instances == |s.pools[p].workers| == Workers(instanceCount)
            && (!s.pools[p].quit ==> forall w :: 0 <= w < |s.pools[p].workers| ==> s.pools[p].workers[w] != Exited)
            && |JobsHeld(s.pools[p].workers)| <= Workers(instanceCount)
            && |Unanswered(s, p)| <= 100 + Workers(instanceCount)
  {
    var all := before + [Start(replica, instanceCount, true)] + after;
    PoolKeepsItsSize(before, replica, instanceCount, after);
    RunKeeps(all);
    var s, p := Run(all).value, |Run(before).value.pools|;
    assert PoolOk(s, p);
    BacklogIsBounded(s, p);
  }

  lemma {:induction false} PoolKeepsItsSize(
      before: seq<Action>, replica: string, instanceCount: int, after: seq<Action>)
    requires Run(before).Some? && replica !in Run(before).value.registry
    requires Run(before + [Start(replica, instanceCount, true)] + after).Some?
    ensures var s, p := Run(before + [Start(replica, instanceCount, true)] + after).value, |Run(before).value.pools|;
            p < |s.pools| && s.pools[p].replica == replica && s.pools[p].instances == Workers(instanceCount)
  {
    var all := before + [Start(replica, instanceCount, true)] + after;
    if after == [] {
      assert all[..|all| - 1] == before;
    } else {
      var shorter := after[..|after| - 1];
      assert all[..|all| - 1] == before + [Start(replica, instanceCount, true)] + shorter;
      PoolKeepsItsSize(before, replica, instanceCount, shorter);
      IdentitiesAreFixed(Run(all[..|all| - 1]).value, all[|all| - 1]);
    }
  }

  // ----- What each step does -----

  /** A pool is started, with idle workers, only for a replica that has none and loads. */
  lemma {:induction false} StartOutcome(s: State, r: string, k: int, loads: bool)
    ensures var t := Next(s, Start(r, k, loads));
            if r !in s.registry && loads
            then && t.Some? && t.value.calls == s.calls && t.value.registry == s.registry[r := |s.pools|]
                 && |t.value.pools| == |s.pools| + 1 && t.value.pools[..|s.pools|] == s.pools
                 && var pool := t.value.pools[|s.pools|];
                    && pool.replica == r && !pool.quit && pool.queue == []
                    && |pool.workers| == pool.instances == (if k > 1 then k else 1)
                    && forall w :: 0 <= w < |pool.workers| ==> pool.workers[w] == Idle
            else t == Some(s)
  {
  }

  /** Stopping signals quit and forgets the pool; its queue and workers stay as they are. */
  lemma {:induction false} StopOutcome(s: State, r: string)
    requires Reachable(s)
    ensures var t := Next(s, Stop(r));
            if r in s.registry
            then && t.Some? && t.value.calls == s.calls && t.value.registry == s.registry - {r}
                 && s.registry[r] < |s.pools| && !s.pools[s.registry[r]].quit
                 && t.value.pools == s.pools[s.registry[r] := s.pools[s.registry[r]].(quit := true)]
            else t == Some(s)
  {
    ReachableIsOk(s);
  }

  lemma {:induction false} LookupOutcome(s: State, r: string, input: Input)
    ensures var t := Next(s, Lookup(r, input));
            && t.Some? && t.value.pools == s.pools && t.value.registry == s.registry
            && t.value.calls == if r in s.registry
                                then s.calls + [Call(r, input, s.registry[r], LookedUp, None, None, 0)] else s.calls
  {
  }

  /** A job goes to the end of the queue, or is rejected if 100 are queued. */
  lemma {:induction false} SubmitOutcome(s: State, j: nat)
    requires Reachable(s) && j < |s.calls|
    ensures Next(s, Submit(j)).Some? <==> s.calls[j].phase == LookedUp
    ensures Next(s, Submit(j)).Some? ==>
              var t, p := Next(s, Submit(j)).value, s.calls[j].pool;
              && p < |s.pools| && t.registry == s.registry
              && (if |s.pools[p].queue| < 100
                  then && t.pools == s.pools[p := s.pools[p].(queue := s.pools[p].queue + [j])]
                       && t.calls == s.calls[j := s.calls[j].(phase := Waiting)]
                  else t.pools == s.pools && t.calls == s.calls[j := s.calls[j].(phase := Rejected)])
  {
    ReachableIsOk(s);
    assert CallOk(s, j);
  }

  /** An idle worker can take the job at the front of the queue, whatever else is signalled. */
  lemma {:induction false} TakeOutcome(s: State, p: nat, w: nat)
    requires p < |s.pools| && w < |s.pools[p].workers|
    ensures Next(s, Take(p, w)).Some? <==> s.pools[p].workers[w] == Idle && s.pools[p].queue != []
    ensures Next(s, Take(p, w)).Some? ==>
              var t, pool := Next(s, Take(p, w)).value, s.pools[p];
              && t.calls == s.calls && t.registry == s.registry
              && t.pools == s.pools[p := pool.(queue := pool.queue[1..],
                                               workers := pool.workers[w := Busy(pool.queue[0])])]
  {
  }

  lemma {:induction false} ExitOutcome(s: State, p: nat, w: nat)
    requires p < |s.pools| && w < |s.pools[p].workers|
    ensures Next(s, Exit(p, w)).Some? <==> s.pools[p].quit && s.pools[p].workers[w] == Idle
    ensures Next(s, Exit(p, w)).Some? ==>
              Next(s, Exit(p, w)).value
              == s.(pools := s.pools[p := s.pools[p].(workers := s.pools[p].workers[w := Exited])])
  {
  }

  lemma {:induction false} ExpireOutcome(s: State, j: nat)
    requires j < |s.calls|
    ensures Next(s, Expire(j)).Some? <==> s.calls[j].phase == Waiting
    ensures Next(s, Expire(j)).Some? ==>
              Next(s, Expire(j)).value == s.(calls := s.calls[j := s.calls[j].(phase := TimedOut)])
  {
  }

  /** A worker's answer frees it and reaches the call that waits for it, exactly as given. */
  lemma {:induction false} AnswerReachesCaller(s: State, p: nat, w: nat, outcome: Outcome)
    requires Reachable(s) && HasWorker(s, p, w) && s.pools[p].workers[w].Busy?
    ensures var j := s.pools[p].workers[w].job;
            && j < |s.calls| && Next(s, Finish(p, w, outcome)).Some?
            && var t := Next(s, Finish(p, w, outcome)).value;
               && t.pools == s.pools[p := s.pools[p].(workers := s.pools[p].workers[w := Idle])]
               && (s.calls[j].phase == Waiting ==>
                     && Next(t, Receive(j)).Some?
                     && Next(t, Receive(j)).value.calls[j].phase
                        == Returned(Reply(p, s.calls[j].input, outcome)))
  {
    ReachableIsOk(s);
    var j := s.pools[p].workers[w].job;
    assert PoolOk(s, p);
    assert Busy(j) in s.pools[p].workers;
    assert CallOk(s, j);
  }

  // ----- Service -----

  /** A pool that was not stopped has no worker that has exited. */
  lemma {:induction false} NoDeadWorker(s: State, p: nat, w: nat)
    requires Reachable(s) && HasWorker(s, p, w) && !s.pools[p].quit
    ensures s.pools[p].workers[w] != Exited
  {
    ReachableIsOk(s);
    assert PoolOk(s, p);
  }

  /** Such a pool always gets on with its queue: a worker can take a job, or each can finish its own. */
  lemma {:induction false} QueueIsServed(s: State, p: nat)
    requires Reachable(s) && p < |s.pools| && !s.pools[p].quit && s.pools[p].queue != []
    ensures || (exists w :: Next(s, Take(p, w)).Some?)
            || (forall w, outcome :: 0 <= w < |s.pools[p].workers| ==> Next(s, Finish(p, w, outcome)).Some?)
    ensures |s.pools[p].workers| > 0
  {
    ReachableIsOk(s);
    assert PoolOk(s, p);
    if w :| 0 <= w < |s.pools[p].workers| && s.pools[p].workers[w] == Idle {
      assert Next(s, Take(p, w)).Some?;
    } else {
      forall w, outcome | 0 <= w < |s.pools[p].workers| ensures Next(s, Finish(p, w, outcome)).Some? {
        assert s.pools[p].workers[w].Busy?;
        ReplyNeverBlocks(s, p, w, outcome);
      }
    }
  }

  /** The state after more actions, if each is possible. */
  function RunFrom(s: State, actions: seq<Action>): Option<State>
    decreases |actions|
  {
    if actions == [] then Some(s)
    else match Next(s, actions[0])
      case None => None
      case Some(t) => RunFrom(t, actions[1..])
  }

  lemma {:induction false} RunFromConcat(s: State, a: seq<Action>, b: seq<Action>)
    requires RunFrom(s, a).Some?
    ensures RunFrom(s, a + b) == RunFrom(RunFrom(s, a).value, b)
    decreases |a|
  {
    if a == [] {
      assert a + b == b;
    } else {
      assert (a + b)[0] == a[0] && (a + b)[1..] == a[1..] + b;
      RunFromConcat(Next(s, a[0]).value, a[1..], b);
    }
  }

  lemma {:induction false} RunFromOne(s: State, a: Action)
    ensures RunFrom(s, [a]) == Next(s, a)
  {
    assert [a][1..] == [];
    if Next(s, a).Some? {
      assert RunFrom(Next(s, a).value, []) == Next(s, a);
    }
  }

  /** The pool's queue is the same, no call in it has changed, and the invariant holds. */
  ghost predicate Serving(s: State, t: State, p: nat) {
    && Inv(t) && p < |s.pools| == |t.pools| && |t.calls| == |s.calls|
    && t.pools[p].queue == s.pools[p].queue && !t.pools[p].quit
    && forall j :: j in s.pools[p].queue && j < |s.calls| ==> t.calls[j] == s.calls[j]
  }

  /** By at most one answer, a worker becomes idle. */
  lemma {:induction false} FreeAWorker(s: State, p: nat, outcome: Outcome) returns (actions: seq<Action>, w: nat)
    requires Inv(s) && p < |s.pools| && !s.pools[p].quit
    ensures RunFrom(s, actions).Some? && Serving(s, RunFrom(s, actions).value, p)
    ensures w < |RunFrom(s, actions).value.pools[p].workers|
    ensures RunFrom(s, actions).value.pools[p].workers[w] == Idle
  {
    assert PoolOk(s, p);
    if v :| 0 <= v < |s.pools[p].workers| && s.pools[p].workers[v] == Idle {
      actions, w := [], v;
    } else {
      w := 0;
      var j := s.pools[p].workers[0].job;
      assert Busy(j) in s.pools[p].workers;
      assert CallOk(s, j);
      actions := [Finish(p, 0, outcome)];
      RunFromOne(s, Finish(p, 0, outcome));
      FinishKeeps(s, p, 0, outcome);
    }
  }

  /** A held job can be answered at once. */
  lemma {:induction false} HeldCanBeAnswered(s: State, p: nat, w: nat, outcome: Outcome)
    requires Inv(s) && HasWorker(s, p, w) && s.pools[p].workers[w].Busy?
    ensures var j := s.pools[p].workers[w].job;
            && j < |s.calls| && Next(s, Finish(p, w, outcome)).Some?
            && Next(s, Finish(p, w, outcome)).value.calls[j].sends == 1
            && Next(s, Finish(p, w, outcome)).value.calls[j].phase == s.calls[j].phase
            && Inv(Next(s, Finish(p, w, outcome)).value)
  {
    var j := s.pools[p].workers[w].job;
    assert PoolOk(s, p);
    assert Busy(j) in s.pools[p].workers;
    assert CallOk(s, j);
    FinishKeeps(s, p, w, outcome);
  }

  /** A queued job can be answered, the ones before it first. */
  lemma {:induction false} QueuedCanBeAnswered(s: State, p: nat, i: nat, outcome: Outcome)
    returns (actions: seq<Action>)
    requires Inv(s) && p < |s.pools| && !s.pools[p].quit && i < |s.pools[p].queue|
    ensures var j := s.pools[p].queue[i];
            && j < |s.calls| && RunFrom(s, actions).Some?
            && var t := RunFrom(s, actions).value;
               Inv(t) && j < |t.calls| && t.calls[j].sends == 1 && t.calls[j].phase == s.calls[j].phase
    decreases i
  {
    var j := s.pools[p].queue[i];
    assert PoolOk(s, p);
    assert j in s.pools[p].queue;
    var first, w := FreeAWorker(s, p, outcome);
    var t := RunFrom(s, first).value;
    var u := Next(t, Take(p, w)).value;
    TakeKeeps(t, p, w);
    RunFromOne(t, Take(p, w));
    RunFromConcat(s, first, [Take(p, w)]);
    var rest: seq<Action>;
    if i == 0 {
      HeldCanBeAnswered(u, p, w, outcome);
      rest := [Finish(p, w, outcome)];
      RunFromOne(u, Finish(p, w, outcome));
    } else {
      assert u.pools[p].queue[i - 1] == j;
      rest := QueuedCanBeAnswered(u, p, i - 1, outcome);
    }
    actions := first + [Take(p, w)] + rest;
    RunFromConcat(s, first + [Take(p, w)], rest);
  }

  /**
   * From every reachable state, every accepted job of a pool that was not stopped can reach an
   * answer, and a caller that still waits can then receive it.
   */
  lemma {:induction false} JobCanBeAnswered(s: State, j: nat, outcome: Outcome) returns (actions: seq<Action>)
    requires Reachable(s) && j < |s.calls| && Accepted(s.calls[j])
    requires s.calls[j].pool < |s.pools| ==> !s.pools[s.calls[j].pool].quit
    ensures RunFrom(s, actions).Some?
    ensures var t := RunFrom(s, actions).value;
            && j < |t.calls| && t.calls[j].sends == 1 && Replies(t.calls[j]) == 1
            && (IsWaiting(s, j) ==> Next(t, Receive(j)).Some?)
  {
    ReachableIsOk(s);
    assert CallOk(s, j);
    var x := PlaceOf(s, j);
    match x
    case Answered =>
      actions := [];
    case Queued(p, i) =>
      PlaceIsPending(s, j, x);
      actions := QueuedCanBeAnswered(s, p, i, outcome);
      assert CallOk(RunFrom(s, actions).value, j);
    case Held(p, w) =>
      PlaceIsPending(s, j, x);
      HeldCanBeAnswered(s, p, w, outcome);
      actions := [Finish(p, w, outcome)];
      RunFromOne(s, Finish(p, w, outcome));
      assert CallOk(RunFrom(s, actions).value, j);
  }

  // ----- Isolation -----

  /**
   * A call that returned a reply got one produced from its own input on the session of the
   * pool it looked up, which runs the replica it asked for.
   */
  lemma {:induction false} CallsAreIsolated(s: State, j: nat)
    requires Reachable(s) && j < |s.calls| && s.calls[j].phase.Returned?
    ensures var c := s.calls[j];
            && c.phase.reply.session == c.pool
            && c.phase.reply.input == c.input
            && c.pool < |s.pools| && s.pools[c.pool].replica == c.replica
  {
    ReachableIsOk(s);
    assert CallOk(s, j);
  }

  /** What a call asked for and the pool it looked up never change, nor does a pool's identity. */
  lemma {:induction false} IdentitiesAreFixed(s: State, a: Action)
    requires Next(s, a).Some?
    ensures var t := Next(s, a).value;
            && |s.calls| <= |t.calls| && |s.pools| <= |t.pools|
            && (forall j :: 0 <= j < |s.calls| ==>
                  t.calls[j].replica == s.calls[j].replica && t.calls[j].input == s.calls[j].input
                  && t.calls[j].pool == s.calls[j].pool)
            && (forall p :: 0 <= p < |s.pools| ==>
                  t.pools[p].replica == s.pools[p].replica && t.pools[p].instances == s.pools[p].instances
                  && (s.pools[p].quit ==> t.pools[p].quit))
  {
    match a
    case Start(r, n, loads) =>
    case Stop(r) =>
    case Lookup(r, input) =>
    case Submit(j) =>
    case Take(p, w) =>
    case Finish(p, w, o) =>
    case Exit(p, w) =>
    case Receive(j) =>
    case Expire(j) =>
  }

  lemma {:induction false} CallKeepsItsPool(before: seq<Action>, replica: string, input: Input, after: seq<Action>)
    requires Run(before).Some? && replica in Run(before).value.registry
    requires Run(before + [Lookup(replica, input)] + after).Some?
    ensures var s, j := Run(before + [Lookup(replica, input)] + after).value, |Run(before).value.calls|;
            && j < |s.calls| && s.calls[j].input == input && s.calls[j].replica == replica
            && s.calls[j].pool == Run(before).value.registry[replica]
  {
    var all := before + [Lookup(replica, input)] + after;
    if after == [] {
      assert all[..|all| - 1] == before;
    } else {
      var shorter := after[..|after| - 1];
      assert all[..|all| - 1] == before + [Lookup(replica, input)] + shorter;
      CallKeepsItsPool(before, replica, input, shorter);
      IdentitiesAreFixed(Run(all[..|all| - 1]).value, all[|all| - 1]);
    }
  }

  /**
   * Whatever happens after a call looks its pool up - stops, restarts under the same replica
   * ID, other calls - a reply it returns comes from that pool's session and its own input.
   */
  lemma {:induction false} ReplyIsFromPoolLookedUp(
      before: seq<Action>, replica: string, input: Input, after: seq<Action>)
    requires Run(before).Some? && replica in Run(before).value.registry
    requires Run(before + [Lookup(replica, input)] + after).Some?
    ensures var s, j := Run(before + [Lookup(replica, input)] + after).value, |Run(before).value.calls|;
            && j < |s.calls|
            && (s.calls[j].phase.Returned? ==>
                  s.calls[j].phase.reply.session == Run(before).value.registry[replica]
                  && s.calls[j].phase.reply.input == input)
  {
    CallKeepsItsPool(before, replica, input, after);
    RunKeeps(before + [Lookup(replica, input)] + after);
    assert CallOk(Run(before + [Lookup(replica, input)] + after).value, |Run(before).value.calls|);
  }
}
