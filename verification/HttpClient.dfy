/** The shared HTTP client, created on first use under double-checked locking. Any number of calls run
    at once; one step of one call is one read or write of shared memory, and all calls see one memory. */
module HttpClient {
  import opened Wrappers

  /** Where a call stands. A `Held` point lies between taking and releasing the lock. */
  datatype Point =
    | Start                             // first test of the shared variable
    | Waiting                           // for the lock
    | Recheck                           // second test
    | Create                            // about to make a client
    | Store(made: nat)                  // about to publish it
    | ReadHeld                          // about to read the result, holding the lock
    | Release(result: Option<nat>)      // deferred unlock, the result being read already
    | ReadFree                          // about to read the result without the lock
    | Done(result: Option<nat>)

  /** Clients are numbered in order of creation. */
  datatype State = State(client: Option<nat>, lock: Option<nat>, created: nat, calls: seq<Point>)

  predicate Held(p: Point) {
    p.Recheck? || p.Create? || p.Store? || p.ReadHeld? || p.Release?
  }

  function Initial(n: nat): State {
    State(None, None, 0, seq(n, _ => Start))
  }

  /** A call can take a step unless it has returned or waits for a lock that is taken. */
  predicate Enabled(s: State, t: nat) {
    t < |s.calls| && !s.calls[t].Done? && (s.calls[t].Waiting? ==> s.lock == None)
  }

  function Step(s: State, t: nat): State
    requires Enabled(s, t)
  {
    match s.calls[t]
    case Start => s.(calls := s.calls[t := if s.client == None then Waiting else ReadFree])
    case Waiting => s.(lock := Some(t), calls := s.calls[t := Recheck])
    case Recheck => s.(calls := s.calls[t := if s.client == None then Create else ReadHeld])
    case Create => s.(created := s.created + 1, calls := s.calls[t := Store(s.created)])
    case Store(c) => s.(client := Some(c), calls := s.calls[t := ReadHeld])
    case ReadHeld => s.(calls := s.calls[t := Release(s.client)])
    case Release(r) => s.(lock := None, calls := s.calls[t := Done(r)])
    case ReadFree => s.(calls := s.calls[t := Done(s.client)])
  }

  /** `states` is a run in which the calls take steps in the order given by `schedule`. */
  ghost predicate IsRun(n: nat, schedule: seq<nat>, states: seq<State>) {
    && |states| == |schedule| + 1
    && states[0] == Initial(n)
    && forall i :: 0 <= i < |schedule| ==>
         Enabled(states[i], schedule[i]) && states[i + 1] == Step(states[i], schedule[i])
  }

  /* ---------- what every step keeps ---------- */

  /** What is known when a call stands at a point. */
  ghost predicate Sound(s: State, p: Point) {
    match p
    case Create => s.client == None && s.created == 0
    case Store(c) => s.client == None && c == 0 && s.created == 1
    case ReadHeld => s.client != None
    case ReadFree => s.client != None
    case Release(r) => r == s.client && r != None
    case Done(r) => r == s.client && r != None
    case _ => true
  }

  ghost predicate Inv(s: State) {
    && (forall t: nat :: t < |s.calls| ==> Sound(s, s.calls[t]))
    && (forall t: nat :: t < |s.calls| ==> (Held(s.calls[t]) <==> s.lock == Some(t)))
    && (s.lock != None ==> s.lock.value < |s.calls|)
    && (s.client != None ==> s.client == Some(0) && s.created == 1)
    && (s.client == None ==> s.created == if s.lock != None && s.calls[s.lock.value].Store? then 1 else 0)
  }

  lemma StepKeepsInv(s: State, t: nat)
    requires Inv(s) && Enabled(s, t)
    ensures Inv(Step(s, t))
    ensures s.client != None ==> Step(s, t).client == s.client
  {
    var s' := Step(s, t);
    assert Sound(s, s.calls[t]);
    forall u: nat | u < |s'.calls|
      ensures Sound(s', s'.calls[u]) && (Held(s'.calls[u]) <==> s'.lock == Some(u))
    {
      assert Sound(s, s.calls[u]);
      assert u != t ==> s'.calls[u] == s.calls[u];
      assert Held(s.calls[t]) && Held(s.calls[u]) ==> u == t;
    }
  }

  lemma {:induction false} RunKeepsInv(n: nat, schedule: seq<nat>, states: seq<State>, i: nat)
    requires IsRun(n, schedule, states) && i < |states|
    ensures Inv(states[i]) && |states[i].calls| == n
    decreases i
  {
    if i == 0 {
    } else {
      RunKeepsInv(n, schedule, states, i - 1);
      StepKeepsInv(states[i - 1], schedule[i - 1]);
    }
  }

  /* ---------- main results, over every interleaving ---------- */

  /** At most one client is ever made, and every call that has returned has returned that one, not nil. */
  lemma SingleClient(n: nat, schedule: seq<nat>, states: seq<State>, i: nat)
    requires IsRun(n, schedule, states) && i < |states|
    ensures states[i].created <= 1 && |states[i].calls| == n
    ensures forall p :: p in states[i].calls && p.Done? ==> p.result == Some(0) == states[i].client
  {
    RunKeepsInv(n, schedule, states, i);
    forall p | p in states[i].calls && p.Done? ensures p.result == Some(0) == states[i].client {
      assert Sound(states[i], p);
    }
  }

  /** Once published, the client is never replaced. */
  lemma {:induction false} ClientStays(n: nat, schedule: seq<nat>, states: seq<State>, i: nat, j: nat)
    requires IsRun(n, schedule, states) && i <= j < |states|
    requires states[i].client != None
    ensures states[j].client == states[i].client
    decreases j
  {
    if i == j {
    } else {
      ClientStays(n, schedule, states, i, j - 1);
      RunKeepsInv(n, schedule, states, j - 1);
      StepKeepsInv(states[j - 1], schedule[j - 1]);
    }
  }

  /** The points of a call that never takes the lock. */
  predicate LockFree(p: Point) {
    p.Start? || p.ReadFree? || p.Done?
  }

  /** A call that starts once the client is published never waits for the lock, and returns in two steps of its own. */
  lemma {:induction false} PublishedNeedsNoLock(
      n: nat, schedule: seq<nat>, states: seq<State>, i: nat, j: nat, t: nat)
    requires IsRun(n, schedule, states) && i <= j < |states| && t < n
    requires states[i].client != None && |states[i].calls| == n && states[i].calls[t] == Start
    ensures |states[j].calls| == n && LockFree(states[j].calls[t])
    ensures j < |schedule| && schedule[j] == t ==>
              states[j + 1].calls[t] == if states[j].calls[t] == Start then ReadFree else Done(states[j].client)
    decreases j
  {
    RunKeepsInv(n, schedule, states, j);
    ClientStays(n, schedule, states, i, j);
    if i == j {
    } else {
      PublishedNeedsNoLock(n, schedule, states, i, j - 1, t);
      ClientStays(n, schedule, states, i, j - 1);
    }
  }

  /** No two calls are between taking and releasing the lock. */
  lemma MutualExclusion(n: nat, schedule: seq<nat>, states: seq<State>, i: nat, t: nat, u: nat)
    requires IsRun(n, schedule, states) && i < |states|
    requires t < |states[i].calls| && u < |states[i].calls|
    requires Held(states[i].calls[t]) && Held(states[i].calls[u])
    ensures t == u
  {
    RunKeepsInv(n, schedule, states, i);
  }

  /** A run that cannot be continued is one in which every call has returned: the lock is never lost. */
  lemma NoDeadlock(n: nat, schedule: seq<nat>, states: seq<State>)
    requires IsRun(n, schedule, states)
    requires forall t: nat :: !Enabled(states[|schedule|], t)
    ensures forall p :: p in states[|schedule|].calls ==> p.Done?
  {
    var s := states[|schedule|];
    RunKeepsInv(n, schedule, states, |schedule|);
    if s.lock != None {
      assert Enabled(s, s.lock.value);
    }
    forall p | p in s.calls ensures p.Done? {
      var t: nat :| t < |s.calls| && s.calls[t] == p;
      assert !Enabled(s, t);
    }
  }

  /* ---------- every run ends ---------- */

  function Remaining(p: Point): nat {
    match p
    case Start => 7
    case Waiting => 6
    case Recheck => 5
    case Create => 4
    case Store(_) => 3
    case ReadHeld => 2
    case Release(_) => 1
    case ReadFree => 1
    case Done(_) => 0
  }

  function TotalRemaining(calls: seq<Point>): nat {
    if calls == [] then 0 else Remaining(calls[0]) + TotalRemaining(calls[1..])
  }

  lemma {:induction false} TotalAfterUpdate(calls: seq<Point>, t: nat, p: Point)
    requires t < |calls|
    ensures TotalRemaining(calls[t := p]) == TotalRemaining(calls) - Remaining(calls[t]) + Remaining(p)
  {
    if t == 0 {
    } else {
      TotalAfterUpdate(calls[1..], t - 1, p);
      assert calls[t := p][1..] == calls[1..][t - 1 := p];
    }
  }

  lemma {:induction false} TotalAtStart(n: nat)
    ensures TotalRemaining(Initial(n).calls) == 7 * n
  {
    if n == 0 {
    } else {
      TotalAtStart(n - 1);
      assert Initial(n).calls[1..] == Initial(n - 1).calls;
    }
  }

  lemma {:induction false} StepsUsed(n: nat, schedule: seq<nat>, states: seq<State>, i: nat)
    requires IsRun(n, schedule, states) && i < |states|
    ensures i + TotalRemaining(states[i].calls) <= 7 * n
    decreases i
  {
    if i == 0 {
      TotalAtStart(n);
    } else {
      StepsUsed(n, schedule, states, i - 1);
      var s, t := states[i - 1], schedule[i - 1];
      TotalAfterUpdate(s.calls, t, Step(s, t).calls[t]);
      assert Step(s, t).calls == s.calls[t := Step(s, t).calls[t]];
    }
  }

  /** However the calls interleave, `n` of them take at most `7 * n` steps, and when none can go on
      exactly one client has been made (none for no calls) and all have it. */
  lemma EveryRunEnds(n: nat, schedule: seq<nat>, states: seq<State>)
    requires IsRun(n, schedule, states)
    ensures |schedule| <= 7 * n
    ensures (forall t: nat :: !Enabled(states[|schedule|], t)) ==>
              var last := states[|schedule|];
              last.created == (if n == 0 then 0 else 1) && |last.calls| == n
              && forall p :: p in last.calls ==> p == Done(Some(0))
  {
    var last := states[|schedule|];
    StepsUsed(n, schedule, states, |schedule|);
    if forall t: nat :: !Enabled(last, t) {
      NoDeadlock(n, schedule, states);
      SingleClient(n, schedule, states, |schedule|);
      RunKeepsInv(n, schedule, states, |schedule|);
      if n > 0 {
        assert last.calls[0] in last.calls;
      }
    }
  }
}
