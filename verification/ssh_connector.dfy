/**
 The SSH connection cache (pkg/ssh/connector.go, connection.go): Open, Close and session calls of any
 number of goroutines, interleaved at the operations on the connector's and the connections' mutexes.
 */
module SshConnector {
  import opened Strings

  /**
   `dialled` is the host the connection leads to; `open` while sshclient is not nil; `mu` is the goroutine
   holding the connection's mutex.
   */
  datatype Conn = Conn(dialled: int, open: bool, mu: Option<nat>)

  datatype Pc =
    | Idle
    | OpenWant(host: int) | OpenLookup(host: int) | OpenDial(host: int)
    | OpenDone(host: int, result: Option<nat>)
    | CloseWant(c: nat) | CloseCheck(c: nat) | ForgetWant(c: nat) | Forgetting(c: nat) | Clearing(c: nat)
    | CloseDone(c: nat)
    | SessionWant(c: nat) | SessionCheck(c: nat) | SessionDone(c: nat, good: bool)

  /** `closed` remembers the connections on which a Close has returned. */
  datatype State = State(
    lock: Option<nat>, connections: map<int, nat>, conns: seq<Conn>, threads: seq<Pc>, closed: set<nat>)

  /** The goroutine is inside the connector's critical section. */
  predicate HoldsLock(pc: Pc)
  {
    pc.OpenLookup? || pc.OpenDial? || pc.OpenDone? || pc.Forgetting?
  }

  /** The connection whose mutex the goroutine holds. */
  function HoldsMu(pc: Pc): Option<nat>
  {
    match pc
    case CloseCheck(c) => Some(c)
    case ForgetWant(c) => Some(c)
    case Forgetting(c) => Some(c)
    case Clearing(c) => Some(c)
    case CloseDone(c) => Some(c)
    case SessionCheck(c) => Some(c)
    case SessionDone(c, _) => Some(c)
    case _ => None
  }

  /** The connection the goroutine is waiting to lock. */
  function WantsMu(pc: Pc): Option<nat>
  {
    match pc
    case CloseWant(c) => Some(c)
    case SessionWant(c) => Some(c)
    case _ => None
  }

  /** The connection the goroutine works with, or is about to return. */
  function Subject(pc: Pc): Option<nat>
  {
    if HoldsMu(pc).Some? then HoldsMu(pc)
    else if WantsMu(pc).Some? then WantsMu(pc)
    else if pc.OpenDone? then pc.result
    else None
  }

  predicate Exists(s: State, c: Option<nat>)
  {
    c.Some? ==> c.value < |s.conns|
  }

  predicate CanStep(s: State, t: nat)
    requires t < |s.threads|
  {
    var pc := s.threads[t];
    && pc != Idle
    && (pc.OpenWant? || pc.ForgetWant? ==> s.lock.None?)
    && Exists(s, Subject(pc)) && (WantsMu(pc).Some? ==> s.conns[WantsMu(pc).value].mu.None?)
  }

  function Goto(s: State, t: nat, pc: Pc): State
    requires t < |s.threads|
  {
    s.(threads := s.threads[t := pc])
  }

  function SetMu(s: State, c: nat, mu: Option<nat>): State
    requires c < |s.conns|
  {
    s.(conns := s.conns[c := s.conns[c].(mu := mu)])
  }

  /** One step of goroutine `t`; `ok` says whether dialling, or opening a session, works. */
  function Step(s: State, t: nat, ok: bool): State
    requires t < |s.threads| && CanStep(s, t)
  {
    match s.threads[t]
    case OpenWant(h) => Goto(s.(lock := Some(t)), t, OpenLookup(h))
    case OpenLookup(h) =>
      Goto(s, t, if h in s.connections then OpenDone(h, Some(s.connections[h])) else OpenDial(h))
    case OpenDial(h) =>
      if !ok then Goto(s, t, OpenDone(h, None))
      else
        var c := |s.conns|;
        var dialled := s.(conns := s.conns + [Conn(h, true, None)], connections := s.connections[h := c]);
        Goto(dialled, t, OpenDone(h, Some(c)))
    case OpenDone(_, _) => Goto(s.(lock := None), t, Idle)
    case CloseWant(c) => Goto(SetMu(s, c, Some(t)), t, CloseCheck(c))
    case CloseCheck(c) => Goto(s, t, if s.conns[c].open then ForgetWant(c) else CloseDone(c))
    case ForgetWant(c) => Goto(s.(lock := Some(t)), t, Forgetting(c))
    case Forgetting(c) => Goto(s.(lock := None, connections := Forget(s.connections, c)), t, Clearing(c))
    case Clearing(c) => Goto(s.(conns := s.conns[c := s.conns[c].(open := false)]), t, CloseDone(c))
    case CloseDone(c) => Goto(SetMu(s, c, None).(closed := s.closed + {c}), t, Idle)
    case SessionWant(c) => Goto(SetMu(s, c, Some(t)), t, SessionCheck(c))
    case SessionCheck(c) => Goto(s, t, SessionDone(c, s.conns[c].open && ok))
    case SessionDone(c, good) => Goto(SetMu(s, c, None), t, if good then Idle else CloseWant(c))
    case Idle => s
  }

  /** forgetConnection: the loop deletes every entry that holds the connection. */
  function Forget(connections: map<int, nat>, c: nat): map<int, nat>
  {
    map h | h in connections && connections[h] != c :: connections[h]
  }

  /** What goroutines do: start an operation on a connection they may know, appear, or take a step. */
  datatype Action = Begin(t: nat, pc: Pc) | Spawn | Move(t: nat, ok: bool)

  ghost predicate Next(s: State, a: Action, s': State)
  {
    match a
    case Spawn => s' == s.(threads := s.threads + [Idle])
    case Begin(t, pc) =>
      && t < |s.threads| && s.threads[t] == Idle && s' == Goto(s, t, pc)
      && (pc.OpenWant? || (WantsMu(pc).Some? && Exists(s, WantsMu(pc))))
    case Move(t, ok) => t < |s.threads| && CanStep(s, t) && s' == Step(s, t, ok)
  }

  // ----- the invariant -----

  ghost predicate LockHeld(s: State)
  {
    && (forall t | 0 <= t < |s.threads| :: HoldsLock(s.threads[t]) <==> s.lock == Some(t))
    && (s.lock.Some? ==> s.lock.value < |s.threads|)
  }

  ghost predicate MuHeld(s: State)
  {
    && (forall t | 0 <= t < |s.threads| && HoldsMu(s.threads[t]).Some? ::
          HoldsMu(s.threads[t]).value < |s.conns| && s.conns[HoldsMu(s.threads[t]).value].mu == Some(t))
    && (forall c | 0 <= c < |s.conns| && s.conns[c].mu.Some? ::
          s.conns[c].mu.value < |s.threads| && HoldsMu(s.threads[s.conns[c].mu.value]) == Some(c))
  }

  /** The cache holds live connections, each under the host it leads to, and a finished Close has evicted its own. */
  ghost predicate Caching(s: State)
  {
    && (forall h | h in s.connections :: s.connections[h] < |s.conns| && s.conns[s.connections[h]].open)
    && (forall h | h in s.connections :: s.conns[s.connections[h]].dialled == h)
    && (forall c | c in s.closed :: c < |s.conns| && !s.conns[c].open)
  }

  /** What a goroutine's place in an operation says about the cache. */
  ghost predicate Progressing(s: State, pc: Pc)
  {
    && Exists(s, Subject(pc))
    && match pc
    case OpenDial(h) => h !in s.connections
    case OpenDone(h, Some(c)) => h in s.connections && s.connections[h] == c
    case Clearing(c) => forall h | h in s.connections :: s.connections[h] != c
    case CloseDone(c) => !s.conns[c].open
    case SessionDone(c, good) => good ==> s.conns[c].open
    case _ => true
  }

  ghost predicate Inv(s: State)
  {
    && LockHeld(s) && MuHeld(s) && Caching(s)
    && forall t | 0 <= t < |s.threads| :: Progressing(s, s.threads[t])
  }

  lemma MoveKeepsLock(s: State, t: nat, ok: bool)
    requires LockHeld(s) && t < |s.threads| && CanStep(s, t)
    ensures LockHeld(Step(s, t, ok))
  {
  }

  /** What a step does to the mutexes: the goroutine takes one, gives one back, or neither. */
  lemma MoveAndMu(s: State, t: nat, ok: bool, c: nat)
    requires t < |s.threads| && CanStep(s, t) && c < |s.conns|
    ensures var s', before, after := Step(s, t, ok), HoldsMu(s.threads[t]), HoldsMu(Step(s, t, ok).threads[t]);
            && |s.conns| <= |s'.conns| <= |s.conns| + 1
            && (|s'.conns| > |s.conns| ==> s'.conns[|s.conns|].mu.None? && before.None? && after.None?)
            && (before == after ==> s'.conns[c].mu == s.conns[c].mu)
            && (before != after ==> before.None? || after.None?)
            && (before.None? && after.Some? ==>
                  after.value < |s.conns| && s.conns[after.value].mu.None? && s'.conns[after.value].mu == Some(t)
                  && (c != after.value ==> s'.conns[c].mu == s.conns[c].mu))
            && (before.Some? && after.None? ==>
                  before.value < |s.conns| && s'.conns[before.value].mu.None?
                  && (c != before.value ==> s'.conns[c].mu == s.conns[c].mu))
  {
  }

  lemma MoveKeepsMu(s: State, t: nat, ok: bool)
    requires MuHeld(s) && t < |s.threads| && CanStep(s, t)
    ensures MuHeld(Step(s, t, ok))
  {
    var s' := Step(s, t, ok);
    forall u | 0 <= u < |s'.threads| && HoldsMu(s'.threads[u]).Some?
      ensures HoldsMu(s'.threads[u]).value < |s'.conns| && s'.conns[HoldsMu(s'.threads[u]).value].mu == Some(u)
    {
      HolderKnown(s, t, ok, u);
    }
    forall c | 0 <= c < |s'.conns| && s'.conns[c].mu.Some?
      ensures s'.conns[c].mu.value < |s'.threads| && HoldsMu(s'.threads[s'.conns[c].mu.value]) == Some(c)
    {
      HeldByHolder(s, t, ok, c);
    }
  }

  /** After a step, a goroutine that should hold a mutex does. */
  lemma HolderKnown(s: State, t: nat, ok: bool, u: nat)
    requires MuHeld(s) && t < |s.threads| && CanStep(s, t)
    requires u < |Step(s, t, ok).threads| && HoldsMu(Step(s, t, ok).threads[u]).Some?
    ensures var s', c := Step(s, t, ok), HoldsMu(Step(s, t, ok).threads[u]).value;
            c < |s'.conns| && s'.conns[c].mu == Some(u)
  {
    OthersStay(s, t, ok);
    var before, after := HoldsMu(s.threads[t]), HoldsMu(Step(s, t, ok).threads[t]);
    if u != t || before == after {
      MoveAndMu(s, t, ok, HoldsMu(s.threads[u]).value);
    } else {
      var c := TakesKnown(s, t, ok);
      MoveAndMu(s, t, ok, c);
    }
  }

  /** A goroutine that takes a mutex takes that of an existing connection. */
  lemma TakesKnown(s: State, t: nat, ok: bool) returns (c: nat)
    requires t < |s.threads| && CanStep(s, t)
    requires HoldsMu(s.threads[t]) != HoldsMu(Step(s, t, ok).threads[t]) && HoldsMu(Step(s, t, ok).threads[t]).Some?
    ensures HoldsMu(Step(s, t, ok).threads[t]) == Some(c) && c < |s.conns|
  {
    c := HoldsMu(Step(s, t, ok).threads[t]).value;
  }

  /** After a step, a mutex that is held is held by the goroutine that should hold it. */
  lemma HeldByHolder(s: State, t: nat, ok: bool, c: nat)
    requires MuHeld(s) && t < |s.threads| && CanStep(s, t)
    requires c < |Step(s, t, ok).conns| && Step(s, t, ok).conns[c].mu.Some?
    ensures var s', u := Step(s, t, ok), Step(s, t, ok).conns[c].mu.value;
            u < |s'.threads| && HoldsMu(s'.threads[u]) == Some(c)
  {
    OthersStay(s, t, ok);
    if c < |s.conns| { MoveAndMu(s, t, ok, c); } else { NewConnFree(s, t, ok); }
  }

  lemma OthersStay(s: State, t: nat, ok: bool)
    requires t < |s.threads| && CanStep(s, t)
    ensures var s' := Step(s, t, ok);
            |s'.threads| == |s.threads| && forall u | 0 <= u < |s.threads| && u != t :: s'.threads[u] == s.threads[u]
  {
  }

  lemma NewConnFree(s: State, t: nat, ok: bool)
    requires t < |s.threads| && CanStep(s, t) && |Step(s, t, ok).conns| > |s.conns|
    ensures |Step(s, t, ok).conns| == |s.conns| + 1 && Step(s, t, ok).conns[|s.conns|].mu.None?
  {
  }

  /** The steps that leave the cache, the clients and the finished closes alone. */
  predicate Quiet(pc: Pc)
  {
    !pc.OpenDial? && !pc.Forgetting? && !pc.Clearing? && !pc.CloseDone?
  }

  ghost predicate SameCache(s: State, s': State)
  {
    && s'.connections == s.connections && s'.closed == s.closed && |s'.conns| == |s.conns|
    && forall c | 0 <= c < |s.conns| ::
         s'.conns[c].open == s.conns[c].open && s'.conns[c].dialled == s.conns[c].dialled
  }

  lemma QuietMove(s: State, t: nat, ok: bool)
    requires t < |s.threads| && CanStep(s, t) && Quiet(s.threads[t])
    ensures SameCache(s, Step(s, t, ok))
  {
  }

  lemma SameCaching(s: State, s': State)
    requires Caching(s) && SameCache(s, s')
    ensures Caching(s')
  {
  }

  lemma LoudMove(s: State, t: nat, ok: bool)
    requires Caching(s) && t < |s.threads| && CanStep(s, t) && Progressing(s, s.threads[t]) && !Quiet(s.threads[t])
    ensures Caching(Step(s, t, ok))
  {
  }

  lemma MoveKeepsCaching(s: State, t: nat, ok: bool)
    requires Inv(s) && t < |s.threads| && CanStep(s, t)
    ensures Caching(Step(s, t, ok))
  {
    if Quiet(s.threads[t]) {
      QuietMove(s, t, ok);
      SameCaching(s, Step(s, t, ok));
    } else {
      assert Progressing(s, s.threads[t]);
      LoudMove(s, t, ok);
    }
  }

  lemma OwnProgress(s: State, t: nat, ok: bool)
    requires Caching(s) && t < |s.threads| && CanStep(s, t) && Progressing(s, s.threads[t])
    ensures Progressing(Step(s, t, ok), Step(s, t, ok).threads[t])
  {
  }

  /** What others may see of a step: only the lock's holder changes the cache, and closing is for good. */
  lemma MoveAndCache(s: State, t: nat, ok: bool)
    requires t < |s.threads| && CanStep(s, t)
    ensures var s' := Step(s, t, ok);
            && (!HoldsLock(s.threads[t]) ==> s'.connections == s.connections)
            && |s.conns| <= |s'.conns|
            && (forall c | 0 <= c < |s.conns| :: s'.conns[c].open ==> s.conns[c].open)
            && (forall c | 0 <= c < |s.conns| && s.conns[c].open && !s'.conns[c].open :: s.threads[t] == Clearing(c))
            && (forall h | h in s'.connections ::
                  (h in s.connections && s'.connections[h] == s.connections[h]) || s'.connections[h] == |s.conns|)
  {
  }

  lemma OtherProgress(s: State, t: nat, ok: bool, pc: Pc)
    requires LockHeld(s) && t < |s.threads| && CanStep(s, t)
    requires Progressing(s, pc) && (HoldsLock(pc) ==> !HoldsLock(s.threads[t]))
    requires HoldsMu(pc).Some? ==> HoldsMu(s.threads[t]) != HoldsMu(pc)
    ensures Progressing(Step(s, t, ok), pc)
  {
    MoveAndCache(s, t, ok);
  }

  lemma MutexesExclude(s: State, t: nat, u: nat)
    requires MuHeld(s) && t < |s.threads| && u < |s.threads| && t != u && HoldsMu(s.threads[u]).Some?
    ensures HoldsMu(s.threads[t]) != HoldsMu(s.threads[u])
  {
  }

  lemma MoveKeepsProgress(s: State, t: nat, ok: bool, u: nat)
    requires Inv(s) && t < |s.threads| && CanStep(s, t) && u < |s.threads|
    ensures Progressing(Step(s, t, ok), Step(s, t, ok).threads[u])
  {
    assert Progressing(s, s.threads[u]);
    OthersStay(s, t, ok);
    if u == t {
      OwnProgress(s, t, ok);
    } else {
      if HoldsMu(s.threads[u]).Some? { MutexesExclude(s, t, u); }
      OtherProgress(s, t, ok, s.threads[u]);
    }
  }

  lemma MoveKeepsInv(s: State, t: nat, ok: bool)
    requires Inv(s) && t < |s.threads| && CanStep(s, t)
    ensures Inv(Step(s, t, ok))
  {
    MoveKeepsLock(s, t, ok);
    MoveKeepsMu(s, t, ok);
    MoveKeepsCaching(s, t, ok);
    OthersStay(s, t, ok);
    forall u | 0 <= u < |s.threads| ensures Progressing(Step(s, t, ok), Step(s, t, ok).threads[u]) {
      MoveKeepsProgress(s, t, ok, u);
    }
  }

  /** A goroutine outside every critical section may appear or change what it waits for. */
  lemma OutsideKeepsInv(s: State, s': State)
    requires Inv(s) && s' == s.(threads := s'.threads) && |s.threads| <= |s'.threads|
    requires forall t | 0 <= t < |s'.threads| ::
               (t < |s.threads| && s'.threads[t] == s.threads[t])
               || (&& (t < |s.threads| ==> s.threads[t] == Idle)
                   && (s'.threads[t] == Idle || s'.threads[t].OpenWant?
                       || (WantsMu(s'.threads[t]).Some? && Exists(s, WantsMu(s'.threads[t])))))
    ensures Inv(s')
  {
    assert LockHeld(s');
    assert MuHeld(s');
    forall t | 0 <= t < |s'.threads| ensures Progressing(s', s'.threads[t]) {
      if t < |s.threads| && s'.threads[t] == s.threads[t] { assert Progressing(s, s.threads[t]); }
    }
  }

  lemma NextKeepsInv(s: State, a: Action, s': State)
    requires Inv(s) && Next(s, a, s')
    ensures Inv(s')
  {
    match a
    case Move(t, ok) => MoveKeepsInv(s, t, ok);
    case Begin(t, pc) => OutsideKeepsInv(s, s');
    case Spawn => OutsideKeepsInv(s, s');
  }

  // ----- whole runs -----

  const INITIAL := State(None, map[], [], [], {})

  ghost predicate IsRun(states: seq<State>, actions: seq<Action>)
  {
    && |states| == |actions| + 1 && states[0] == INITIAL
    && forall i | 0 <= i < |actions| :: Next(states[i], actions[i], states[i + 1])
  }

  lemma {:induction false} InvAt(states: seq<State>, actions: seq<Action>, i: nat)
    requires IsRun(states, actions) && i < |states|
    ensures Inv(states[i])
    decreases i
  {
    if i > 0 {
      InvAt(states, actions, i - 1);
      assert Next(states[i - 1], actions[i - 1], states[i - 1 + 1]);
      NextKeepsInv(states[i - 1], actions[i - 1], states[i]);
    }
  }

  /**
   In every state of every run: a cached connection has a live client, leads to the host it is cached
   under, and so is cached under one host only; and a connection whose Close has returned is neither live
   nor cached.
   */
  lemma CacheAlwaysLive(states: seq<State>, actions: seq<Action>, i: nat)
    requires IsRun(states, actions) && i < |states|
    ensures var s := states[i];
            && (forall h | h in s.connections :: s.connections[h] < |s.conns| && s.conns[s.connections[h]].open)
            && (forall h | h in s.connections :: s.conns[s.connections[h]].dialled == h)
            && (forall h, g | h in s.connections && g in s.connections && s.connections[h] == s.connections[g] ::
                  h == g)
            && (forall c | c in s.closed :: forall h | h in s.connections :: s.connections[h] != c)
  {
    InvAt(states, actions, i);
  }

  /**
   No deadlock: while any operation is under way, some goroutine can take a step. A goroutine that
   holds the connector's lock never waits, and only Close waits for it while holding another mutex.
   */
  lemma SomeoneCanStep(s: State, t: nat) returns (u: nat)
    requires Inv(s) && t < |s.threads| && s.threads[t] != Idle
    ensures u < |s.threads| && CanStep(s, u)
  {
    u := t;
    if WantsMu(s.threads[u]).Some? {
      var c := WantsMu(s.threads[u]).value;
      assert Progressing(s, s.threads[u]);
      if s.conns[c].mu.Some? {
        u := s.conns[c].mu.value;
        assert HoldsMu(s.threads[u]) == Some(c);
        assert Progressing(s, s.threads[u]);
      }
    }
    if (s.threads[u].OpenWant? || s.threads[u].ForgetWant?) && s.lock.Some? {
      u := s.lock.value;
      assert HoldsLock(s.threads[u]) && Progressing(s, s.threads[u]);
    }
  }

  /** The steps an operation still needs; each step of its goroutine takes one away. */
  function StepsLeft(pc: Pc): nat
  {
    match pc
    case Idle => 0
    case OpenWant(_) => 4
    case OpenLookup(_) => 3
    case OpenDial(_) => 2
    case OpenDone(_, _) => 1
    case SessionWant(_) => 9
    case SessionCheck(_) => 8
    case SessionDone(_, _) => 7
    case CloseWant(_) => 6
    case CloseCheck(_) => 5
    case ForgetWant(_) => 4
    case Forgetting(_) => 3
    case Clearing(_) => 2
    case CloseDone(_) => 1
  }

  lemma OperationsEnd(s: State, t: nat, ok: bool)
    requires t < |s.threads| && CanStep(s, t)
    ensures StepsLeft(Step(s, t, ok).threads[t]) < StepsLeft(s.threads[t])
    ensures forall u | 0 <= u < |s.threads| && u != t :: Step(s, t, ok).threads[u] == s.threads[u]
  {
    OthersStay(s, t, ok);
  }

  /** Only a Close of that very connection takes an entry out of the cache, and none is ever replaced. */
  lemma EvictsOnlyItself(s: State, a: Action, s': State, h: int)
    requires Inv(s) && Next(s, a, s') && h in s.connections
    ensures h in s'.connections ==> s'.connections[h] == s.connections[h]
    ensures h !in s'.connections ==> a.Move? && s.threads[a.t] == Forgetting(s.connections[h])
  {
    match a
    case Move(t, ok) => assert Progressing(s, s.threads[t]);
    case _ =>
  }

  lemma {:induction false} ClosedStays(states: seq<State>, actions: seq<Action>, i: nat, j: nat, c: nat)
    requires IsRun(states, actions) && i <= j < |states| && c in states[i].closed
    ensures c in states[j].closed
    decreases j - i
  {
    if i < j {
      assert Next(states[i], actions[i], states[i + 1]);
      ClosedStays(states, actions, i + 1, j, c);
    }
  }

  // ----- what an operation returns -----

  predicate Opening(pc: Pc)
  {
    pc.OpenWant? || pc.OpenLookup? || pc.OpenDial? || pc.OpenDone?
  }

  /** An operation works for the host, or on the connection, that it was started with until it returns. */
  lemma OperationKeepsItsTarget(s: State, a: Action, s': State, t: nat)
    requires Next(s, a, s') && t < |s.threads| && s.threads[t] != Idle
    ensures var pc, pc' := s.threads[t], s'.threads[t];
            || pc' == Idle
            || (Opening(pc) && Opening(pc') && pc'.host == pc.host)
            || (!Opening(pc) && !Opening(pc') && Subject(pc') == Subject(pc))
  {
  }

  /**
   In every state of every run, the connection that an Open is about to return leads to the host it was asked
   for and is live.
   */
  lemma OpenReturnsItsHost(states: seq<State>, actions: seq<Action>, i: nat, t: nat)
    requires IsRun(states, actions) && i < |states| && t < |states[i].threads|
    requires states[i].threads[t].OpenDone? && states[i].threads[t].result.Some?
    ensures var s, c := states[i], states[i].threads[t].result.value;
            c < |s.conns| && s.conns[c].dialled == s.threads[t].host && s.conns[c].open
  {
    InvAt(states, actions, i);
    assert Progressing(states[i], states[i].threads[t]);
  }

  /** An Open of a host that is cached returns the cached connection and dials nothing. */
  lemma CachedHostIsNotDialled(s: State, a: Action, s': State, t: nat, h: int)
    requires Inv(s) && Next(s, a, s') && t < |s.threads| && h in s.connections
    requires s.threads[t] == OpenLookup(h) && s'.threads[t] != s.threads[t]
    ensures s'.threads[t] == OpenDone(h, Some(s.connections[h])) && s'.conns == s.conns
    ensures s'.connections == s.connections
  {
  }

  /** A connection comes about only by dialling a host that has none cached, and is then cached for it. */
  lemma DialsOnlyUncached(s: State, a: Action, s': State)
    requires Inv(s) && Next(s, a, s') && |s'.conns| > |s.conns|
    ensures a.Move? && s.threads[a.t].OpenDial? && |s'.conns| == |s.conns| + 1
    ensures var h, c := s.threads[a.t].host, |s.conns|;
            && h !in s.connections && h in s'.connections && s'.connections[h] == c
            && s'.conns[c].dialled == h && s'.conns[c].open && s'.threads[a.t] == OpenDone(h, Some(c))
  {
    assert Progressing(s, s.threads[a.t]);
  }

  /** A session is good only on a live connection, which stays live until the mutex is given back. */
  lemma GoodSessionIsLive(states: seq<State>, actions: seq<Action>, i: nat, t: nat, c: nat)
    requires IsRun(states, actions) && i < |states| && t < |states[i].threads|
    requires states[i].threads[t] == SessionDone(c, true)
    ensures c < |states[i].conns| && states[i].conns[c].open && c !in states[i].closed
  {
    InvAt(states, actions, i);
    assert Progressing(states[i], states[i].threads[t]);
  }

  /** The goroutine is closing the connection, after a session that failed or because it was asked to. */
  predicate ClosingFor(pc: Pc, c: nat)
  {
    pc in {SessionDone(c, false), CloseWant(c), CloseCheck(c), ForgetWant(c), Forgetting(c), Clearing(c), CloseDone(c)}
  }

  /**
   A session that failed closes its connection, as a Close does: once the goroutine is done, the connection is
   closed, in every run and whatever other goroutines do in between.
   */
  lemma {:induction false} ClosingCloses(
    states: seq<State>, actions: seq<Action>, i: nat, j: nat, t: nat, c: nat)
    requires IsRun(states, actions) && i <= j < |states| && t < |states[i].threads| && t < |states[j].threads|
    requires ClosingFor(states[i].threads[t], c) && states[j].threads[t] == Idle
    ensures c in states[j].closed && c < |states[j].conns| && !states[j].conns[c].open
    decreases j - i
  {
    assert i < j;
    assert Next(states[i], actions[i], states[i + 1]);
    ClosingStep(states[i], actions[i], states[i + 1], t, c);
    if ClosingFor(states[i + 1].threads[t], c) {
      ClosingCloses(states, actions, i + 1, j, t, c);
    } else {
      ClosedStays(states, actions, i + 1, j, c);
      InvAt(states, actions, j);
    }
  }

  lemma ClosingStep(s: State, a: Action, s': State, t: nat, c: nat)
    requires Next(s, a, s') && t < |s.threads| && ClosingFor(s.threads[t], c)
    ensures t < |s'.threads| && (ClosingFor(s'.threads[t], c) || c in s'.closed)
  {
  }

  /** An Open that returns after a Close has returned never returns the closed connection. */
  lemma OpenNeverReturnsClosed(states: seq<State>, actions: seq<Action>, i: nat, j: nat, t: nat, c: nat)
    requires IsRun(states, actions) && i <= j < |states| && c in states[i].closed
    requires t < |states[j].threads|
    ensures states[j].threads[t].OpenDone? ==> states[j].threads[t].result != Some(c)
    ensures forall h | h in states[j].connections :: states[j].connections[h] != c
  {
    ClosedStays(states, actions, i, j, c);
    InvAt(states, actions, j);
    assert Progressing(states[j], states[j].threads[t]);
  }
}
