/**
 RunTaskOnNodes (pkg/state/task.go): one goroutine per node, two mutexes and a wait group, as
 interleaved steps; and the sequential mode.
 */
module TaskRunner {
  import opened Sequences
  import opened Strings

  /**
   Where a goroutine stands. A failing task first takes the errors lock, which its deferred unlock
   gives back only when the goroutine returns, after the wait group was told.
   */
  datatype Pc = Working | WantErrors | Appending | WantMutator | Mutating | Finishing | Returning | Exited

  function Rank(pc: Pc): nat
  {
    match pc
    case Working => 7
    case WantErrors => 6
    case Appending => 5
    case WantMutator => 4
    case Mutating => 3
    case Finishing => 2
    case Returning => 1
    case Exited => 0
  }

  /** `pcs` are the goroutines started so far; node `i` fails its task when `fails[i]`. */
  datatype Run = Run(
    pcs: seq<Pc>, errorsLock: Option<nat>, mutatorLock: Option<nat>, errors: seq<nat>, mutated: seq<nat>)

  predicate Done(pc: Pc)
  {
    pc == Returning || pc == Exited
  }

  predicate Enabled(r: Run, i: nat)
    requires i < |r.pcs|
  {
    match r.pcs[i]
    case WantErrors => r.errorsLock.None?
    case WantMutator => r.mutatorLock.None?
    case Exited => false
    case _ => true
  }

  function AfterTask(hasMutator: bool): Pc
  {
    if hasMutator then WantMutator else Finishing
  }

  /** One step of goroutine `i`. */
  function Step(r: Run, i: nat, fails: seq<bool>, hasMutator: bool): Run
    requires i < |r.pcs| <= |fails| && Enabled(r, i)
  {
    match r.pcs[i]
    case Working => r.(pcs := r.pcs[i := if fails[i] then WantErrors else AfterTask(hasMutator)])
    case WantErrors => r.(pcs := r.pcs[i := Appending], errorsLock := Some(i))
    case Appending => r.(pcs := r.pcs[i := AfterTask(hasMutator)], errors := r.errors + [i])
    case WantMutator => r.(pcs := r.pcs[i := Mutating], mutatorLock := Some(i))
    case Mutating => r.(pcs := r.pcs[i := Finishing], mutatorLock := None, mutated := r.mutated + [i])
    case Finishing => r.(pcs := r.pcs[i := Returning])
    case Returning =>
      r.(pcs := r.pcs[i := Exited], errorsLock := if r.errorsLock == Some(i) then None else r.errorsLock)
    case Exited => r
  }

  function Start(r: Run): Run
  {
    r.(pcs := r.pcs + [Working])
  }

  /** The goroutine has appended its error and still holds the errors lock. */
  predicate HoldsErrors(pc: Pc, failed: bool)
  {
    failed && pc in {Appending, WantMutator, Mutating, Finishing, Returning}
  }

  predicate PastErrors(pc: Pc)
  {
    Rank(pc) <= 4
  }

  predicate PastMutator(pc: Pc)
  {
    Rank(pc) <= 2
  }

  /** Each lock has the one holder its program counter says. */
  ghost predicate Locks(r: Run, fails: seq<bool>)
    requires |r.pcs| <= |fails|
  {
    && (forall i | 0 <= i < |r.pcs| :: HoldsErrors(r.pcs[i], fails[i]) <==> r.errorsLock == Some(i))
    && (forall i | 0 <= i < |r.pcs| :: r.pcs[i] == Mutating <==> r.mutatorLock == Some(i))
    && (r.errorsLock.Some? ==> r.errorsLock.value < |r.pcs|)
    && (r.mutatorLock.Some? ==> r.mutatorLock.value < |r.pcs|)
  }

  ghost predicate Routes(r: Run, fails: seq<bool>, hasMutator: bool)
    requires |r.pcs| <= |fails|
  {
    forall i | 0 <= i < |r.pcs| ::
      && (!fails[i] ==> r.pcs[i] != WantErrors && r.pcs[i] != Appending)
      && (!hasMutator ==> r.pcs[i] != WantMutator && r.pcs[i] != Mutating)
  }

  /** The error list holds the failing nodes that have passed it, the other list the mutated ones. */
  ghost predicate Lists(r: Run, fails: seq<bool>, hasMutator: bool)
    requires |r.pcs| <= |fails|
  {
    && Distinct(r.errors) && Distinct(r.mutated)
    && (forall i: nat :: i in r.errors <==> i < |r.pcs| && fails[i] && PastErrors(r.pcs[i]))
    && (forall i: nat :: i in r.mutated <==> i < |r.pcs| && hasMutator && PastMutator(r.pcs[i]))
  }

  ghost predicate Inv(r: Run, fails: seq<bool>, hasMutator: bool)
  {
    |r.pcs| <= |fails| && Locks(r, fails) && Routes(r, fails, hasMutator) && Lists(r, fails, hasMutator)
  }

  lemma StepKeepsLocks(r: Run, i: nat, fails: seq<bool>, hasMutator: bool)
    requires |r.pcs| <= |fails| && Locks(r, fails) && Routes(r, fails, hasMutator)
    requires i < |r.pcs| && Enabled(r, i)
    ensures Locks(Step(r, i, fails, hasMutator), fails)
    ensures Routes(Step(r, i, fails, hasMutator), fails, hasMutator)
  {
  }

  lemma StepKeepsLists(r: Run, i: nat, fails: seq<bool>, hasMutator: bool)
    requires |r.pcs| <= |fails| && Routes(r, fails, hasMutator) && Lists(r, fails, hasMutator)
    requires i < |r.pcs| && Enabled(r, i)
    ensures Lists(Step(r, i, fails, hasMutator), fails, hasMutator)
  {
    var next := Step(r, i, fails, hasMutator);
    forall k: nat ensures k in next.errors <==> k in r.errors || (k == i && r.pcs[i] == Appending) {}
    forall k: nat ensures k in next.mutated <==> k in r.mutated || (k == i && r.pcs[i] == Mutating) {}
  }

  lemma StepKeepsInv(r: Run, i: nat, fails: seq<bool>, hasMutator: bool)
    requires Inv(r, fails, hasMutator) && i < |r.pcs| && Enabled(r, i)
    ensures Inv(Step(r, i, fails, hasMutator), fails, hasMutator)
  {
    StepKeepsLocks(r, i, fails, hasMutator);
    StepKeepsLists(r, i, fails, hasMutator);
  }

  lemma StartKeepsInv(r: Run, fails: seq<bool>, hasMutator: bool)
    requires Inv(r, fails, hasMutator) && |r.pcs| < |fails|
    ensures Inv(Start(r), fails, hasMutator)
  {
  }

  /** Mutators never overlap. */
  lemma MutatorsExclude(r: Run, fails: seq<bool>, hasMutator: bool, i: nat, j: nat)
    requires Inv(r, fails, hasMutator) && i < |r.pcs| && j < |r.pcs|
    requires r.pcs[i] == Mutating && r.pcs[j] == Mutating
    ensures i == j
  {
    assert r.mutatorLock == Some(i);
    assert r.mutatorLock == Some(j);
  }

  /** No deadlock: while a goroutine has not told the wait group, some goroutine can move. */
  lemma SomeoneCanMove(r: Run, fails: seq<bool>, hasMutator: bool, i: nat) returns (j: nat)
    requires Inv(r, fails, hasMutator) && i < |r.pcs| && !Done(r.pcs[i])
    ensures j < |r.pcs| && Enabled(r, j)
  {
    j := i;
    if r.pcs[j] == WantErrors && r.errorsLock.Some? {
      j := r.errorsLock.value;
    }
    if r.pcs[j] == WantMutator && r.mutatorLock.Some? {
      j := r.mutatorLock.value;
    }
  }

  function StepsLeft(pcs: seq<Pc>): nat
  {
    if pcs == [] then 0 else Rank(pcs[0]) + StepsLeft(pcs[1..])
  }

  lemma {:induction false} StepsLeftUpdate(pcs: seq<Pc>, i: nat, pc: Pc)
    requires i < |pcs|
    ensures StepsLeft(pcs[i := pc]) == StepsLeft(pcs) - Rank(pcs[i]) + Rank(pc)
  {
    if i == 0 {
      assert pcs[i := pc][1..] == pcs[1..];
    } else {
      StepsLeftUpdate(pcs[1..], i - 1, pc);
      assert pcs[i := pc][1..] == pcs[1..][i - 1 := pc];
    }
  }

  /** The wait group's counter: the goroutines that have not called Done. */
  function Waiting(pcs: seq<Pc>): nat
  {
    if pcs == [] then 0 else (if Done(pcs[0]) then 0 else 1) + Waiting(pcs[1..])
  }

  lemma {:induction false} WaitingUpdate(pcs: seq<Pc>, i: nat, pc: Pc)
    requires i < |pcs|
    ensures Waiting(pcs[i := pc]) + (if Done(pcs[i]) then 0 else 1) == Waiting(pcs) + (if Done(pc) then 0 else 1)
  {
    if i == 0 {
      assert pcs[i := pc][1..] == pcs[1..];
    } else {
      WaitingUpdate(pcs[1..], i - 1, pc);
      assert pcs[i := pc][1..] == pcs[1..][i - 1 := pc];
    }
  }

  lemma {:induction false} WaitingAppend(pcs: seq<Pc>)
    ensures Waiting(pcs + [Working]) == Waiting(pcs) + 1
  {
    if pcs != [] {
      WaitingAppend(pcs[1..]);
      assert (pcs + [Working])[1..] == pcs[1..] + [Working];
    }
  }

  lemma {:induction false} NobodyWaiting(pcs: seq<Pc>) returns (i: nat)
    ensures Waiting(pcs) == 0 ==> forall j | 0 <= j < |pcs| :: Done(pcs[j])
    ensures Waiting(pcs) > 0 ==> i < |pcs| && !Done(pcs[i])
  {
    i := 0;
    if pcs != [] && Done(pcs[0]) {
      var k := NobodyWaiting(pcs[1..]);
      i := k + 1;
      if Waiting(pcs) == 0 {
        forall j | 0 <= j < |pcs| ensures Done(pcs[j]) {
          if j > 0 { assert pcs[j] == pcs[1..][j - 1]; }
        }
      }
    }
  }

  /** A step uses up steps, and only telling the wait group changes its counter. */
  lemma StepCounts(r: Run, i: nat, fails: seq<bool>, hasMutator: bool)
    requires i < |r.pcs| <= |fails| && Enabled(r, i)
    ensures var next := Step(r, i, fails, hasMutator);
            && |next.pcs| == |r.pcs| && StepsLeft(next.pcs) < StepsLeft(r.pcs)
            && Waiting(next.pcs) == Waiting(r.pcs) - (if r.pcs[i] == Finishing then 1 else 0)
  {
    var next := Step(r, i, fails, hasMutator);
    assert next.pcs == r.pcs[i := next.pcs[i]];
    StepsLeftUpdate(r.pcs, i, next.pcs[i]);
    WaitingUpdate(r.pcs, i, next.pcs[i]);
  }

  /** Any one enabled step: starting the next goroutine or moving one of those started. */
  method Advance(r: Run, fails: seq<bool>, hasMutator: bool, waitGroup: nat) returns (next: Run, left: nat)
    requires Inv(r, fails, hasMutator) && waitGroup == Waiting(r.pcs)
    requires |r.pcs| < |fails| || waitGroup > 0
    ensures Inv(next, fails, hasMutator) && left == Waiting(next.pcs)
    ensures |next.pcs| == |r.pcs| + 1 || (|next.pcs| == |r.pcs| && StepsLeft(next.pcs) < StepsLeft(r.pcs))
  {
    if waitGroup > 0 {
      ghost var i := NobodyWaiting(r.pcs);
      ghost var j := SomeoneCanMove(r, fails, hasMutator, i);
    }
    if {
      case |r.pcs| < |fails| =>
        StartKeepsInv(r, fails, hasMutator);
        WaitingAppend(r.pcs);
        next, left := Start(r), waitGroup + 1;
      case exists i :: 0 <= i < |r.pcs| && Enabled(r, i) =>
        var i :| 0 <= i < |r.pcs| && Enabled(r, i);
        StepKeepsInv(r, i, fails, hasMutator);
        StepCounts(r, i, fails, hasMutator);
        next := Step(r, i, fails, hasMutator);
        left := if r.pcs[i] == Finishing then waitGroup - 1 else waitGroup;
    }
  }

  /**
   Parallel mode. Whatever the interleaving, it ends, never gets stuck, and returns when the wait group
   is empty: the errors are those of the failing nodes, each once, and the mutator ran once for every
   node, failing or not.
   */
  method RunParallel(fails: seq<bool>, hasMutator: bool) returns (errors: seq<nat>, mutated: seq<nat>)
    ensures Distinct(errors) && forall i: nat :: i in errors <==> i < |fails| && fails[i]
    ensures Distinct(mutated) && forall i: nat :: i in mutated <==> hasMutator && i < |fails|
  {
    var r := Run([], None, None, [], []);
    var waitGroup := 0;
    while |r.pcs| < |fails| || waitGroup > 0
      invariant Inv(r, fails, hasMutator) && waitGroup == Waiting(r.pcs)
      decreases |fails| - |r.pcs|, StepsLeft(r.pcs)
    {
      r, waitGroup := Advance(r, fails, hasMutator, waitGroup);
    }
    ghost var _ := NobodyWaiting(r.pcs);
    return r.errors, r.mutated;
  }

  /** The node at which a sequential run stops: the first failing one, or the end. */
  function FirstFailure(fails: seq<bool>): (k: nat)
    ensures k <= |fails| && (k < |fails| ==> fails[k]) && forall i | 0 <= i < k :: !fails[i]
  {
    if fails == [] || fails[0] then 0 else 1 + FirstFailure(fails[1..])
  }

  function UpTo(n: nat): seq<nat>
  {
    seq(n, i => i)
  }

  /** Sequential mode: runs the nodes up to and including the first failure, mutates for those before it. */
  method RunSequentially(fails: seq<bool>, hasMutator: bool)
    returns (ran: seq<nat>, errors: seq<nat>, mutated: seq<nat>)
    ensures var k := FirstFailure(fails);
            && ran == UpTo(if k < |fails| then k + 1 else k)
            && errors == (if k < |fails| then [k] else [])
            && mutated == (if hasMutator then UpTo(k) else [])
  {
    ran, errors, mutated := [], [], [];
    for i := 0 to |fails|
      invariant forall j | 0 <= j < i :: !fails[j]
      invariant ran == UpTo(i) && errors == [] && mutated == if hasMutator then UpTo(i) else []
    {
      ran := ran + [i];
      if fails[i] {
        errors := [i];
        FirstFailureAt(fails, i);
        return;
      }
      if hasMutator {
        mutated := mutated + [i];
      }
    }
    FirstFailureAt(fails, |fails|);
  }

  lemma {:induction false} FirstFailureAt(fails: seq<bool>, k: nat)
    requires k <= |fails| && (k < |fails| ==> fails[k]) && forall i | 0 <= i < k :: !fails[i]
    ensures FirstFailure(fails) == k
  {
  }
}
