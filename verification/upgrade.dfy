/**
 The rolling upgrade: the preflight version checks (pkg/tasks/preflight_checks.go), the order of the
 upgrade's tasks (pkg/tasks/tasks.go) and the leader election that decides which control plane hosts
 they cover (pkg/tasks/probes.go, pkg/apis/kubeone/helpers.go).
 */
module Upgrade {
  import opened MachineInts
  import opened Sequences
  import opened Strings
  import opened Versions

  datatype SkewError = SameVersion | LowerVersion | TooFar

  /** checkVersionSkew, with the conversions to int64 and the uint64 subtraction of the source. */
  function CheckVersionSkew(req: Version, cur: Version, diff: nat): Option<SkewError>
  {
    if cur == req then Some(SameVersion)
    else if Wrap64(AsInt64(req.minor) - AsInt64(cur.minor)) < 0 || (req.minor == cur.minor && req.patch < cur.patch)
    then Some(LowerVersion)
    else if (req.minor - cur.minor) % TWO64 > diff then Some(TooFar)
    else None
  }

  /** A newer patch of the same minor, or at most `diff` minors up; the major does not enter. */
  predicate WithinSkew(req: Version, cur: Version, diff: nat)
  {
    && cur != req && cur.minor <= req.minor <= cur.minor + diff
    && (req.minor == cur.minor ==> cur.patch <= req.patch)
  }

  /** The difference of the minors is negative, but small once it has wrapped around. */
  predicate Wraps(req: Version, cur: Version, diff: nat)
  {
    req.minor < cur.minor && req.minor + TWO64 - cur.minor <= diff
  }

  /** checkVersionSkew accepts exactly the versions within the skew and the ones that wrap around to it. */
  lemma SkewExactly(req: Version, cur: Version, diff: nat)
    requires Uint64(req.minor) && Uint64(cur.minor) && diff < TWO63
    ensures CheckVersionSkew(req, cur, diff).None? <==> WithinSkew(req, cur, diff) || Wraps(req, cur, diff)
  {
    var d := req.minor - cur.minor;
    if d >= 0 {
      assert d % TWO64 == d;
      DifferenceSign(req.minor, cur.minor);
    } else {
      assert d % TWO64 == d + TWO64;
      DifferenceSign(req.minor, cur.minor);
    }
  }

  /** What it is for: a later version of the same major, at most `diff` minors up. */
  predicate IsUpgrade(req: Version, cur: Version, diff: nat)
  {
    req.major == cur.major && Before(cur, req) && req.minor <= cur.minor + diff
  }

  /**
   checkVersionSkew never compares majors. It agrees with its purpose exactly where the majors are the
   same, or differ with minors out of range anyway, and no difference wraps around.
   */
  lemma MajorsExactly(req: Version, cur: Version, diff: nat)
    requires Uint64(req.minor) && Uint64(cur.minor) && diff < TWO63
    ensures (CheckVersionSkew(req, cur, diff).None? <==> IsUpgrade(req, cur, diff)) <==>
            (req.major == cur.major || !WithinSkew(req, cur, diff)) && !Wraps(req, cur, diff)
  {
    SkewExactly(req, cur, diff);
  }

  /** A jump to another major passes as one minor up. */
  lemma MajorJumpAccepted()
    ensures CheckVersionSkew(Version(2, 31, 0), Version(1, 30, 5), 1).None?
    ensures !IsUpgrade(Version(2, 31, 0), Version(1, 30, 5), 1)
  {
    SkewExactly(Version(2, 31, 0), Version(1, 30, 5), 1);
  }

  lemma DifferenceSign(a: int, b: int)
    requires Uint64(a) && Uint64(b)
    ensures Wrap64(AsInt64(a) - AsInt64(b)) == AsInt64((a - b) % TWO64)
  {
    var x := AsInt64(a) - AsInt64(b);
    var d := a - b;
    assert d % TWO64 == if d >= 0 then d else d + TWO64;
    if -TWO63 <= x < TWO63 {
      assert (x + TWO63) % TWO64 == x + TWO63;
    } else if x >= TWO63 {
      assert (x + TWO63) % TWO64 == x + TWO63 - TWO64;
    } else {
      assert (x + TWO63) % TWO64 == x + TWO63 + TWO64;
    }
  }

  // ----- preflight -----

  /** The control plane: each host's apiserver and kubelet. */
  datatype Cluster = Cluster(apiservers: seq<Version>, kubelets: seq<Version>)

  predicate Shaped(c: Cluster)
  {
    |c.apiservers| == |c.kubelets| > 0
  }

  datatype Verdict = Passed | Refused(canForce: bool)

  /** The skew conditions on the running apiservers and kubelets. */
  predicate SkewPasses(req: Version, c: Cluster)
    requires Shaped(c)
  {
    && (forall i | 0 <= i < |c.apiservers| :: c.apiservers[i] == c.apiservers[0])
    && CheckVersionSkew(req, c.apiservers[0], 1).None?
    && forall i | 0 <= i < |c.kubelets| ::
         CheckVersionSkew(req, c.kubelets[i], 2).None? && c.kubelets[i].minor <= c.apiservers[0].minor
  }

  predicate PreflightPasses(req: Version, c: Cluster)
    requires Shaped(c)
  {
    Before(c.kubelets[0], req) && SkewPasses(req, c)
  }

  /** What preflight lets through: with force, everything but a version lower than the first kubelet's. */
  predicate Admitted(req: Version, c: Cluster, force: bool)
    requires Shaped(c)
  {
    if force then !Before(req, c.kubelets[0]) else PreflightPasses(req, c)
  }

  /** verifyVersion */
  method VerifyVersion(req: Version, kubelet: Version, force: bool) returns (ok: bool)
    ensures ok <==> Before(kubelet, req) || (force && kubelet == req)
  {
    if Before(req, kubelet) {
      return false;
    }
    if req == kubelet {
      return force;
    }
    return true;
  }

  /** verifyVersionSkew: whether the versions are within the skew; every version error can be forced. */
  method VerifyVersionSkew(req: Version, c: Cluster) returns (ok: bool)
    requires Shaped(c)
    ensures ok <==> SkewPasses(req, c)
  {
    var apiserver := c.apiservers[0];
    for i := 0 to |c.apiservers|
      invariant forall j | 0 <= j < i :: c.apiservers[j] == apiserver
    {
      if c.apiservers[i] != apiserver {
        return false;
      }
    }
    if CheckVersionSkew(req, apiserver, 1).Some? {
      return false;
    }
    for i := 0 to |c.kubelets|
      invariant forall j | 0 <= j < i ::
        CheckVersionSkew(req, c.kubelets[j], 2).None? && c.kubelets[j].minor <= apiserver.minor
    {
      if CheckVersionSkew(req, c.kubelets[i], 2).Some? || c.kubelets[i].minor > apiserver.minor {
        return false;
      }
    }
    return true;
  }

  /** The version part of runPreflightChecks. */
  method RunPreflight(req: Version, c: Cluster, force: bool) returns (v: Verdict)
    requires Shaped(c)
    ensures v == Passed <==> Admitted(req, c, force)
    ensures v.Refused? ==> (v.canForce <==> !Before(req, c.kubelets[0]))
  {
    var newer := VerifyVersion(req, c.kubelets[0], force);
    if !newer {
      return Refused(req == c.kubelets[0]);
    }
    var within := VerifyVersionSkew(req, c);
    if !within && !force {
      return Refused(true);
    }
    return Passed;
  }

  /** All versions are of the requested major, with minors that a signed 64-bit integer holds. */
  ghost predicate OneMajor(req: Version, c: Cluster)
  {
    && req.minor < TWO63
    && (forall v | v in c.apiservers :: v.major == req.major && v.minor < TWO63)
    && (forall v | v in c.kubelets :: v.major == req.major && v.minor < TWO63)
  }

  /** Within one major, `cur` is an earlier release than `req`, by its numbers. */
  predicate Earlier(cur: Version, req: Version)
  {
    cur.minor < req.minor || (cur.minor == req.minor && cur.patch < req.patch)
  }

  /**
   The verdict in numbers. Without force: all apiservers run one version that is earlier than the requested
   one and at most one minor behind it, and every kubelet is earlier, at most two minors behind and of no
   later minor than the apiservers. With force: the requested version is not earlier than the first kubelet's.
   */
  lemma VerdictInNumbers(req: Version, c: Cluster, force: bool)
    requires Shaped(c) && OneMajor(req, c)
    ensures !force ==>
              (Admitted(req, c, force) <==>
                 exists a: Version ::
                   && (forall v | v in c.apiservers :: v == a) && Earlier(a, req) && req.minor <= a.minor + 1
                   && (forall k | k in c.kubelets :: Earlier(k, req) && k.minor <= a.minor && req.minor <= k.minor + 2))
    ensures force ==> (Admitted(req, c, force) <==> !Earlier(req, c.kubelets[0]))
  {
    var a := c.apiservers[0];
    assert a in c.apiservers && c.kubelets[0] in c.kubelets;
    SkewInNumbers(req, a, 1);
    forall k | k in c.kubelets
      ensures CheckVersionSkew(req, k, 2).None? <==> Earlier(k, req) && req.minor <= k.minor + 2
    {
      SkewInNumbers(req, k, 2);
    }
    if !force {
      AgreementInNumbers(req, c);
    }
  }

  lemma SkewInNumbers(req: Version, cur: Version, diff: nat)
    requires req.minor < TWO63 && cur.minor < TWO63 && diff < TWO63 && cur.major == req.major
    ensures CheckVersionSkew(req, cur, diff).None? <==> Earlier(cur, req) && req.minor <= cur.minor + diff
  {
    SkewExactly(req, cur, diff);
  }

  lemma AgreementInNumbers(req: Version, c: Cluster)
    requires Shaped(c) && c.kubelets[0].major == req.major
    requires CheckVersionSkew(req, c.apiservers[0], 1).None? <==>
             Earlier(c.apiservers[0], req) && req.minor <= c.apiservers[0].minor + 1
    requires forall k | k in c.kubelets ::
               CheckVersionSkew(req, k, 2).None? <==> Earlier(k, req) && req.minor <= k.minor + 2
    ensures PreflightPasses(req, c) <==>
            exists a: Version ::
              && (forall v | v in c.apiservers :: v == a) && Earlier(a, req) && req.minor <= a.minor + 1
              && (forall k | k in c.kubelets :: Earlier(k, req) && k.minor <= a.minor && req.minor <= k.minor + 2)
  {
    assert c.apiservers[0] in c.apiservers && c.kubelets[0] in c.kubelets;
    if PreflightPasses(req, c) {
      var a := c.apiservers[0];
      assert forall v | v in c.apiservers :: v == a;
      forall k | k in c.kubelets ensures Earlier(k, req) && k.minor <= a.minor && req.minor <= k.minor + 2 {
        var i :| 0 <= i < |c.kubelets| && c.kubelets[i] == k;
      }
    }
    if a: Version :|
       && (forall v | v in c.apiservers :: v == a) && Earlier(a, req) && req.minor <= a.minor + 1
       && (forall k | k in c.kubelets :: Earlier(k, req) && k.minor <= a.minor && req.minor <= k.minor + 2) {
      assert forall i | 0 <= i < |c.apiservers| :: c.apiservers[i] in c.apiservers;
      assert forall i | 0 <= i < |c.kubelets| :: c.kubelets[i] in c.kubelets;
    }
  }

  // ----- tasks -----

  /** A task of the upgrade; `Neutral` ones change no component version. */
  datatype Task =
    | Neutral(operation: string)
    | Preflight
    | UpgradeLeader
    | UpgradeFollower(host: nat)
    | UpdateAllKubelets

  predicate UpgradesApiserver(t: Task)
  {
    t.UpgradeLeader? || t.UpgradeFollower?
  }

  function HostOf(t: Task, leader: nat): nat
    requires UpgradesApiserver(t)
  {
    if t.UpgradeLeader? then leader else t.host
  }

  function FollowerTasks(followers: seq<nat>): seq<Task>
  {
    seq(|followers|, i requires 0 <= i < |followers| => UpgradeFollower(followers[i]))
  }

  const BEFORE_UPGRADE: seq<Task> := [
    Neutral("detecting hostname"), Neutral("detecting OS"), Neutral("running probes"), Neutral("checking safeguards"),
    Neutral("generating kubeadm config"), Neutral("generating config files"), Neutral("uploading config files"),
    Neutral("building kubernetes clientset"), Neutral("updating kubeadm configmaps")]

  const AFTER_CONTROL_PLANE: seq<Task> := [
    Neutral("downloading Kubernetes PKI from the leader"), Neutral("resources"),
    Neutral("restarting unhealthy kube-apiserver"), Neutral("upgrading static worker nodes")]

  const AFTER_KUBELETS: seq<Task> := [
    Neutral("migrating PVCs"), Neutral("deleting unused container images"), Neutral("cleanup /etc/kubernetes/tmp")]

  function WithUpgrade(followers: seq<nat>): seq<Task>
  {
    BEFORE_UPGRADE + [Preflight, UpgradeLeader] + FollowerTasks(followers)
    + AFTER_CONTROL_PLANE + [UpdateAllKubelets] + AFTER_KUBELETS
  }

  /** The hosts whose apiserver the tasks upgrade, in that order. */
  function Order(tasks: seq<Task>, leader: nat): seq<nat>
  {
    if tasks == [] then []
    else
      var n := |tasks| - 1;
      Order(tasks[..n], leader) + if UpgradesApiserver(tasks[n]) then [HostOf(tasks[n], leader)] else []
  }

  lemma OrderSnoc(tasks: seq<Task>, t: Task, leader: nat)
    ensures Order(tasks + [t], leader) ==
            Order(tasks, leader) + if UpgradesApiserver(t) then [HostOf(t, leader)] else []
  {
    assert (tasks + [t])[..|tasks|] == tasks;
  }

  lemma {:induction false} OrderConcat(a: seq<Task>, b: seq<Task>, leader: nat)
    ensures Order(a + b, leader) == Order(a, leader) + Order(b, leader)
    decreases |b|
  {
    if b == [] {
      assert a + b == a;
    } else {
      var n := |b| - 1;
      assert a + b == (a + b[..n]) + [b[n]];
      OrderSnoc(a + b[..n], b[n], leader);
      OrderConcat(a, b[..n], leader);
    }
  }

  lemma OrderPrefix(tasks: seq<Task>, n: nat, leader: nat)
    requires n <= |tasks|
    ensures Order(tasks[..n], leader) <= Order(tasks, leader)
  {
    assert tasks == tasks[..n] + tasks[n..];
    OrderConcat(tasks[..n], tasks[n..], leader);
  }

  lemma {:induction false} OrderOfOthers(tasks: seq<Task>, leader: nat)
    requires forall t | t in tasks :: !UpgradesApiserver(t)
    ensures Order(tasks, leader) == []
  {
    if tasks != [] {
      assert tasks[|tasks| - 1] in tasks;
      OrderOfOthers(tasks[..|tasks| - 1], leader);
    }
  }

  lemma {:induction false} OrderOfFollowers(followers: seq<nat>, leader: nat)
    ensures Order(FollowerTasks(followers), leader) == followers
  {
    if followers != [] {
      var n := |followers| - 1;
      OrderOfFollowers(followers[..n], leader);
      assert FollowerTasks(followers)[..n] == FollowerTasks(followers[..n]);
    }
  }

  /** Apiservers are upgraded only after the preflight check, kubelets only after all those apiservers. */
  ghost predicate WellOrdered(tasks: seq<Task>, leader: nat)
  {
    && (forall k | 0 <= k < |tasks| && UpgradesApiserver(tasks[k]) :: Preflight in tasks[..k])
    && (forall k | 0 <= k < |tasks| && tasks[k] == UpdateAllKubelets ::
          Preflight in tasks[..k] && Order(tasks[..k], leader) == Order(tasks, leader))
  }

  ghost predicate AllNeutral(tasks: seq<Task>)
  {
    forall t | t in tasks :: t.Neutral?
  }

  /** The leader's apiserver comes first, then those of the followers, in their order. */
  lemma UpgradeIsWellOrdered(followers: seq<nat>, leader: nat)
    ensures WellOrdered(WithUpgrade(followers), leader)
    ensures Order(WithUpgrade(followers), leader) == [leader] + followers
    ensures Preflight in WithUpgrade(followers) && UpdateAllKubelets in WithUpgrade(followers)
  {
    var f := FollowerTasks(followers);
    OrderOfFollowers(followers, leader);
    OrderedList(BEFORE_UPGRADE, f, AFTER_CONTROL_PLANE, AFTER_KUBELETS, leader);
  }

  lemma OrderOfHead(a: seq<Task>, leader: nat)
    requires AllNeutral(a)
    ensures Order(a + [Preflight, UpgradeLeader], leader) == [leader]
  {
    OrderOfOthers(a, leader);
    OrderSnoc(a, Preflight, leader);
    OrderSnoc(a + [Preflight], UpgradeLeader, leader);
    assert a + [Preflight, UpgradeLeader] == (a + [Preflight]) + [UpgradeLeader];
  }

  /** The order of a task list of this shape, as far as the kubelets and as a whole. */
  lemma OrderOfParts(head: seq<Task>, f: seq<Task>, b: seq<Task>, c: seq<Task>, leader: nat)
    requires AllNeutral(b) && AllNeutral(c)
    ensures Order(head + f + b, leader) == Order(head, leader) + Order(f, leader)
    ensures Order(head + f + b + [UpdateAllKubelets] + c, leader) == Order(head, leader) + Order(f, leader)
  {
    OrderConcat(head, f, leader);
    OrderOfOthers(b, leader);
    OrderConcat(head + f, b, leader);
    OrderSnoc(head + f + b, UpdateAllKubelets, leader);
    OrderOfOthers(c, leader);
    OrderConcat(head + f + b + [UpdateAllKubelets], c, leader);
  }

  /** What stands where in a task list of this shape. */
  lemma TaskAt(a: seq<Task>, f: seq<Task>, b: seq<Task>, c: seq<Task>, k: nat)
    requires AllNeutral(a) && AllNeutral(b) && AllNeutral(c) && forall t | t in f :: t.UpgradeFollower?
    requires k < |a| + 2 + |f| + |b| + 1 + |c|
    ensures var t, u := (a + [Preflight, UpgradeLeader] + f + b + [UpdateAllKubelets] + c)[k], |a| + 2 + |f| + |b|;
            && (UpgradesApiserver(t) ==> |a| < k) && (t == UpdateAllKubelets <==> k == u)
            && (k == |a| ==> t == Preflight)
  {
    var tasks := a + [Preflight, UpgradeLeader] + f + b + [UpdateAllKubelets] + c;
    var u := |a| + 2 + |f| + |b|;
    if k < |a| {
      assert tasks[k] == a[k] && a[k] in a;
    } else if |a| + 2 <= k < |a| + 2 + |f| {
      assert tasks[k] == f[k - |a| - 2] && tasks[k] in f;
    } else if |a| + 2 + |f| <= k < u {
      assert tasks[k] == b[k - |a| - 2 - |f|] && tasks[k] in b;
    } else if k > u {
      assert tasks[k] == c[k - u - 1] && tasks[k] in c;
    }
  }

  lemma OrderedList(a: seq<Task>, f: seq<Task>, b: seq<Task>, c: seq<Task>, leader: nat)
    requires AllNeutral(a) && AllNeutral(b) && AllNeutral(c) && forall t | t in f :: t.UpgradeFollower?
    ensures var tasks := a + [Preflight, UpgradeLeader] + f + b + [UpdateAllKubelets] + c;
            && WellOrdered(tasks, leader) && Order(tasks, leader) == [leader] + Order(f, leader)
            && Preflight in tasks && UpdateAllKubelets in tasks
  {
    var head := a + [Preflight, UpgradeLeader];
    var tasks := head + f + b + [UpdateAllKubelets] + c;
    var u := |a| + 2 + |f| + |b|;
    OrderOfHead(a, leader);
    OrderOfParts(head, f, b, c, leader);
    assert tasks[..u] == head + f + b;
    TaskAt(a, f, b, c, |a|);
    TaskAt(a, f, b, c, u);
    forall k | 0 <= k < |tasks|
      ensures UpgradesApiserver(tasks[k]) ==> Preflight in tasks[..k]
      ensures tasks[k] == UpdateAllKubelets ==> Preflight in tasks[..k] && k == u
    {
      TaskAt(a, f, b, c, k);
      if k > |a| { assert tasks[..k][|a|] == Preflight; }
    }
  }

  // ----- running -----

  function Upgraded(c: Cluster, req: Version, apis: set<nat>, kubes: set<nat>): Cluster
  {
    Cluster(seq(|c.apiservers|, i requires 0 <= i < |c.apiservers| => if i in apis then req else c.apiservers[i]),
            seq(|c.kubelets|, i requires 0 <= i < |c.kubelets| => if i in kubes then req else c.kubelets[i]))
  }

  /** The hosts of a control plane of size `n`. */
  function AllHosts(n: nat): (hosts: set<nat>)
    ensures forall i: nat :: i in hosts <==> i < n
  {
    if n == 0 then {} else AllHosts(n - 1) + {n - 1}
  }

  /** The first `k` apiservers of the order are upgraded, and the kubelets of the first `m` hosts. */
  function Stop(c0: Cluster, req: Version, order: seq<nat>, k: nat, m: nat): Cluster
    requires k <= |order|
  {
    Upgraded(c0, req, Members(order[..k]), AllHosts(m))
  }

  /** Kubelets are upgraded only once all apiservers of the order are. */
  predicate CanStop(c0: Cluster, order: seq<nat>, k: nat, m: nat)
  {
    k <= |order| && m <= |c0.kubelets| && (m > 0 ==> k == |order|)
  }

  /** The states an upgrade may pass through or be left in. */
  ghost predicate IsStop(c0: Cluster, c: Cluster, req: Version, order: seq<nat>)
  {
    exists k: nat, m: nat :: CanStop(c0, order, k, m) && c == Stop(c0, req, order, k, m)
  }

  lemma StartIsStop(c0: Cluster, req: Version, order: seq<nat>)
    ensures c0 == Stop(c0, req, order, 0, 0) && IsStop(c0, c0, req, order)
  {
    assert CanStop(c0, order, 0, 0);
    assert c0 == Stop(c0, req, order, 0, 0);
  }

  class Upgrader {
    var cluster: Cluster
    ghost var history: seq<Cluster>  // every state the cluster has been in

    constructor (c: Cluster)
      ensures cluster == c && history == [c]
    {
      cluster := c;
      history := [c];
    }

    ghost predicate Recorded(c0: Cluster, req: Version, order: seq<nat>, k: nat, m: nat)
      reads this
    {
      && CanStop(c0, order, k, m) && cluster == Stop(c0, req, order, k, m)
      && forall c | c in history :: IsStop(c0, c, req, order)
    }

    method SetApiserver(i: nat, v: Version)
      requires i < |cluster.apiservers|
      modifies this
      ensures cluster == old(cluster).(apiservers := old(cluster).apiservers[i := v])
      ensures history == old(history) + [cluster]
    {
      cluster := cluster.(apiservers := cluster.apiservers[i := v]);
      history := history + [cluster];
    }

    method SetKubelet(i: nat, v: Version)
      requires i < |cluster.kubelets|
      modifies this
      ensures cluster == old(cluster).(kubelets := old(cluster).kubelets[i := v])
      ensures history == old(history) + [cluster]
    {
      cluster := cluster.(kubelets := cluster.kubelets[i := v]);
      history := history + [cluster];
    }

    /**
     One attempt to upgrade the control plane of the next host; it may fail before or after it took effect,
     and an earlier attempt may have taken effect already.
     */
    method TryApiserver(
      host: nat, req: Version, ghost c0: Cluster, ghost order: seq<nat>, ghost k: nat, ghost was: nat)
      returns (ok: bool, ghost now: nat)
      requires k < |order| && order[k] == host && host < |c0.apiservers| && k <= was <= k + 1
      requires Recorded(c0, req, order, was, 0)
      modifies this
      ensures Recorded(c0, req, order, now, 0) && was <= now <= k + 1 && (ok ==> now == k + 1)
    {
      now := was;
      if * { return false, was; }
      SetApiserver(host, req);
      now := k + 1;
      assert order[..k + 1] == order[..k] + [host];
      assert cluster == Stop(c0, req, order, k + 1, 0);
      assert CanStop(c0, order, k + 1, 0);
      if * { return false, now; }
      return true, now;
    }

    /** One attempt at all kubelets, host by host, stopping at the first failure. */
    method TryKubelets(req: Version, ghost c0: Cluster, ghost order: seq<nat>, ghost m: nat)
      returns (ok: bool, ghost now: nat)
      requires Recorded(c0, req, order, |order|, m)
      modifies this
      ensures Recorded(c0, req, order, |order|, now) && m <= now && (ok ==> now == |c0.kubelets|)
    {
      now := m;
      for i := 0 to |cluster.kubelets|
        invariant Recorded(c0, req, order, |order|, now) && m <= now && i <= now
      {
        if * { return false, now; }
        SetKubelet(i, req);
        now := if now < i + 1 then i + 1 else now;
        assert cluster == Stop(c0, req, order, |order|, now);
        assert CanStop(c0, order, |order|, now);
        if * { return false, now; }
      }
      return true, now;
    }

    /** A task is attempted up to ten times, the preflight check once; it fails only after the last attempt. */
    method RunTask(t: Task, req: Version, leader: nat, force: bool,
                   ghost c0: Cluster, ghost order: seq<nat>, ghost k: nat, ghost m: nat)
      returns (ok: bool, attempts: nat, ghost nowK: nat, ghost nowM: nat)
      requires Shaped(c0) && Recorded(c0, req, order, k, m)
      requires UpgradesApiserver(t) ==> k < |order| && order[k] == HostOf(t, leader) < |c0.apiservers|
      requires t == UpdateAllKubelets ==> k == |order|
      modifies this
      ensures Recorded(c0, req, order, nowK, nowM)
      ensures UpgradesApiserver(t) ==> k <= nowK <= k + 1 && (ok ==> nowK == k + 1)
      ensures !UpgradesApiserver(t) ==> nowK == k
      ensures t != UpdateAllKubelets ==> nowM == m
      ensures ok && t == UpdateAllKubelets ==> nowM == |c0.kubelets|
      ensures t == Preflight || t.Neutral? ==> cluster == old(cluster) && history == old(history)
      ensures t == Preflight && ok ==> Admitted(req, cluster, force)
      ensures 1 <= attempts <= (if t == Preflight then 1 else 10)
      ensures !ok ==> attempts == if t == Preflight then 1 else 10
    {
      ok, attempts, nowK, nowM := false, 0, k, m;
      if t == Preflight {
        var v := RunPreflight(req, cluster, force);
        ok, attempts := v == Passed, 1;
        return;
      }
      while attempts < 10
        invariant attempts <= 10 && !ok && Recorded(c0, req, order, nowK, nowM)
        invariant if UpgradesApiserver(t) then k <= nowK <= k + 1 else nowK == k
        invariant t != UpdateAllKubelets ==> nowM == m
        invariant t.Neutral? ==> cluster == old(cluster) && history == old(history)
      {
        attempts := attempts + 1;
        if UpgradesApiserver(t) {
          ok, nowK := TryApiserver(HostOf(t, leader), req, c0, order, k, nowK);
        } else if t == UpdateAllKubelets {
          ok, nowM := TryKubelets(req, c0, order, nowM);
        } else if * {
          ok := true;
        }
        if ok { return; }
      }
    }

    /** The first `n` tasks have succeeded. */
    ghost predicate Through(
      tasks: seq<Task>, n: nat, req: Version, leader: nat, force: bool, c0: Cluster, k: nat, m: nat, passed: bool)
      requires n <= |tasks| && Shaped(c0)
      reads this
    {
      && Recorded(c0, req, Order(tasks, leader), k, m) && k == |Order(tasks[..n], leader)|
      && (passed <==> Preflight in tasks[..n])
      && (if passed then Admitted(req, c0, force) else cluster == c0 && history == [c0])
      && (UpdateAllKubelets in tasks[..n] ==> m == |c0.kubelets|)
    }

    method RunNth(tasks: seq<Task>, n: nat, req: Version, leader: nat, force: bool, passed: bool,
                  ghost c0: Cluster, ghost k: nat, ghost m: nat)
      returns (ok: bool, ghost nowK: nat, ghost nowM: nat)
      requires n < |tasks| && Shaped(c0) && WellOrdered(tasks, leader)
      requires Through(tasks, n, req, leader, force, c0, k, m, passed)
      requires forall h | h in Order(tasks, leader) :: h < |c0.apiservers|
      modifies this
      ensures ok ==> Through(tasks, n + 1, req, leader, force, c0, nowK, nowM, passed || tasks[n] == Preflight)
      ensures Recorded(c0, req, Order(tasks, leader), nowK, nowM)
      ensures !ok && !passed ==> cluster == c0 && history == [c0]
    {
      var t := tasks[n];
      ghost var order := Order(tasks, leader);
      assert tasks[..n + 1] == tasks[..n] + [t];
      OrderSnoc(tasks[..n], t, leader);
      OrderPrefix(tasks, n + 1, leader);
      if UpgradesApiserver(t) {
        assert Order(tasks[..n + 1], leader)[k] == HostOf(t, leader);
        assert order[k] in order;
      }
      var attempts;
      ok, attempts, nowK, nowM := RunTask(t, req, leader, force, c0, order, k, m);
    }

    /**
     Runs the tasks in order and stops at the first one that fails for good. Before the preflight check
     has passed nothing changes; afterwards every state is a stop.
     */
    method Run(tasks: seq<Task>, req: Version, leader: nat, force: bool) returns (ok: bool, passed: bool)
      requires Shaped(cluster) && history == [cluster] && WellOrdered(tasks, leader)
      requires forall h | h in Order(tasks, leader) :: h < |cluster.apiservers|
      modifies this
      ensures forall c | c in history :: IsStop(old(cluster), c, req, Order(tasks, leader))
      ensures passed ==> Admitted(req, old(cluster), force)
      ensures !passed ==> cluster == old(cluster) && history == [cluster]
      ensures ok && Preflight in tasks ==> passed
      ensures ok && UpdateAllKubelets in tasks ==>
                var order := Order(tasks, leader);
                cluster == Stop(old(cluster), req, order, |order|, |old(cluster).kubelets|)
    {
      ghost var c0 := cluster;
      ghost var k: nat, m: nat := 0, 0;
      passed := false;
      StartIsStop(c0, req, Order(tasks, leader));
      for n := 0 to |tasks|
        invariant Through(tasks, n, req, leader, force, c0, k, m, passed)
      {
        ok, k, m := RunNth(tasks, n, req, leader, force, passed, c0, k, m);
        if !ok {
          return;
        }
        passed := passed || tasks[n] == Preflight;
      }
      assert tasks[..|tasks|] == tasks;
      ok := true;
    }
  }

  // ----- leader election -----

  /** investigateCluster: the first host with a healthy apiserver leads. */
  function Elect(healthy: seq<bool>): (leader: Option<nat>)
    ensures leader.Some? ==> leader.value < |healthy| && healthy[leader.value]
    ensures leader.Some? ==> forall i | 0 <= i < leader.value :: !healthy[i]
    ensures leader.None? ==> forall i | 0 <= i < |healthy| :: !healthy[i]
  {
    if healthy == [] then None
    else if healthy[0] then Some(0)
    else
      match Elect(healthy[1..])
      case None => None
      case Some(i) => Some(i + 1)
  }

  /** Followers: every host but the leader, in order. */
  method Followers(n: nat, leader: nat) returns (followers: seq<nat>)
    ensures forall h: nat :: h in followers <==> h < n && h != leader
    ensures forall i, j | 0 <= i < j < |followers| :: followers[i] < followers[j]
  {
    followers := [];
    for i := 0 to n
      invariant forall h: nat :: h in followers <==> h < i && h != leader
      invariant forall j | 0 <= j < |followers| :: followers[j] < i
      invariant forall j, k | 0 <= j < k < |followers| :: followers[j] < followers[k]
    {
      if i != leader {
        followers := followers + [i];
      }
    }
  }

  // ----- the version skew policy -----

  /** Kubernetes version skew policy, "Supported version skew", for a control plane. */
  ghost predicate SkewPolicy(c: Cluster)
  {
    && (forall i, j | 0 <= i < |c.apiservers| && 0 <= j < |c.apiservers| ::
          c.apiservers[i].minor <= c.apiservers[j].minor + 1)
    && (forall i, j | 0 <= i < |c.kubelets| && 0 <= j < |c.apiservers| ::
          c.kubelets[i].minor <= c.apiservers[j].minor <= c.kubelets[i].minor + 2)
  }

  ghost predicate Plausible(req: Version, c: Cluster)
  {
    && req.minor < TWO63 && (forall v | v in c.apiservers :: v.minor < TWO63)
    && forall v | v in c.kubelets :: v.minor < TWO63
  }

  lemma PreflightBounds(req: Version, c: Cluster)
    requires Shaped(c) && Plausible(req, c) && PreflightPasses(req, c)
    ensures c.apiservers[0].minor <= req.minor <= c.apiservers[0].minor + 1
    ensures forall i | 0 <= i < |c.apiservers| :: c.apiservers[i] == c.apiservers[0]
    ensures forall i | 0 <= i < |c.kubelets| ::
              c.kubelets[i].minor <= c.apiservers[0].minor && req.minor <= c.kubelets[i].minor + 2
  {
    assert c.apiservers[0] in c.apiservers;
    SkewExactly(req, c.apiservers[0], 1);
    forall i | 0 <= i < |c.kubelets|
      ensures c.kubelets[i].minor <= c.apiservers[0].minor && req.minor <= c.kubelets[i].minor + 2
    {
      assert c.kubelets[i] in c.kubelets;
      SkewExactly(req, c.kubelets[i], 2);
    }
  }

  /** The order names every control plane host. */
  ghost predicate CoversAll(c: Cluster, order: seq<nat>)
  {
    forall i: nat | i < |c.apiservers| :: i in order
  }

  /** In every state of an upgrade that covers all hosts, the skew policy holds. */
  lemma StopKeepsSkew(req: Version, c0: Cluster, c: Cluster, order: seq<nat>)
    requires Shaped(c0) && Plausible(req, c0) && PreflightPasses(req, c0) && IsStop(c0, c, req, order)
    requires CoversAll(c0, order) || req.minor == c0.apiservers[0].minor
    ensures SkewPolicy(c)
  {
    PreflightBounds(req, c0);
    var k: nat, m: nat :| CanStop(c0, order, k, m) && c == Stop(c0, req, order, k, m);
    if m > 0 {
      assert order[..k] == order;
    }
  }

  /**
   The policy holds in every state the upgrade may pass through or stop in if and only if the tasks
   cover every control plane host or the minor version does not change.
   */
  lemma SkewSafeExactly(req: Version, c0: Cluster, order: seq<nat>)
    requires Shaped(c0) && Plausible(req, c0) && PreflightPasses(req, c0)
    ensures (forall c | IsStop(c0, c, req, order) :: SkewPolicy(c)) <==>
            CoversAll(c0, order) || req.minor == c0.apiservers[0].minor
  {
    PreflightBounds(req, c0);
    if CoversAll(c0, order) || req.minor == c0.apiservers[0].minor {
      forall c | IsStop(c0, c, req, order) ensures SkewPolicy(c) {
        StopKeepsSkew(req, c0, c, order);
      }
    } else {
      var i: nat :| i < |c0.apiservers| && i !in order;
      var last := Stop(c0, req, order, |order|, |c0.kubelets|);
      assert CanStop(c0, order, |order|, |c0.kubelets|);
      assert order[..|order|] == order && last.apiservers[i] == c0.apiservers[i] && last.kubelets[0] == req;
      assert !SkewPolicy(last);
    }
  }

  /**
   The requested minor fits what it will run beside: the kubelets, and the apiservers other than the one
   that is upgraded first, which is never old while another one is new.
   */
  ghost predicate Compatible(req: Version, c: Cluster, leader: nat)
  {
    && (forall i | 0 <= i < |c.apiservers| && i != leader ::
          c.apiservers[i].minor - 1 <= req.minor <= c.apiservers[i].minor + 1)
    && (forall i | 0 <= i < |c.kubelets| :: c.kubelets[i].minor <= req.minor <= c.kubelets[i].minor + 2)
  }

  /** The followers are the hosts other than the leader. */
  ghost predicate AreFollowers(followers: seq<nat>, n: nat, leader: nat)
  {
    leader < n && forall h: nat :: h in followers <==> h < n && h != leader
  }

  /**
   Without a preflight check to lean on, as in a forced upgrade: the policy holds in every state the upgrade
   may pass through or stop in if and only if it held before and the requested minor is compatible.
   */
  lemma ForcedSkewExactly(req: Version, c0: Cluster, leader: nat, followers: seq<nat>)
    requires Shaped(c0) && AreFollowers(followers, |c0.apiservers|, leader)
    ensures (forall c | IsStop(c0, c, req, [leader] + followers) :: SkewPolicy(c)) <==>
            SkewPolicy(c0) && Compatible(req, c0, leader)
  {
    var order := [leader] + followers;
    if SkewPolicy(c0) && Compatible(req, c0, leader) {
      forall c | IsStop(c0, c, req, order) ensures SkewPolicy(c) {
        CompatibleKeepsSkew(req, c0, c, leader, followers);
      }
    }
    if forall c | IsStop(c0, c, req, order) :: SkewPolicy(c) {
      StartIsStop(c0, req, order);
      SkewNeedsCompatible(req, c0, leader, followers);
    }
  }

  lemma CompatibleKeepsSkew(req: Version, c0: Cluster, c: Cluster, leader: nat, followers: seq<nat>)
    requires Shaped(c0) && AreFollowers(followers, |c0.apiservers|, leader)
    requires SkewPolicy(c0) && Compatible(req, c0, leader) && IsStop(c0, c, req, [leader] + followers)
    ensures SkewPolicy(c)
  {
    var order := [leader] + followers;
    var k: nat, m: nat :| CanStop(c0, order, k, m) && c == Stop(c0, req, order, k, m);
    if k == 0 {
      StartIsStop(c0, req, order);
    } else {
      assert order[..k][0] == leader && c.apiservers[leader] == req;
      if m > 0 { LastStopAtTarget(req, c0, leader, followers, m); }
    }
  }

  lemma LastStopAtTarget(req: Version, c0: Cluster, leader: nat, followers: seq<nat>, m: nat)
    requires AreFollowers(followers, |c0.apiservers|, leader)
    ensures var order := [leader] + followers;
            forall i | 0 <= i < |c0.apiservers| :: Stop(c0, req, order, |order|, m).apiservers[i] == req
  {
    var order := [leader] + followers;
    assert order[..|order|] == order && order[0] == leader;
    assert forall h | h in followers :: h in order;
  }

  lemma SkewNeedsCompatible(req: Version, c0: Cluster, leader: nat, followers: seq<nat>)
    requires Shaped(c0) && AreFollowers(followers, |c0.apiservers|, leader)
    requires forall c | IsStop(c0, c, req, [leader] + followers) :: SkewPolicy(c)
    ensures Compatible(req, c0, leader)
  {
    var order := [leader] + followers;
    var c := Stop(c0, req, order, 1, 0);
    assert CanStop(c0, order, 1, 0) && IsStop(c0, c, req, order);
    assert order[..1] == [leader] && leader in order[..1];
    assert c.apiservers[leader] == req && c.kubelets == c0.kubelets;
    assert forall i | 0 <= i < |c0.apiservers| && i != leader :: c.apiservers[i] == c0.apiservers[i];
  }

  /** Force admits an upgrade over three minors, which breaks the policy on the way. */
  lemma ForceBreaksSkew()
    ensures var current, req := Version(1, 28, 0), Version(1, 31, 0);
            var c0 := Cluster([current], [current]);
            Admitted(req, c0, true) && SkewPolicy(c0) && !forall c | IsStop(c0, c, req, [0]) :: SkewPolicy(c)
  {
    var current, req := Version(1, 28, 0), Version(1, 31, 0);
    var c0 := Cluster([current], [current]);
    assert c0.kubelets[0].minor + 2 < req.minor;
    assert [0] + [] == [0];
    ForcedSkewExactly(req, c0, 0, []);
  }

  /** Force also admits what preflight would refuse although the policy is kept, because the leader goes first. */
  lemma ForceCanBeSafe()
    ensures var c0 := Cluster([Version(1, 28, 0), Version(1, 29, 0)], [Version(1, 28, 0), Version(1, 28, 0)]);
            var req := Version(1, 30, 0);
            && !PreflightPasses(req, c0) && Admitted(req, c0, true)
            && forall c | IsStop(c0, c, req, [0, 1]) :: SkewPolicy(c)
  {
    var c0 := Cluster([Version(1, 28, 0), Version(1, 29, 0)], [Version(1, 28, 0), Version(1, 28, 0)]);
    assert c0.apiservers[1] != c0.apiservers[0];
    assert [0] + [1] == [0, 1];
    assert SkewPolicy(c0) && Compatible(Version(1, 30, 0), c0, 0);
    ForcedSkewExactly(Version(1, 30, 0), c0, 0, [1]);
  }

  /**
   The followers are fixed when the upgrade is planned, the leader when it runs. The two together cover
   the control plane exactly when the same host is elected both times.
   */
  lemma CoversExactly(c: Cluster, planned: nat, elected: nat, followers: seq<nat>)
    requires AreFollowers(followers, |c.apiservers|, planned) && elected < |c.apiservers|
    ensures CoversAll(c, Order(WithUpgrade(followers), elected)) <==> elected == planned
  {
    UpgradeIsWellOrdered(followers, elected);
    var order := [elected] + followers;
    assert forall h: nat :: h in order <==> h == elected || h in followers;
    if elected != planned {
      assert planned !in order;
    }
  }

  /** Preflight passes without force, or the requested minor is compatible with a cluster within the policy. */
  ghost predicate Safe(req: Version, c: Cluster, leader: nat)
    requires Shaped(c)
  {
    PreflightPasses(req, c) || (SkewPolicy(c) && Compatible(req, c, leader))
  }

  lemma HistoryKeepsSkew(req: Version, c0: Cluster, history: seq<Cluster>, leader: nat, followers: seq<nat>)
    requires Shaped(c0) && Plausible(req, c0) && Safe(req, c0, leader)
    requires AreFollowers(followers, |c0.apiservers|, leader)
    requires forall c | c in history :: IsStop(c0, c, req, [leader] + followers)
    ensures forall c | c in history :: SkewPolicy(c)
  {
    var order := [leader] + followers;
    assert forall h: nat :: h in order <==> h == leader || h in followers;
    forall c | c in history ensures SkewPolicy(c) {
      if PreflightPasses(req, c0) {
        StopKeepsSkew(req, c0, c, order);
      } else {
        CompatibleKeepsSkew(req, c0, c, leader, followers);
      }
    }
  }

  /** Where the last stop leaves a fully covered cluster. */
  lemma AllAtTarget(req: Version, c0: Cluster, leader: nat, followers: seq<nat>)
    requires Shaped(c0) && AreFollowers(followers, |c0.apiservers|, leader)
    ensures var order := [leader] + followers;
            var c := Stop(c0, req, order, |order|, |c0.kubelets|);
            (forall v | v in c.apiservers :: v == req) && forall v | v in c.kubelets :: v == req
  {
    LastStopAtTarget(req, c0, leader, followers, |c0.kubelets|);
  }

  /**
   The whole upgrade: planned with one election, run after another. Whatever fails, and wherever it
   stops, every state it went through respects the skew policy, given that the elections agree.
   */
  method RunUpgrade(u: Upgrader, req: Version, force: bool, healthyAtPlan: seq<bool>, healthyAtRun: seq<bool>)
    returns (ok: bool)
    requires Shaped(u.cluster) && u.history == [u.cluster] && Plausible(req, u.cluster)
    requires |healthyAtPlan| == |healthyAtRun| == |u.cluster.apiservers|
    modifies u
    ensures var leader := Elect(healthyAtPlan);
            leader.Some? && Elect(healthyAtRun) == leader && Safe(req, old(u.cluster), leader.value) ==>
              forall c | c in u.history :: SkewPolicy(c)
    ensures Elect(healthyAtPlan).None? || Elect(healthyAtRun).None? || !Admitted(req, old(u.cluster), force) ==>
              !ok && u.cluster == old(u.cluster) && u.history == [u.cluster]
    ensures ok && Elect(healthyAtPlan) == Elect(healthyAtRun) ==>
              (forall v | v in u.cluster.apiservers :: v == req) && forall v | v in u.cluster.kubelets :: v == req
  {
    ghost var c0 := u.cluster;
    var n := |u.cluster.apiservers|;
    var planned, elected := Elect(healthyAtPlan), Elect(healthyAtRun);
    if planned.None? || elected.None? {
      return false;
    }
    var followers := Followers(n, planned.value);
    var tasks := WithUpgrade(followers);
    UpgradeIsWellOrdered(followers, elected.value);
    var passed;
    ok, passed := u.Run(tasks, req, elected.value, force);
    if elected == planned {
      if Safe(req, c0, elected.value) { HistoryKeepsSkew(req, c0, u.history, elected.value, followers); }
      if ok { AllAtTarget(req, c0, elected.value, followers); }
    }
  }

  /** With the first host healthy when planning but not when running, a minor upgrade breaks the policy. */
  lemma ReelectionBreaksSkew(req: Version, c0: Cluster, followers: seq<nat>)
    requires Shaped(c0) && |c0.apiservers| >= 2 && Plausible(req, c0) && PreflightPasses(req, c0)
    requires req.minor != c0.apiservers[0].minor && AreFollowers(followers, |c0.apiservers|, 0)
    ensures Elect([true, true]) == Some(0) && Elect([false, true]) == Some(1)
    ensures exists c :: IsStop(c0, c, req, Order(WithUpgrade(followers), 1)) && !SkewPolicy(c)
  {
    assert Elect([true]) == Some(0) && [false, true][1..] == [true];
    CoversExactly(c0, 0, 1, followers);
    SkewSafeExactly(req, c0, Order(WithUpgrade(followers), 1));
  }
}
