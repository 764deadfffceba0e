/**
 Advice on broken control plane hosts (pkg/state/cluster.go): which of them can be removed without
 the etcd cluster losing its quorum.
 */
module EtcdQuorum {
  import opened Sequences

  const SYSTEMD_RESTARTING: bv64 := 4
  const SYSTEMD_RUNNING: bv64 := 32
  const POD_RUNNING: bv64 := 128

  datatype Host = Host(
    hostname: string, inCluster: bool, etcd: bv64, apiServer: bv64, containerd: bv64, kubelet: bv64)

  predicate PodHealthy(status: bv64)
  {
    status & POD_RUNNING != 0
  }

  predicate ComponentHealthy(status: bv64)
  {
    status & SYSTEMD_RUNNING != 0 && status & SYSTEMD_RESTARTING == 0
  }

  predicate WorkerHealthy(h: Host)
  {
    h.inCluster && ComponentHealthy(h.containerd) && ComponentHealthy(h.kubelet)
  }

  /** What a control plane host is to etcd. */
  predicate IsMember(h: Host)
  {
    h.inCluster
  }

  predicate IsHealthyMember(h: Host)
  {
    h.inCluster && PodHealthy(h.etcd)
  }

  predicate IsDeadMember(h: Host)
  {
    h.inCluster && !PodHealthy(h.etcd)
  }

  /** A healthy etcd member whose apiserver is broken. */
  predicate IsCandidate(h: Host)
  {
    h.inCluster && PodHealthy(h.etcd) && !PodHealthy(h.apiServer)
  }

  predicate IsBrokenWorker(h: Host)
  {
    h.inCluster && !WorkerHealthy(h)
  }

  /** The hostnames of the hosts picked by `p`, in order. */
  function Names(hosts: seq<Host>, p: Host -> bool): seq<string>
  {
    if hosts == [] then []
    else
      var n := |hosts| - 1;
      Names(hosts[..n], p) + if p(hosts[n]) then [hosts[n].hostname] else []
  }

  function Tolerance(healthy: nat): int
  {
    healthy - (healthy / 2 + 1)
  }

  // ----- the status bits of the hosts, counted by their places -----

  ghost function HealthyEtcd(hosts: seq<Host>): set<nat>
  {
    set i | 0 <= i < |hosts| && hosts[i].inCluster && hosts[i].etcd & 128 != 0
  }

  ghost function DeadEtcd(hosts: seq<Host>): set<nat>
  {
    set i | 0 <= i < |hosts| && hosts[i].inCluster && hosts[i].etcd & 128 == 0
  }

  /** In the cluster, with a container runtime or kubelet that is not running or is restarting. */
  ghost function BrokenWorkers(hosts: seq<Host>): set<nat>
  {
    set i | 0 <= i < |hosts| && BrokenWorkerBits(hosts[i])
  }

  predicate BrokenWorkerBits(h: Host)
  {
    h.inCluster && !(h.containerd & 32 != 0 && h.containerd & 4 == 0 && h.kubelet & 32 != 0 && h.kubelet & 4 == 0)
  }

  ghost function Places(hosts: seq<Host>, p: Host -> bool): set<nat>
  {
    set i | 0 <= i < |hosts| && p(hosts[i])
  }

  /** Counting names is counting hosts. */
  lemma {:induction false} NamesCounted(hosts: seq<Host>, p: Host -> bool)
    ensures |Names(hosts, p)| == |Places(hosts, p)|
  {
    if hosts == [] {
      assert Places(hosts, p) == {};
    } else {
      var n := |hosts| - 1;
      NamesCounted(hosts[..n], p);
      assert Places(hosts, p) == Places(hosts[..n], p) + if p(hosts[n]) then {n} else {};
    }
  }

  lemma HealthyCounted(hosts: seq<Host>)
    ensures |Names(hosts, IsHealthyMember)| == |HealthyEtcd(hosts)|
  {
    NamesCounted(hosts, IsHealthyMember);
    assert Places(hosts, IsHealthyMember) == HealthyEtcd(hosts);
  }

  lemma DeadCounted(hosts: seq<Host>)
    ensures |Names(hosts, IsDeadMember)| == |DeadEtcd(hosts)|
  {
    NamesCounted(hosts, IsDeadMember);
    assert Places(hosts, IsDeadMember) == DeadEtcd(hosts);
  }

  lemma WorkersCounted(hosts: seq<Host>)
    ensures |Names(hosts, IsBrokenWorker)| == |BrokenWorkers(hosts)|
  {
    NamesCounted(hosts, IsBrokenWorker);
    assert Places(hosts, IsBrokenWorker) == BrokenWorkers(hosts);
  }

  /** The most of `healthy` members that can go with more than half of them left; -1 when there are none. */
  ghost predicate IsTolerance(healthy: nat, tolerance: int)
  {
    if healthy == 0 then tolerance == -1
    else 2 * (healthy - tolerance) > healthy && 2 * (healthy - (tolerance + 1)) <= healthy
  }

  /** EtcdToleranceRemain */
  method EtcdToleranceRemain(controlPlane: seq<Host>) returns (tolerance: int)
    ensures tolerance == Tolerance(|Names(controlPlane, IsHealthyMember)|)
    ensures IsTolerance(|HealthyEtcd(controlPlane)|, tolerance)
  {
    var healthy := 0;
    for i := 0 to |controlPlane|
      invariant healthy == |Names(controlPlane[..i], IsHealthyMember)|
    {
      assert controlPlane[..i + 1][..i] == controlPlane[..i];
      if controlPlane[i].inCluster && PodHealthy(controlPlane[i].etcd) {
        healthy := healthy + 1;
      }
    }
    assert controlPlane[..|controlPlane|] == controlPlane;
    HealthyCounted(controlPlane);
    var quorum := healthy / 2 + 1;
    tolerance := healthy - quorum;
  }

  /** How many healthy members with a broken apiserver may go as well. */
  function Allowance(controlPlane: seq<Host>): (k: nat)
    ensures k <= |Names(controlPlane, IsCandidate)|
  {
    var spare := Tolerance(|Names(controlPlane, IsHealthyMember)|) - |Names(controlPlane, IsDeadMember)|;
    var candidates := |Names(controlPlane, IsCandidate)|;
    if spare <= 0 then 0 else if spare >= candidates then candidates else spare
  }

  /** The advice: the dead members, the candidates within the allowance and the broken workers, each in order. */
  ghost predicate IsAdvice(controlPlane: seq<Host>, workers: seq<Host>, safe: seq<string>)
  {
    safe == Names(controlPlane, IsDeadMember)
            + Names(controlPlane, IsCandidate)[..Allowance(controlPlane)]
            + Names(workers, IsBrokenWorker)
  }

  /** The dead etcd members, and the healthy ones with a broken apiserver. */
  method Classify(controlPlane: seq<Host>) returns (dead: seq<string>, candidates: seq<string>)
    ensures dead == Names(controlPlane, IsDeadMember) && candidates == Names(controlPlane, IsCandidate)
  {
    dead, candidates := [], [];
    for i := 0 to |controlPlane|
      invariant dead == Names(controlPlane[..i], IsDeadMember)
      invariant candidates == Names(controlPlane[..i], IsCandidate)
    {
      var h := controlPlane[i];
      assert controlPlane[..i + 1][..i] == controlPlane[..i];
      if !h.inCluster {
        continue;
      }
      if !PodHealthy(h.etcd) {
        dead := dead + [h.hostname];
      } else if !PodHealthy(h.apiServer) {
        candidates := candidates + [h.hostname];
      }
    }
    assert controlPlane[..|controlPlane|] == controlPlane;
  }

  /** SafeToDeleteHosts: dead etcd members, then spare candidates, then broken workers. */
  method SafeToDeleteHosts(controlPlane: seq<Host>, workers: seq<Host>) returns (safe: seq<string>)
    ensures IsAdvice(controlPlane, workers, safe)
  {
    var tolerance := EtcdToleranceRemain(controlPlane);
    var dead, candidates := Classify(controlPlane);
    safe := dead;
    tolerance := tolerance - |safe|;
    if tolerance > 0 && |candidates| > 0 {
      if tolerance >= |candidates| {
        safe := safe + candidates;
      } else {
        safe := safe + candidates[..tolerance];
      }
    }
    assert safe == dead + candidates[..Allowance(controlPlane)];
    ghost var before := safe;
    for i := 0 to |workers|
      invariant safe == before + Names(workers[..i], IsBrokenWorker)
    {
      assert workers[..i + 1][..i] == workers[..i];
      if workers[i].inCluster && !WorkerHealthy(workers[i]) {
        safe := safe + [workers[i].hostname];
      }
    }
    assert workers[..|workers|] == workers;
  }

  // ----- the advice, by the status bits -----

  /** In the cluster, and the etcd or the apiserver pod is not running. */
  predicate BrokenControlPlane(h: Host)
  {
    h.inCluster && (h.etcd & 128 == 0 || h.apiServer & 128 == 0)
  }

  /** Only broken hosts are advised. */
  lemma AdvisedIsBroken(controlPlane: seq<Host>, workers: seq<Host>, safe: seq<string>, x: string)
    requires IsAdvice(controlPlane, workers, safe) && x in safe
    ensures || (exists h :: h in controlPlane && h.hostname == x && BrokenControlPlane(h))
            || (exists h :: h in workers && h.hostname == x && BrokenWorkerBits(h))
    ensures UniqueNames(controlPlane + workers) ==>
              && (forall h | h in controlPlane && h.hostname == x :: BrokenControlPlane(h))
              && (forall h | h in workers && h.hostname == x :: BrokenWorkerBits(h))
  {
    var candidates := Names(controlPlane, IsCandidate);
    NamesOf(controlPlane, IsDeadMember, x);
    NamesOf(controlPlane, IsCandidate, x);
    NamesOf(workers, IsBrokenWorker, x);
    assert x in candidates[..Allowance(controlPlane)] ==> x in candidates;
    if b :| b in controlPlane && b.hostname == x && BrokenControlPlane(b) {
      if UniqueNames(controlPlane + workers) { OneHost(controlPlane, workers, b); }
    } else {
      var b :| b in workers && b.hostname == x && BrokenWorkerBits(b);
      if UniqueNames(controlPlane + workers) { OneHost(controlPlane, workers, b); }
    }
  }

  lemma OneHost(controlPlane: seq<Host>, workers: seq<Host>, h: Host)
    requires UniqueNames(controlPlane + workers) && h in controlPlane + workers
    ensures forall d | d in controlPlane && d.hostname == h.hostname :: d == h && h !in workers
    ensures forall d | d in workers && d.hostname == h.hostname :: d == h && h !in controlPlane
  {
    var all := controlPlane + workers;
    var n := |controlPlane|;
    var j :| 0 <= j < |all| && all[j] == h;
    forall d | d in controlPlane && d.hostname == h.hostname ensures d == h && h !in workers {
      var i :| 0 <= i < n && controlPlane[i] == d;
      assert all[i] == d;
      assert forall k | 0 <= k < |workers| :: all[n + k] == workers[k];
    }
    forall d | d in workers && d.hostname == h.hostname ensures d == h && h !in controlPlane {
      var i :| 0 <= i < |workers| && workers[i] == d;
      assert all[n + i] == d;
      assert forall k | 0 <= k < n :: all[k] == controlPlane[k];
    }
  }

  /** Every dead etcd member and every broken worker is advised. */
  lemma BrokenIsAdvised(controlPlane: seq<Host>, workers: seq<Host>, safe: seq<string>, h: Host)
    requires IsAdvice(controlPlane, workers, safe)
    ensures h in controlPlane && h.inCluster && h.etcd & 128 == 0 ==> h.hostname in safe
    ensures h in workers && BrokenWorkerBits(h) ==> h.hostname in safe
  {
    NamesOf(controlPlane, IsDeadMember, h.hostname);
    NamesOf(workers, IsBrokenWorker, h.hostname);
    assert h in controlPlane && h.inCluster && h.etcd & 128 == 0 ==> IsDeadMember(h);
    assert h in workers && BrokenWorkerBits(h) ==> IsBrokenWorker(h);
  }

  /**
   A host with a healthy etcd member and a broken apiserver is left out only when advising one more control
   plane host would leave no more than half of the healthy members, and beyond the dead members no more are
   ever advised than leave more than half of them.
   */
  lemma LeftOutOnlyForQuorum(controlPlane: seq<Host>, workers: seq<Host>, safe: seq<string>)
    requires IsAdvice(controlPlane, workers, safe)
    ensures var healthy, advised := |HealthyEtcd(controlPlane)|, |safe| - |BrokenWorkers(workers)|;
            && (advised > |DeadEtcd(controlPlane)| ==> 2 * (healthy - advised) > healthy)
            && (forall h | && h in controlPlane && h.inCluster && h.etcd & 128 != 0 && h.apiServer & 128 == 0
                           && h.hostname !in safe ::
                  2 * (healthy - (advised + 1)) <= healthy)
  {
    HealthyCounted(controlPlane);
    DeadCounted(controlPlane);
    WorkersCounted(workers);
    var candidates := Names(controlPlane, IsCandidate);
    assert candidates[..|candidates|] == candidates;
    forall h | && h in controlPlane && h.inCluster && h.etcd & 128 != 0 && h.apiServer & 128 == 0
               && h.hostname !in safe
      ensures Allowance(controlPlane) < |candidates|
    {
      NamesOf(controlPlane, IsCandidate, h.hostname);
      assert IsCandidate(h) && h.hostname in candidates;
    }
  }

  // ----- quorum -----

  ghost predicate UniqueNames(hosts: seq<Host>)
  {
    forall i, j | 0 <= i < j < |hosts| :: hosts[i].hostname != hosts[j].hostname
  }

  lemma {:induction false} NamesOf(hosts: seq<Host>, p: Host -> bool, x: string)
    ensures x in Names(hosts, p) <==> exists h :: h in hosts && p(h) && h.hostname == x
  {
    if hosts != [] {
      var n := |hosts| - 1;
      NamesOf(hosts[..n], p, x);
      assert hosts == hosts[..n] + [hosts[n]];
    }
  }

  lemma {:induction false} NamesCount(hosts: seq<Host>, p: Host -> bool)
    requires UniqueNames(hosts)
    ensures |Members(Names(hosts, p))| == |Names(hosts, p)|
  {
    if hosts != [] {
      var n := |hosts| - 1;
      NamesCount(hosts[..n], p);
      NamesOf(hosts[..n], p, hosts[n].hostname);
      if p(hosts[n]) {
        assert hosts[n].hostname !in Names(hosts[..n], p) by {
          assert forall h | h in hosts[..n] :: h.hostname != hosts[n].hostname;
        }
        assert Members(Names(hosts, p)) == Members(Names(hosts[..n], p)) + {hosts[n].hostname};
      } else {
        assert Names(hosts, p) == Names(hosts[..n], p);
      }
    }
  }

  lemma {:induction false} AtMost(xs: seq<string>)
    ensures |Members(xs)| <= |xs|
  {
    if xs != [] {
      AtMost(xs[1..]);
      assert xs == [xs[0]] + xs[1..];
      assert Members(xs) == {xs[0]} + Members(xs[1..]);
    }
  }

  /** The members are the healthy and the dead ones. */
  lemma {:induction false} MembersSplit(hosts: seq<Host>)
    ensures |Names(hosts, IsMember)| == |Names(hosts, IsHealthyMember)| + |Names(hosts, IsDeadMember)|
  {
    if hosts != [] {
      MembersSplit(hosts[..|hosts| - 1]);
    }
  }

  lemma SubsetCard(a: set<string>, b: set<string>)
    requires a <= b
    ensures |a| <= |b|
  {
    if a != b {
      var d := b - a;
      assert b == a + d;
    }
  }

  /** The arithmetic behind the advice, for any cluster size. */
  lemma SpareKeepsMajority(healthy: nat, dead: nat, k: nat)
    requires 2 * healthy > healthy + dead
    requires k == 0 || k <= Tolerance(healthy) - dead
    ensures 2 * (healthy - k) > healthy + dead
  {
  }

  /** Whatever of the advice is followed, only candidates within the allowance leave the healthy members. */
  lemma HealthyLost(controlPlane: seq<Host>, workers: seq<Host>, safe: seq<string>, removed: set<string>)
    requires UniqueNames(controlPlane + workers) && removed <= Members(safe)
    requires IsAdvice(controlPlane, workers, safe)
    ensures Members(Names(controlPlane, IsHealthyMember)) * removed
            <= Members(Names(controlPlane, IsCandidate)[..Allowance(controlPlane)])
  {
    forall x | x in Members(Names(controlPlane, IsHealthyMember)) * removed
      ensures x in Names(controlPlane, IsCandidate)[..Allowance(controlPlane)]
    {
      NamesOf(controlPlane, IsHealthyMember, x);
      var h :| h in controlPlane && IsHealthyMember(h) && h.hostname == x;
      NotDead(controlPlane, workers, h);
      NotWorker(controlPlane, workers, h);
    }
  }

  lemma NotDead(controlPlane: seq<Host>, workers: seq<Host>, h: Host)
    requires UniqueNames(controlPlane + workers) && h in controlPlane && IsHealthyMember(h)
    ensures h.hostname !in Names(controlPlane, IsDeadMember)
  {
    NamesOf(controlPlane, IsDeadMember, h.hostname);
    var all := controlPlane + workers;
    forall d | d in controlPlane && d.hostname == h.hostname ensures d == h {
      var i :| 0 <= i < |controlPlane| && controlPlane[i] == d;
      var j :| 0 <= j < |controlPlane| && controlPlane[j] == h;
      assert all[i] == d && all[j] == h;
    }
  }

  lemma NotWorker(controlPlane: seq<Host>, workers: seq<Host>, h: Host)
    requires UniqueNames(controlPlane + workers) && h in controlPlane
    ensures h.hostname !in Names(workers, IsBrokenWorker)
  {
    NamesOf(workers, IsBrokenWorker, h.hostname);
    var all := controlPlane + workers;
    forall w | w in workers ensures w.hostname != h.hostname {
      var i :| 0 <= i < |workers| && workers[i] == w;
      var j :| 0 <= j < |controlPlane| && controlPlane[j] == h;
      assert all[|controlPlane| + i] == w && all[j] == h;
    }
  }

  /**
   Quorum is kept. If a majority of the etcd members is healthy, then after removing any of the hosts
   the advice lists, and whichever of the removed hosts etcd still counts as members, the healthy
   members left are still a majority of the registered ones.
   */
  lemma RemovalKeepsQuorum(
    controlPlane: seq<Host>, workers: seq<Host>, safe: seq<string>, removed: set<string>, registered: set<string>)
    requires UniqueNames(controlPlane + workers)
    requires IsAdvice(controlPlane, workers, safe)
    requires 2 * |Names(controlPlane, IsHealthyMember)| > |Names(controlPlane, IsMember)|
    requires removed <= Members(safe) && registered <= Members(Names(controlPlane, IsMember))
    ensures 2 * |Members(Names(controlPlane, IsHealthyMember)) - removed| > |registered|
  {
    var all := controlPlane + workers;
    assert UniqueNames(controlPlane) by {
      assert forall i | 0 <= i < |controlPlane| :: all[i] == controlPlane[i];
    }
    var healthy := Members(Names(controlPlane, IsHealthyMember));
    var lost := healthy * removed;
    var chosen := Names(controlPlane, IsCandidate)[..Allowance(controlPlane)];
    HealthyLost(controlPlane, workers, safe, removed);
    SubsetCard(lost, Members(chosen));
    AtMost(chosen);
    NamesCount(controlPlane, IsHealthyMember);
    NamesCount(controlPlane, IsMember);
    MembersSplit(controlPlane);
    SubsetCard(registered, Members(Names(controlPlane, IsMember)));
    assert healthy - removed == healthy - lost && |healthy - lost| == |healthy| - |lost|;
    SpareKeepsMajority(|healthy|, |Names(controlPlane, IsDeadMember)|, Allowance(controlPlane));
  }
}
