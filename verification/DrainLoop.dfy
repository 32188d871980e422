/** Repeated cleanup passes over one reservation: the clusters of its namespace are asked to go once each, and with
    the last of them gone the reservation goes. */
module DrainLoop {
  import opened Objects
  import opened Protocol
  import opened Invariant
  import opened Execution
  import opened ApiServer
  import opened ReservationPlans

  /** Deleted, but held back by its finalizer until namespace `n` is drained. */
  predicate HeldBack(s: State, k: string, n: string) {
    && k in s.reservations && s.reservations[k].marked && s.reservations[k].finalizer
    && s.reservations[k].status.namespace == n && n != ""
  }

  predicate Complete(s: State, n: string, order: seq<string>) {
    NoDup(order) && forall c | c in ClustersIn(s, n) :: c in order
  }

  // --------------------------------------------------- what a pass asks for

  /** The step deletes a cluster that is not on its way out. */
  ghost predicate AsksFor(n: string, clusters: seq<Cluster>, a: Action) {
    exists c :: c in clusters && !c.terminating && a == OnWorld(WorldAction.DeleteCluster(n, c.name))
  }

  lemma {:induction false} DrainPlanMembers(n: string, clusters: seq<Cluster>)
    ensures forall a :: a in DrainPlan(n, clusters) <==> AsksFor(n, clusters, a)
  {
    if clusters != [] {
      var init := clusters[..|clusters| - 1];
      DrainPlanMembers(n, init);
      assert clusters == init + [clusters[|clusters| - 1]];
    }
  }

  /** A pass deletes exactly the clusters that are not on their way out: none of these is deleted again. */
  lemma NoClusterDeletedTwice(s: State, k: string, order: seq<string>, c: string)
    requires k in s.reservations && Complete(s, s.reservations[k].status.namespace, order)
    ensures var n := s.reservations[k].status.namespace;
            OnWorld(WorldAction.DeleteCluster(n, c)) in CleanupPlan(s, k, order) <==>
              !NoClusters(s, n) && c in ClustersIn(s, n) && !ClustersIn(s, n)[c]
  {
    hide DrainPlan, ClusterListing, NoClusters;
    var n := s.reservations[k].status.namespace;
    var listing := ClusterListing(ClustersIn(s, n), order);
    ClusterListingMembers(ClustersIn(s, n), order);
    DrainPlanMembers(n, listing);
    if !NoClusters(s, n) {
      if c in ClustersIn(s, n) && !ClustersIn(s, n)[c] {
        assert Cluster(c, false) in listing;
      }
    }
  }

  // ----------------------------------------------------- what a pass leaves

  lemma {:induction false} DrainExec(s: State, n: string, clusters: seq<Cluster>)
    requires n in s.clusters && forall c | c in clusters :: c.name in s.clusters[n]
    ensures var t := Exec(s, DrainPlan(n, clusters));
            && t.Some? && t.value.reservations == s.reservations && t.value.clusterCrd == s.clusterCrd
            && n in t.value.clusters && t.value.clusters[n].Keys == s.clusters[n].Keys
            && (forall c | c in s.clusters[n] && s.clusters[n][c] :: t.value.clusters[n][c])
            && forall c | c in clusters && !c.terminating :: t.value.clusters[n][c.name]
  {
    hide Exec, Step;
    if clusters == [] {
      NothingExec(s);
    } else {
      var init, last := clusters[..|clusters| - 1], clusters[|clusters| - 1];
      DrainExec(s, n, init);
      var t := Exec(s, DrainPlan(n, init)).value;
      if !last.terminating {
        var a := WorldAction.DeleteCluster(n, last.name);
        DeletionStep(t, n, last.name);
        ExecSnoc(s, DrainPlan(n, init), OnWorld(a));
      } else {
        assert DrainPlan(n, clusters) == DrainPlan(n, init) + [] == DrainPlan(n, init);
      }
    }
  }

  lemma DeletionStep(s: State, n: string, c: string)
    requires n in s.clusters && c in s.clusters[n]
    ensures var t := Step(s, OnWorld(WorldAction.DeleteCluster(n, c)));
            && t.Some? && t.value.reservations == s.reservations && t.value.clusterCrd == s.clusterCrd
            && n in t.value.clusters && t.value.clusters[n] == s.clusters[n][c := true]
  {
  }

  /** With clusters left, the pass leaves all of them on their way out and the reservation in "deleting". */
  lemma PassDrains(s: State, k: string, n: string, order: seq<string>)
    requires Inv(s) && HeldBack(s, k, n) && Complete(s, n, order) && !NoClusters(s, n)
    ensures var t := Exec(s, CleanupPlan(s, k, order));
            && t.Some? && Inv(t.value) && HeldBack(t.value, k, n) && t.value.reservations[k].status.state == Draining
            && t.value.reservations[k].uid == s.reservations[k].uid && t.value.clusterCrd
            && ClustersIn(t.value, n).Keys == ClustersIn(s, n).Keys
            && forall c | c in ClustersIn(t.value, n) :: ClustersIn(t.value, n)[c]
  {
    hide Exec, Inv, DrainPlan, ClusterListing;
    MarkExec(s, k, n);
    var s1 := Exec(s, MarkPlan(s, k)).value;
    var listing := ClusterListing(ClustersIn(s, n), order);
    ClusterListingMembers(ClustersIn(s, n), order);
    var seen := [OnRes(ObserveClusters(k))];
    ListExec(s1, k, n);
    var s2 := Exec(s1, seen).value;
    DrainExec(s2, n, listing);
    ExecAppend(s, MarkPlan(s, k), seen);
    ExecAppend(s, MarkPlan(s, k) + seen, DrainPlan(n, listing));
    assert CleanupPlan(s, k, order) == MarkPlan(s, k) + seen + DrainPlan(n, listing);
    ExecInv(s, CleanupPlan(s, k, order));
    var t := Exec(s2, DrainPlan(n, listing)).value;
    forall c | c in ClustersIn(t, n) ensures ClustersIn(t, n)[c] {
      assert Cluster(c, s.clusters[n][c]) in listing;
    }
  }

  /** With none left the pass lets the reservation go. */
  lemma PassReleases(s: State, k: string, n: string, order: seq<string>)
    requires Inv(s) && HeldBack(s, k, n) && NoClusters(s, n)
    ensures var t := Exec(s, CleanupPlan(s, k, order));
            t.Some? && k !in t.value.reservations && s.reservations[k].uid in t.value.released
  {
    hide Exec, Inv;
    MarkExec(s, k, n);
    var s1 := Exec(s, MarkPlan(s, k)).value;
    ReleaseExec(s1, k, n);
    ExecAppend(s, MarkPlan(s, k), ReleasePlan(k));
    assert CleanupPlan(s, k, order) == MarkPlan(s, k) + ReleasePlan(k);
  }

  function MarkPlan(s: State, k: string): seq<Action>
    requires k in s.reservations
  {
    if s.reservations[k].status.state == Draining then [] else [OnRes(MarkDraining(k))]
  }

  function ReleasePlan(k: string): seq<Action> {
    [OnRes(ObserveDrained(k)), OnRes(ReleaseFinalizer(k))]
  }

  lemma MarkExec(s: State, k: string, n: string)
    requires HeldBack(s, k, n)
    ensures var t := Exec(s, MarkPlan(s, k));
            && t.Some? && HeldBack(t.value, k, n) && t.value.reservations[k].status.state == Draining
            && t.value.reservations[k].uid == s.reservations[k].uid
            && t.value.clusterCrd == s.clusterCrd && t.value.clusters == s.clusters
  {
    hide Exec;
    NothingExec(s);
    if s.reservations[k].status.state != Draining {
      var a := MarkDraining(k);
      ResAfter(s, a);
      assert Step(s, OnRes(a)) == Some(ResApply(s, a));
      ExecOne(s, OnRes(a));
    }
  }

  lemma ListExec(s: State, k: string, n: string)
    requires HeldBack(s, k, n) && !NoClusters(s, n)
    ensures var t := Exec(s, [OnRes(ObserveClusters(k))]);
            && t.Some? && t.value.reservations == s.reservations
            && t.value.clusterCrd == s.clusterCrd && t.value.clusters == s.clusters
  {
    hide Exec;
    ExecOne(s, OnRes(ObserveClusters(k)));
  }

  lemma ReleaseExec(s: State, k: string, n: string)
    requires HeldBack(s, k, n) && NoClusters(s, n)
    ensures var t := Exec(s, ReleasePlan(k));
            t.Some? && k !in t.value.reservations && s.reservations[k].uid in t.value.released
  {
    hide Exec;
    var a, b := OnRes(ObserveDrained(k)), OnRes(ReleaseFinalizer(k));
    ExecTwo(s, a, b);
  }

  // ---------------------------------------------------------------- the loop

  /** Between two passes nothing happens but that clusters leave: none has come, and unless there was none, at least
      one is gone. */
  ghost predicate ClustersLeave(s: State, t: State, n: string) {
    && t == s.(clusters := t.clusters)
    && ClustersIn(t, n).Keys <= ClustersIn(s, n).Keys
    && (ClustersIn(s, n) != map[] ==> ClustersIn(t, n).Keys != ClustersIn(s, n).Keys)
  }

  /** What the controller does about a reservation that may be gone already. */
  function CleanupSteps(s: State, k: string, order: seq<string>): seq<Action> {
    if k in s.reservations then CleanupPlan(s, k, order) else []
  }

  /** A pass, and then time for clusters to leave. */
  ghost predicate Round(s: State, t: State, k: string, n: string, order: seq<string>) {
    Exec(s, CleanupSteps(s, k, order)).Some? && ClustersLeave(Exec(s, CleanupSteps(s, k, order)).value, t, n)
  }

  ghost predicate Rounds(states: seq<State>, k: string, n: string, order: seq<string>) {
    forall i {:trigger states[i]} | 0 <= i < |states| - 1 :: Round(states[i], states[i + 1], k, n, order)
  }

  /** After as many rounds as there are clusters, and one more, the reservation is gone. */
  lemma {:induction false} DrainTerminates(states: seq<State>, k: string, n: string, order: seq<string>)
    requires |states| > 0 && Inv(states[0]) && HeldBack(states[0], k, n) && Complete(states[0], n, order)
    requires Rounds(states, k, n, order) && |states| - 1 >= |ClustersIn(states[0], n)| + 1
    ensures k !in states[|states| - 1].reservations
    decreases |states|
  {
    hide Exec, Inv, CleanupPlan, NoClusters;
    var s, t, rest := states[0], states[1], states[1..];
    assert Round(s, t, k, n, order);
    RoundsGoOn(states, k, n, order);
    if NoClusters(s, n) {
      PassReleases(s, k, n, order);
      GoneStays(rest, k, n, order);
    } else {
      PassDrains(s, k, n, order);
      SomeCluster(s, n);
      var mid := Exec(s, CleanupPlan(s, k, order)).value;
      FewerClusters(s, mid, t, n);
      ClustersKeepInv(mid, t);
      DrainTerminates(rest, k, n, order);
    }
    assert rest[|rest| - 1] == states[|states| - 1];
  }

  lemma {:induction false} GoneStays(states: seq<State>, k: string, n: string, order: seq<string>)
    requires |states| > 0 && k !in states[0].reservations && Rounds(states, k, n, order)
    ensures k !in states[|states| - 1].reservations
    decreases |states|
  {
    hide Exec;
    if |states| > 1 {
      var rest := states[1..];
      assert Round(states[0], states[1], k, n, order);
      NothingExec(states[0]);
      RoundsGoOn(states, k, n, order);
      GoneStays(rest, k, n, order);
      assert rest[|rest| - 1] == states[|states| - 1];
    }
  }

  lemma ClustersKeepInv(s: State, t: State)
    requires Inv(s) && t == s.(clusters := t.clusters)
    ensures Inv(t)
  {
    hide Inv;
    WorldKeepsInv(s, SetClusters(s.clusterCrd, t.clusters));
  }

  lemma FewerClusters(s: State, mid: State, t: State, n: string)
    requires !NoClusters(s, n) && ClustersIn(mid, n).Keys == ClustersIn(s, n).Keys && ClustersLeave(mid, t, n)
    ensures |ClustersIn(t, n)| < |ClustersIn(s, n)|
  {
    var a, b := ClustersIn(t, n).Keys, ClustersIn(s, n).Keys;
    var x :| x in b && x !in a;
    SubsetSmaller(a, b - {x});
    assert |a| == |ClustersIn(t, n)| && |b| == |ClustersIn(s, n)|;
  }

  lemma SomeCluster(s: State, n: string)
    requires !NoClusters(s, n)
    ensures |ClustersIn(s, n)| > 0
  {
  }

  lemma RoundsGoOn(states: seq<State>, k: string, n: string, order: seq<string>)
    requires |states| > 1 && Rounds(states, k, n, order)
    ensures Rounds(states[1..], k, n, order)
  {
    hide Round;
    var rest := states[1..];
    forall i {:trigger rest[i]} | 0 <= i < |rest| - 1 ensures Round(rest[i], rest[i + 1], k, n, order) {
      assert states[i + 1] == rest[i] && states[i + 2] == rest[i + 1];
    }
  }
}
