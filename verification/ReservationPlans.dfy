/** What one pass of the reservation controller writes, step by step, when no call fails and nothing else moves. */
module ReservationPlans {
  import opened Objects
  import opened Protocol
  import opened ApiServer
  import opened ReadyLists

  predicate EnvReady(s: State, n: string) {
    n in s.envs && EnvVerifies(s.envs[n])
  }

  /** The steps that give namespace `n` to the reservation: claim, index, status, finalizer. */
  function AssignPlan(k: string, uid: nat, n: string, pool: string, e: Time): seq<Action> {
    [OnNs(Claim(n, k, uid))] + ConfirmPlan(k, n, pool, e)
  }

  function ConfirmPlan(k: string, n: string, pool: string, e: Time): seq<Action> {
    RegisterPlan(k, n, pool, e) + [OnRes(AddFinalizer(k))]
  }

  function RegisterPlan(k: string, n: string, pool: string, e: Time): seq<Action> {
    [OnIndex(Register(ReservationWorker, k, e)), OnRes(Activate(k, n, pool, e))]
  }

  /** A reservation without namespace: states "" and waiting. */
  function UnassignedPlan(s: State, k: string, order: seq<string>): seq<Action>
    requires k in s.reservations
  {
    match ExpirationTime(s.reservations[k], s.now)
    case None => [OnRes(OpDelete(ReservationWorker, k))]
    case Some(e) => SearchPlan(s, k, PoolOf(s.reservations[k]), order, e)
  }

  /** Takes the first ready namespace, or waits for one. */
  function SearchPlan(s: State, k: string, pool: string, order: seq<string>, e: Time): seq<Action>
    requires k in s.reservations
  {
    var ready := ReadyOf(s, pool, order);
    if ready == [] then
      if s.reservations[k].status.state == Unset then [OnRes(SetWaiting(k, pool, e))] else []
    else TakePlan(s, k, s.reservations[k].uid, ready[0].name, pool, e)
  }

  /** The first ready namespace: taken if its environment verifies, marked otherwise. */
  function TakePlan(s: State, k: string, uid: nat, n: string, pool: string, e: Time): seq<Action> {
    if pool !in s.pools then []
    else if s.pools[pool].spec.clowder.Some? && !EnvReady(s, n) then
      [OnNs(Annotate(ReservationWorker, n, StatusPatch(Error)))]
    else AssignPlan(k, uid, n, pool, e)
  }

  /** An active reservation: the finalizer if it is missing, then the expiry again. Writing the finalizer reads
      the status back, so the pool is then the stored one. */
  function ActivePlan(s: State, k: string): seq<Action>
    requires k in s.reservations
  {
    var r := s.reservations[k];
    (if r.finalizer then [] else [OnRes(AddFinalizer(k))])
    + RefreshPlan(k, if r.finalizer then PoolOf(r) else r.status.pool, ExpirationTime(r, s.now))
  }

  function RefreshPlan(k: string, pool: string, expiry: Option<Time>): seq<Action> {
    match expiry
    case None => []
    case Some(e) => [OnIndex(Register(ReservationWorker, k, e)), OnRes(Refresh(k, pool, e))]
  }

  /** Deletes the clusters that are not on their way out already. */
  function DrainPlan(n: string, clusters: seq<Cluster>): seq<Action> {
    if clusters == [] then []
    else
      var last := clusters[|clusters| - 1];
      DrainPlan(n, clusters[..|clusters| - 1])
      + if last.terminating then [] else [OnWorld(WorldAction.DeleteCluster(n, last.name))]
  }

  function CleanupPlan(s: State, k: string, order: seq<string>): seq<Action>
    requires k in s.reservations
  {
    var r := s.reservations[k];
    var n := r.status.namespace;
    (if r.status.state == Draining then [] else [OnRes(MarkDraining(k))])
    + ClustersPlan(s, k, n, order)
    + (if NoClusters(s, n) then [OnRes(ReleaseFinalizer(k))] else [])
  }

  /** DeleteCAPIResources */
  function ClustersPlan(s: State, k: string, n: string, order: seq<string>): seq<Action> {
    if NoClusters(s, n) then [OnRes(ObserveDrained(k))]
    else [OnRes(ObserveClusters(k))] + DrainPlan(n, ClusterListing(ClustersIn(s, n), order))
  }

  /** The namespaces and the clusters of `k` are all in the given orders. */
  predicate Ordered(s: State, k: string, order: seq<string>, clusterOrder: seq<string>) {
    && Covers(order, s.namespaces)
    && (k in s.reservations ==> forall c | c in ClustersIn(s, s.reservations[k].status.namespace) :: c in clusterOrder)
  }

  function WaitingPlan(s: State, k: string, order: seq<string>): seq<Action>
    requires k in s.reservations
  {
    match ExpirationTime(s.reservations[k], s.now)
    case None => []
    case Some(e) => if Expired(e, s.now) then [OnRes(OpDelete(ReservationWorker, k))] else UnassignedPlan(s, k, order)
  }

  // ------------------------------------------- whatever runs against the pass

  /** The first few steps of a search that came upon namespace `n` and computed expiry `e`. */
  predicate SeeksWith(steps: seq<Action>, k: string, uid: nat, pool: string, n: string, e: Time) {
    || steps <= [OnRes(OpDelete(ReservationWorker, k))]
    || steps <= [OnRes(SetWaiting(k, pool, e))]
    || steps <= [OnNs(Annotate(ReservationWorker, n, StatusPatch(Error)))]
    || steps <= AssignPlan(k, uid, n, pool, e)
  }

  ghost predicate Seeks(steps: seq<Action>, k: string, uid: nat, pool: string) {
    exists n: string, e: Time :: SeeksWith(steps, k, uid, pool, n, e)
  }

  /** All the steps of an assignment. */
  ghost predicate Assigns(steps: seq<Action>, k: string, uid: nat, pool: string) {
    exists n: string, e: Time :: steps == AssignPlan(k, uid, n, pool, e)
  }

  /** A pass that claims a namespace and is done has made the whole assignment. */
  ghost predicate AllOrNothing(steps: seq<Action>, k: string) {
    ClaimsNothing(steps) || exists uid: nat, pool: string :: Assigns(steps, k, uid, pool)
  }

  predicate RefreshesWith(steps: seq<Action>, k: string, pool: string, e: Time) {
    steps <= [OnRes(AddFinalizer(k))] + RefreshPlan(k, pool, Some(e)) || steps <= RefreshPlan(k, pool, Some(e))
  }

  ghost predicate Refreshes(steps: seq<Action>, k: string) {
    exists pool: string, e: Time :: RefreshesWith(steps, k, pool, e)
  }

  predicate CleansUp(a: Action, k: string) {
    || a in {OnRes(MarkDraining(k)), OnRes(ObserveDrained(k)), OnRes(ObserveClusters(k)), OnRes(ReleaseFinalizer(k))}
    || (a.OnWorld? && a.world.DeleteCluster?)
  }

  /** Nothing but the cleanup of `k`. */
  predicate Cleanup(steps: seq<Action>, k: string) {
    forall a | a in steps :: CleansUp(a, k)
  }

  /** What the controller itself writes in one pass over `k`, whatever the others write meanwhile. */
  ghost predicate PassSteps(steps: seq<Action>, k: string) {
    || (exists uid: nat, pool: string :: Seeks(steps, k, uid, pool))
    || Refreshes(steps, k)
    || Cleanup(steps, k)
  }

  /** So a pass claims at most one namespace, for `k`, and before anything else it writes. */
  lemma PassClaimsOnce(steps: seq<Action>, k: string)
    requires PassSteps(steps, k)
    ensures forall i | 0 <= i < |steps| && Claims(steps[i]) :: i == 0 && steps[i].ns.k == k
  {
    if uid: nat, pool: string :| Seeks(steps, k, uid, pool) {
      var n, e :| SeeksWith(steps, k, uid, pool, n, e);
      assert forall i | 0 < i < 4 :: !Claims(AssignPlan(k, uid, n, pool, e)[i]);
    } else {
      OthersClaimNothing(steps, k);
    }
  }

  predicate ClaimsNothing(steps: seq<Action>) {
    forall i | 0 <= i < |steps| :: !Claims(steps[i])
  }

  lemma OthersClaimNothing(steps: seq<Action>, k: string)
    requires Refreshes(steps, k) || Cleanup(steps, k)
    ensures ClaimsNothing(steps)
  {
    if Refreshes(steps, k) {
      var pool, e :| RefreshesWith(steps, k, pool, e);
      assert forall a | a in RefreshPlan(k, pool, Some(e)) :: !Claims(a);
    } else {
      forall i | 0 <= i < |steps| ensures !Claims(steps[i]) {
        assert steps[i] in steps;
        assert CleansUp(steps[i], k);
      }
    }
  }

  /** A claim, and then the first few steps of what follows it, are the first few steps of an assignment. */
  lemma AssignFrom(before: seq<Action>, between: seq<Action>, after: seq<Action>, k: string, uid: nat, n: string,
      pool: string, e: Time)
    requires before <= between <= before + [OnNs(Claim(n, k, uid))]
    ensures between <= before + AssignPlan(k, uid, n, pool, e)
    ensures between == before + [OnNs(Claim(n, k, uid))] ==>
              && (between <= after <= between + ConfirmPlan(k, n, pool, e) ==>
                    before <= after <= before + AssignPlan(k, uid, n, pool, e))
              && (after == between + ConfirmPlan(k, n, pool, e) ==> after == before + AssignPlan(k, uid, n, pool, e))
  {
    hide ConfirmPlan;
    assert before + AssignPlan(k, uid, n, pool, e) == (before + [OnNs(Claim(n, k, uid))]) + ConfirmPlan(k, n, pool, e);
  }

  lemma SeekSteps(before: seq<Action>, after: seq<Action>, k: string, uid: nat, pool: string, n: string, e: Time)
    requires before <= after
    requires || after <= before + [OnRes(OpDelete(ReservationWorker, k))]
             || after <= before + [OnRes(SetWaiting(k, pool, e))]
             || after <= before + [OnNs(Annotate(ReservationWorker, n, StatusPatch(Error)))]
             || after <= before + AssignPlan(k, uid, n, pool, e)
    ensures Seeks(after[|before|..], k, uid, pool)
  {
    hide AssignPlan;
    assert SeeksWith(after[|before|..], k, uid, pool, n, e);
  }

  lemma AssignSteps(before: seq<Action>, after: seq<Action>, k: string, uid: nat, pool: string, n: string, e: Time)
    requires before <= after
    ensures after == before + AssignPlan(k, uid, n, pool, e) ==> Assigns(after[|before|..], k, uid, pool)
  {
    hide AssignPlan;
    if after == before + AssignPlan(k, uid, n, pool, e) {
      assert after[|before|..] == AssignPlan(k, uid, n, pool, e);
    }
  }

  lemma RefreshSteps(before: seq<Action>, after: seq<Action>, k: string, pool: string, e: Time)
    requires before <= after
    requires after <= before + [OnRes(AddFinalizer(k))] + RefreshPlan(k, pool, Some(e))
             || after <= before + RefreshPlan(k, pool, Some(e))
    ensures Refreshes(after[|before|..], k)
  {
    hide RefreshPlan;
    assert before + [OnRes(AddFinalizer(k))] + RefreshPlan(k, pool, Some(e))
           == before + ([OnRes(AddFinalizer(k))] + RefreshPlan(k, pool, Some(e)));
    assert RefreshesWith(after[|before|..], k, pool, e);
  }

  /** One pass over reservation `k`, namespaces and clusters being listed in the given orders. */
  function ReconcilePlan(s: State, k: string, order: seq<string>, clusterOrder: seq<string>): seq<Action> {
    if k !in s.reservations then []
    else
      var r := s.reservations[k];
      if r.marked then CleanupPlan(s, k, clusterOrder)
      else if r.status.state == Active then ActivePlan(s, k)
      else if r.status.state == Waiting then WaitingPlan(s, k, order)
      else UnassignedPlan(s, k, order)
  }
}
