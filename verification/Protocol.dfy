/** The operator's control plane as a transition system over one versioned object store.
    Every write an actor makes, and every change from outside, is one `Action`; the actions of
    all actors interleave freely, so a controller's pass is not a step but a sequence of steps
    with anything in between. */
module Protocol {
  import opened Objects

  datatype Actor = PoolWorker | ReservationWorker | EnvWorker | PollWorker | Outside

  /** Over the limit when last counted; and become countable since then, but not by creation. */
  datatype Allowance = Allowance(excess: nat, revived: nat)

  /** A reservation as the user filed it. */
  datatype Request = Request(name: string, spec: ResSpec)

  datatype State = State(
    // the object store
    namespaces: map<string, Namespace>,
    reservations: map<string, Reservation>,
    pools: map<string, Pool>,
    envs: map<string, ClowdEnv>,                    // keyed by target namespace
    clusterCrd: bool,                               // is the Cluster kind installed?
    clusters: map<string, map<string, bool>>,       // namespace -> cluster name -> terminating?
    nextVersion: nat,
    nextUid: nat,
    now: Time,
    // the operator's memory
    index: map<string, Time>,                       // Poller.activeReservations
    populated: bool,                                // populateActiveReservations has finished
    // history, read by no controller
    created: set<string>,                           // namespace names ever created
    ledger: map<string, Owner>,                     // last owner of every namespace ever adopted
    resNames: set<string>,                          // reservation names ever used
    reused: set<string>,                            // ... and used more than once
    filed: map<nat, Request>,                       // every reservation ever filed, by uid
    slack: map<string, Allowance>,                  // per pool: by how much it may be over its limit
    lost: set<string>,                              // popped by the poller and not registered since
    named: set<nat>,                                // reservation uids whose status has ever named a namespace
    drained: set<nat>,                              // ... whose namespace had no clusters when last listed
    released: set<nat>)                             // ... which left the store with their finalizer taken off

  datatype NsAction =
    | CreateNs(n: string)
    | Adopt(n: string, p: string, uid: nat)
    | Annotate(who: Actor, n: string, patch: Annotations)
    | DeleteNs(n: string)
    | Claim(n: string, k: string, uid: nat)
    | GcNs(n: string)
    | FinishNs(n: string)

  datatype ResAction =
    | UserCreate(k: string, spec: ResSpec)
    | UserDelete(k: string)
    | OpDelete(who: Actor, k: string)
    | SetWaiting(k: string, pool: string, e: Time)
    | Activate(k: string, n: string, pool: string, e: Time)
    | Refresh(k: string, pool: string, e: Time)
    | AddFinalizer(k: string)
    | MarkDraining(k: string)
    | ObserveDrained(k: string)
    | ObserveClusters(k: string)
    | ReleaseFinalizer(k: string)

  datatype IndexAction =
    | Register(who: Actor, k: string, e: Time)
    | Pop(k: string)
    | PopulateDone
    | Restart

  datatype PoolAction =
    | CountPool(p: string)
    | SetPoolStatus(p: string, status: PoolStatus)
    | CreatePool(p: string, spec: PoolSpec)
    | ResizePool(p: string, spec: PoolSpec)
    | DeletePool(p: string)

  datatype WorldAction =
    | SetEnv(who: Actor, n: string, env: ClowdEnv)
    | DropEnv(n: string)
    | DeleteCluster(n: string, c: string)
    | SetClusters(crd: bool, clusters: map<string, map<string, bool>>)
    | Tick(t: Time)

  datatype Action =
    | OnNs(ns: NsAction)
    | OnRes(res: ResAction)
    | OnIndex(idx: IndexAction)
    | OnPool(pool: PoolAction)
    | OnWorld(world: WorldAction)

  function ActorOf(a: Action): Actor {
    match a
    case OnNs(CreateNs(_)) => PoolWorker
    case OnNs(Adopt(_, _, _)) => PoolWorker
    case OnNs(Annotate(w, _, _)) => w
    case OnNs(DeleteNs(_)) => PoolWorker
    case OnNs(Claim(_, _, _)) => ReservationWorker
    case OnNs(_) => Outside
    case OnRes(UserCreate(_, _)) => Outside
    case OnRes(UserDelete(_)) => Outside
    case OnRes(OpDelete(w, _)) => w
    case OnRes(_) => ReservationWorker
    case OnIndex(Register(w, _, _)) => w
    case OnIndex(_) => PollWorker
    case OnPool(CountPool(_)) => PoolWorker
    case OnPool(SetPoolStatus(_, _)) => PoolWorker
    case OnPool(_) => Outside
    case OnWorld(SetEnv(w, _, _)) => w
    case OnWorld(DeleteCluster(_, _)) => ReservationWorker
    case OnWorld(_) => Outside
  }

  predicate Claims(a: Action) {
    a.OnNs? && a.ns.Claim?
  }

  // ------------------------------------------------------- store updates

  /** The version a written object gets. As in the API server, a write that changes nothing keeps it. */
  function PutNs(s: State, n: string, ns: Namespace): map<string, Namespace> {
    s.namespaces[n := ns.(version := NsVersion(s, n, ns))]
  }

  function NsVersion(s: State, n: string, ns: Namespace): nat {
    if n in s.namespaces && s.namespaces[n] == ns.(version := s.namespaces[n].version)
    then s.namespaces[n].version else s.nextVersion
  }

  function PutRes(s: State, k: string, r: Reservation): map<string, Reservation> {
    s.reservations[k := r.(version := ResVersion(s, k, r))]
  }

  function ResVersion(s: State, k: string, r: Reservation): nat {
    if k in s.reservations && s.reservations[k] == r.(version := s.reservations[k].version)
    then s.reservations[k].version else s.nextVersion
  }

  function PutPool(s: State, p: string, pool: Pool): map<string, Pool> {
    s.pools[p := pool.(version := PoolVersion(s, p, pool))]
  }

  function PoolVersion(s: State, p: string, pool: Pool): nat {
    if p in s.pools && s.pools[p] == pool.(version := s.pools[p].version)
    then s.pools[p].version else s.nextVersion
  }

  // ------------------------------------------------------------ counting

  /** What getPoolStatus adds to ready, creating or reserved for pool `p`. */
  predicate Counts(ns: Namespace, p: string, uid: nat) {
    && ns.pool == Some(p)
    && |ns.owners| == 1
    && (ns.owners[0].kind == ReservationKind
        || (ns.owners[0].uid == uid && (HasStatus(ns, Ready) || HasStatus(ns, Creating))))
  }

  predicate Counted(s: State, p: string, n: string) {
    p in s.pools && n in s.namespaces && Counts(s.namespaces[n], p, s.pools[p].uid)
  }

  function CountedSet(s: State, p: string): set<string> {
    set n | n in s.namespaces && Counted(s, p, n)
  }

  /** ready + creating + reserved */
  function Total(s: State, p: string): nat {
    |CountedSet(s, p)|
  }

  function Allowed(s: State, p: string): Allowance {
    if p in s.slack then s.slack[p] else Allowance(0, 0)
  }

  function Slack(s: State, p: string): nat {
    Allowed(s, p).excess + Allowed(s, p).revived
  }

  /** How many have become countable since the pool was last counted, not by creation. */
  function Revived(s: State, p: string): nat {
    Allowed(s, p).revived
  }

  function OneMoreRevived(s: State, p: string): Allowance {
    Allowed(s, p).(revived := Revived(s, p) + 1)
  }

  /** The slack after namespace `n` was rewritten as `ns`: a namespace that starts to count without
      having been created by the pool is charged to it. */
  function Charged(s: State, n: string, ns: Namespace): map<string, Allowance> {
    if ns.pool.Some? && ns.pool.value in s.pools && !Counted(s, ns.pool.value, n)
       && Counts(ns, ns.pool.value, s.pools[ns.pool.value].uid)
    then s.slack[ns.pool.value := OneMoreRevived(s, ns.pool.value)]
    else s.slack
  }

  // -------------------------------------------------------------- expiry

  /** `e` is an expiry the operator may hold for `r`: the exact one, or the one read back from the store. */
  predicate ExpiryOf(r: Reservation, e: Time) {
    match ParseDuration(r.spec.duration)
    case None => false
    case Some(d) => if d == 0 then r.created <= e else e == r.created + d || e == Persist(r.created + d)
  }

  /** `who` may delete `r` at time `now`: the reservation controller computes the expiry anew, the poller may hold one
      read back from the store. */
  predicate MayDelete(who: Actor, r: Reservation, now: Time) {
    match ParseDuration(r.spec.duration)
    case None => true
    case Some(d) => (if who == ReservationWorker then r.created + d else Persist(r.created + d)) <= now
  }

  // --------------------------------------------------------- transitions

  function StatusPatch(v: Value): Annotations {
    map[EnvStatus := v]
  }

  predicate AllowedPatch(who: Actor, patch: Annotations) {
    match who
    case PoolWorker => patch in {StatusPatch(Ready), StatusPatch(Error), StatusPatch(Deleting)}
    case ReservationWorker => patch == StatusPatch(Error)
    case EnvWorker => patch in {StatusPatch(Ready), StatusPatch(Error)}
                      || (patch.Keys == {CompletionTime} && patch[CompletionTime].Text?)
    case _ => false
  }

  predicate OwnerGone(s: State, o: Owner) {
    match o.kind
    case PoolKind => !(o.name in s.pools && s.pools[o.name].uid == o.uid)
    case ReservationKind => !(o.name in s.reservations && s.reservations[o.name].uid == o.uid)
  }

  predicate NoClusters(s: State, n: string) {
    !s.clusterCrd || n !in s.clusters || s.clusters[n] == map[]
  }

  predicate UnderLimit(s: State, p: string) {
    p in s.pools && s.pools[p].spec.sizeLimit.Some? ==> Total(s, p) < s.pools[p].spec.sizeLimit.value + Revived(s, p)
  }

  predicate BelowLimit(s: State, p: string, uid: nat) {
    p in s.pools && s.pools[p].uid == uid && s.pools[p].spec.sizeLimit.Some? ==> Total(s, p) < s.pools[p].spec.sizeLimit.value
  }

  predicate Indexed(s: State, k: string) {
    k in s.index || k in s.lost
  }

  /** Every active reservation that no one has deleted is indexed, or the poller has popped it. */
  predicate ActivesIndexed(s: State) {
    forall k | k in s.reservations ::
      s.reservations[k].status.state == Active && !s.reservations[k].marked ==> Indexed(s, k)
  }

  /** The pool a reservation is for. */
  function HomePool(spec: ResSpec): string {
    if spec.pool == "" then "default" else spec.pool
  }

  predicate NsEnabled(s: State, a: NsAction) {
    match a
    case CreateNs(n) => n !in s.created && n != ""
    case Adopt(n, p, uid) =>
      && n in s.namespaces && n !in s.ledger
      && (p in s.pools && s.pools[p].uid == uid ==> UnderLimit(s, p))
    case Annotate(w, n, patch) => n in s.namespaces && AllowedPatch(w, patch)
    case DeleteNs(n) => n in s.namespaces
    case Claim(n, k, uid) =>
      && n in s.namespaces && n in s.ledger && s.ledger[n].kind == PoolKind
      && uid !in s.named && uid in s.filed && s.filed[uid].name == k
      && s.namespaces[n].pool == Some(HomePool(s.filed[uid].spec))
    case GcNs(n) =>
      n in s.namespaces && s.namespaces[n].owners != []
      && forall o | o in s.namespaces[n].owners :: OwnerGone(s, o)
    case FinishNs(n) => n in s.namespaces && s.namespaces[n].terminating
  }

  /** The namespace object an action writes. */
  function NewNs(s: State, a: NsAction): Namespace
    requires NsEnabled(s, a)
  {
    match a
    case CreateNs(n) => Namespace(0, None, [], map[], false)
    case Adopt(n, p, uid) => Adopted(s.namespaces[n], p, uid)
    case Annotate(w, n, patch) => Annotated(s.namespaces[n], patch)
    case Claim(n, k, uid) => Claimed(s.namespaces[n], k, uid)
    case _ => s.namespaces[a.n].(terminating := true)
  }

  function NewLedger(s: State, a: NsAction): map<string, Owner> {
    match a
    case Adopt(n, p, uid) => s.ledger[n := Owner(PoolKind, p, uid)]
    case Claim(n, k, uid) => s.ledger[n := Owner(ReservationKind, k, uid)]
    case _ => s.ledger
  }

  function NewNamespaces(s: State, a: NsAction): map<string, Namespace>
    requires NsEnabled(s, a)
  {
    if a.FinishNs? then s.namespaces - {a.n} else PutNs(s, a.n, NewNs(s, a))
  }

  function NsApply(s: State, a: NsAction): State
    requires NsEnabled(s, a)
  {
    s.(namespaces := NewNamespaces(s, a),
       nextVersion := s.nextVersion + 1,
       created := if a.CreateNs? then s.created + {a.n} else s.created,
       ledger := NewLedger(s, a),
       slack := if a.Annotate? || a.Claim? then Charged(s, a.n, NewNs(s, a)) else s.slack)
  }

  /** The object UpdateNamespaceResources writes. */
  function Adopted(ns: Namespace, p: string, uid: nat): Namespace {
    ns.(pool := Some(p), owners := [Owner(PoolKind, p, uid)],
        annotations := ns.annotations + map[EnvStatus := Creating, Reserved := False])
  }

  /** The object UpdateAnnotations writes. */
  function Annotated(ns: Namespace, patch: Annotations): Namespace {
    ns.(annotations := ns.annotations + patch)
  }

  /** The object reserveNamespace writes. */
  function Claimed(ns: Namespace, k: string, uid: nat): Namespace {
    ns.(owners := [Owner(ReservationKind, k, uid)], annotations := ns.annotations[Reserved := True])
  }

  predicate ResEnabled(s: State, a: ResAction) {
    match a
    case UserCreate(k, spec) => k !in s.reservations && k != ""
    case UserDelete(k) => k in s.reservations
    case OpDelete(w, k) =>
      && w in {ReservationWorker, PollWorker} && k in s.reservations
      && (k in s.reused || MayDelete(w, s.reservations[k], s.now))
    case SetWaiting(k, pool, e) =>
      && k in s.reservations && !s.reservations[k].marked && s.reservations[k].status.state == Unset
      && pool == HomePool(s.reservations[k].spec)
    case Activate(k, n, pool, e) =>
      && k in s.reservations && !s.reservations[k].marked
      && s.reservations[k].status.state in {Unset, Waiting}
      && n in s.ledger && n != "" && s.ledger[n] == Owner(ReservationKind, k, s.reservations[k].uid)
      && ExpiryOf(s.reservations[k], e) && Indexed(s, k) && pool == HomePool(s.reservations[k].spec)
    case Refresh(k, pool, e) =>
      && k in s.reservations && !s.reservations[k].marked
      && s.reservations[k].status.state == Active
      && ExpiryOf(s.reservations[k], e) && pool == HomePool(s.reservations[k].spec)
    case AddFinalizer(k) =>
      k in s.reservations && !s.reservations[k].marked && s.reservations[k].status.namespace != ""
    case MarkDraining(k) =>
      && k in s.reservations && s.reservations[k].marked && s.reservations[k].finalizer
      && s.reservations[k].status.namespace != ""
    case ObserveDrained(k) =>
      && k in s.reservations && s.reservations[k].marked && s.reservations[k].status.namespace != ""
      && NoClusters(s, s.reservations[k].status.namespace)
    case ObserveClusters(k) =>
      && k in s.reservations && s.reservations[k].marked && s.reservations[k].status.namespace != ""
      && !NoClusters(s, s.reservations[k].status.namespace)
    case ReleaseFinalizer(k) =>
      && k in s.reservations && s.reservations[k].marked && s.reservations[k].finalizer
      && s.reservations[k].uid in s.drained
  }

  /** The reservation object an action writes. */
  function NewRes(s: State, a: ResAction): Reservation
    requires ResEnabled(s, a)
  {
    match a
    case UserCreate(k, spec) =>
      Reservation(0, s.nextUid, Persist(s.now), spec, false, false, ResStatus(Unset, "", "", 0))
    case SetWaiting(k, pool, e) => WithStatus(s.reservations[k], Waiting, s.reservations[k].status.namespace, pool, e)
    case Activate(k, n, pool, e) => WithStatus(s.reservations[k], Active, n, pool, e)
    case Refresh(k, pool, e) => WithStatus(s.reservations[k], Active, s.reservations[k].status.namespace, pool, e)
    case AddFinalizer(k) => s.reservations[k].(finalizer := true)
    case MarkDraining(k) => var r := s.reservations[k].status; WithStatus(s.reservations[k], Draining, r.namespace,
        r.pool, r.expiration)
    case _ => s.reservations[a.k].(marked := true)
  }

  /** A cleanup pass lists the clusters of the namespace; it writes nothing. */
  predicate Observes(a: ResAction) {
    a.ObserveDrained? || a.ObserveClusters?
  }

  /** Deleting an object without finalizers removes it, and so does taking the finalizer off a marked one. */
  predicate Removes(s: State, a: ResAction)
    requires ResEnabled(s, a)
  {
    a.ReleaseFinalizer? || ((a.UserDelete? || a.OpDelete?) && !s.reservations[a.k].finalizer)
  }

  function NewReservations(s: State, a: ResAction): map<string, Reservation>
    requires ResEnabled(s, a)
  {
    if Observes(a) then s.reservations
    else if Removes(s, a) then s.reservations - {a.k}
    else PutRes(s, a.k, NewRes(s, a))
  }

  function ResApply(s: State, a: ResAction): State
    requires ResEnabled(s, a)
  {
    s.(reservations := NewReservations(s, a),
       nextVersion := s.nextVersion + 1,
       nextUid := if a.UserCreate? then s.nextUid + 1 else s.nextUid,
       resNames := if a.UserCreate? then s.resNames + {a.k} else s.resNames,
       reused := if a.UserCreate? && a.k in s.resNames then s.reused + {a.k} else s.reused,
       filed := if a.UserCreate? then s.filed[s.nextUid := Request(a.k, a.spec)] else s.filed,
       named := if a.Activate? then s.named + {s.reservations[a.k].uid} else s.named,
       drained := NewDrained(s, a),
       released := if a.ReleaseFinalizer? then s.released + {s.reservations[a.k].uid} else s.released)
  }

  /** The last listing counts. */
  function NewDrained(s: State, a: ResAction): set<nat>
    requires ResEnabled(s, a)
  {
    if a.ObserveDrained? then s.drained + {s.reservations[a.k].uid}
    else if a.ObserveClusters? then s.drained - {s.reservations[a.k].uid}
    else s.drained
  }

  /** A status write; the store keeps the expiration in whole seconds. */
  function WithStatus(r: Reservation, state: ResState, n: string, pool: string, e: Time): Reservation {
    r.(status := ResStatus(state, n, pool, Persist(e)))
  }

  predicate IndexEnabled(s: State, a: IndexAction) {
    match a
    case Register(w, k, e) =>
      && w in {ReservationWorker, PollWorker} && k in s.resNames
      && (k in s.reservations && k !in s.reused ==> ExpiryOf(s.reservations[k], e))
    case Pop(k) => k in s.index && Expired(s.index[k], s.now)
    case PopulateDone => ActivesIndexed(s)
    case Restart => true
  }

  function IndexApply(s: State, a: IndexAction): State
    requires IndexEnabled(s, a)
  {
    match a
    case Register(w, k, e) => s.(index := s.index[k := e], lost := s.lost - {k})
    case Pop(k) => s.(index := s.index - {k}, lost := s.lost + {k})
    case PopulateDone => s.(populated := true)
    case Restart => s.(index := map[], populated := false, lost := {})
  }

  predicate PoolEnabled(s: State, a: PoolAction) {
    match a
    case CountPool(p) => p in s.pools
    case SetPoolStatus(p, status) => p in s.pools
    case CreatePool(p, spec) => p !in s.pools
    case ResizePool(p, spec) => p in s.pools && spec.sizeLimit == s.pools[p].spec.sizeLimit
    case DeletePool(p) => p in s.pools
  }

  function NewPools(s: State, a: PoolAction): map<string, Pool>
    requires PoolEnabled(s, a)
  {
    match a
    case CountPool(p) => s.pools
    case SetPoolStatus(p, status) => PutPool(s, p, s.pools[p].(status := status))
    case CreatePool(p, spec) => PutPool(s, p, Pool(0, s.nextUid, spec, PoolStatus(0, 0, 0)))
    case ResizePool(p, spec) => PutPool(s, p, s.pools[p].(spec := spec))
    case DeletePool(p) => s.pools - {p}
  }

  function PoolApply(s: State, a: PoolAction): State
    requires PoolEnabled(s, a)
  {
    var t := s.(pools := NewPools(s, a),
                nextVersion := s.nextVersion + 1,
                nextUid := if a.CreatePool? then s.nextUid + 1 else s.nextUid);
    if a.CreatePool? || a.CountPool? then t.(slack := s.slack[a.p := Allowance(Excess(t, a.p), 0)]) else t
  }

  /** By how much a pool is over its limit. A new one may be: reserved namespaces of an earlier pool of that name
      count. From each count of its namespaces on, only what comes on top is held against the others. */
  function Excess(s: State, p: string): nat
    requires p in s.pools
  {
    match s.pools[p].spec.sizeLimit
    case None => 0
    case Some(limit) => if Total(s, p) <= limit then 0 else Total(s, p) - limit
  }

  predicate WorldEnabled(s: State, a: WorldAction) {
    match a
    case SetEnv(w, n, env) => w in {PoolWorker, Outside} && n in s.created
    case DropEnv(n) => true
    case DeleteCluster(n, c) => n in s.clusters && c in s.clusters[n]
    case SetClusters(crd, clusters) => true
    case Tick(t) => s.now <= t
  }

  function WorldApply(s: State, a: WorldAction): State
    requires WorldEnabled(s, a)
  {
    match a
    case SetEnv(w, n, env) => s.(envs := s.envs[n := env])
    case DropEnv(n) => s.(envs := s.envs - {n})
    case DeleteCluster(n, c) => s.(clusters := s.clusters[n := s.clusters[n][c := true]])
    case SetClusters(crd, clusters) => s.(clusterCrd := crd, clusters := clusters)
    case Tick(t) => s.(now := t)
  }

  predicate Enabled(s: State, a: Action) {
    match a
    case OnNs(x) => NsEnabled(s, x)
    case OnRes(x) => ResEnabled(s, x)
    case OnIndex(x) => IndexEnabled(s, x)
    case OnPool(x) => PoolEnabled(s, x)
    case OnWorld(x) => WorldEnabled(s, x)
  }

  function Apply(s: State, a: Action): State
    requires Enabled(s, a)
  {
    match a
    case OnNs(x) => NsApply(s, x)
    case OnRes(x) => ResApply(s, x)
    case OnIndex(x) => IndexApply(s, x)
    case OnPool(x) => PoolApply(s, x)
    case OnWorld(x) => WorldApply(s, x)
  }

  /** What a pass that nothing runs against does: it deletes no namespace a reservation owns, claims only a namespace
      that is ready, and adopts one only below the size limit itself. */
  predicate Undisturbed(s: State, a: Action) {
    match a
    case OnNs(DeleteNs(n)) => n in s.namespaces ==> !HeldBy(s.namespaces[n], ReservationKind)
    case OnNs(Claim(n, k, uid)) => n in s.namespaces ==> HasStatus(s.namespaces[n], Ready)
    case OnNs(Adopt(n, p, uid)) => BelowLimit(s, p, uid)
    case _ => true
  }

  /** `run[0]`, `run[1]`, ... are the states of a run in which step `i` is `acts[i]`. */
  ghost predicate IsRun(run: seq<State>, acts: seq<Action>) {
    && |run| == |acts| + 1
    && forall i {:trigger acts[i]} | 0 <= i < |acts| :: Enabled(run[i], acts[i]) && run[i + 1] == Apply(run[i], acts[i])
  }
}
