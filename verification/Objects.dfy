/** The objects the operator reads and writes: namespaces, reservations, pools and
    ClowdEnvironments, with the fields the controllers look at. */
module Objects {

  datatype Option<+T> = None | Some(value: T)

  /** An API call answers with a value, with "not found", or with any other error. */
  datatype Reply<+T> = Ok(value: T) | NotFound | Conflict | Failed

  predicate NoDup(names: seq<string>) {
    forall i, j | 0 <= i < j < |names| :: names[i] != names[j]
  }

  /** The names of a set in some order. */
  method Enumerate(names: set<string>) returns (order: seq<string>)
    ensures NoDup(order) && (forall n :: n in order <==> n in names)
  {
    order := [];
    var left := names;
    while left != {}
      invariant NoDup(order) && left <= names && forall n :: n in order <==> n in names && n !in left
      decreases left
    {
      var n :| n in left;
      order := order + [n];
      left := left - {n};
    }
  }

  /** How a reconcile pass ends. */
  datatype Outcome = Done | Requeue | RequeueAfter | Failure

  // ---------------------------------------------------------------- time

  /** Nanoseconds, as Go's time.Duration counts them. Zero is Go's zero time. */
  type Time = int

  const SECOND: int := 1_000_000_000
  const HOUR: int := 3600 * SECOND

  /** Timestamps are stored with whole seconds: what a write of `t` reads back as. */
  function Persist(t: Time): (p: Time)
    ensures p <= t < p + SECOND && p % SECOND == 0
    ensures t % SECOND == 0 <==> p == t
  {
    t - t % SECOND
  }

  /** Poller.namespaceIsExpired */
  predicate Expired(e: Time, now: Time) {
    e != 0 && e <= now
  }

  // ---------------------------------------------------------- namespaces

  datatype Kind = PoolKind | ReservationKind

  datatype Owner = Owner(kind: Kind, name: string, uid: nat)

  datatype Key = EnvStatus | Reserved | CompletionTime

  datatype Value = Creating | Ready | Error | Deleting | True | False | Text(text: string)

  type Annotations = map<Key, Value>

  datatype Namespace = Namespace(
    version: nat,
    pool: Option<string>,      // the "pool" label
    owners: seq<Owner>,
    annotations: Annotations,
    terminating: bool)         // deletion timestamp set

  predicate HasStatus(ns: Namespace, v: Value) {
    EnvStatus in ns.annotations && ns.annotations[EnvStatus] == v
  }

  /** The namespace has a single owner, of the given kind. */
  predicate HeldBy(ns: Namespace, kind: Kind) {
    |ns.owners| == 1 && ns.owners[0].kind == kind
  }

  // -------------------------------------------------------- reservations

  /** Spec.Duration as time.ParseDuration sees it: empty, readable or malformed. */
  datatype DurationText = Empty | Readable(d: int) | Malformed

  /** parseDurationTime: an empty text stands for one hour. */
  function ParseDuration(t: DurationText): Option<int> {
    match t
    case Empty => Some(HOUR)
    case Readable(d) => Some(d)
    case Malformed => None
  }

  datatype ResSpec = ResSpec(duration: DurationText, pool: string, team: string, secretSource: string)

  datatype ResState = Unset | Waiting | Active | Draining   // Draining is the source's "deleting"

  datatype ResStatus = ResStatus(state: ResState, namespace: string, pool: string, expiration: Time)

  datatype Reservation = Reservation(
    version: nat,
    uid: nat,
    created: Time,
    spec: ResSpec,
    marked: bool,        // deletion timestamp set
    finalizer: bool,     // capi-cleanup.cloud.redhat.com
    status: ResStatus)

  /** getExpirationTime: a zero duration expires at the moment of asking. */
  function ExpirationTime(r: Reservation, now: Time): Option<Time> {
    match ParseDuration(r.spec.duration)
    case None => None
    case Some(d) => Some(if d == 0 then now else r.created + d)
  }

  /** namespacereservation_controller.go, lines 91-97: the pool a reservation draws from. */
  function PoolOf(r: Reservation): string {
    if r.status.pool != "" then r.status.pool
    else if r.spec.pool == "" then "default" else r.spec.pool
  }

  // --------------------------------------------------------------- pools

  datatype PoolStatus = PoolStatus(ready: int, creating: int, reserved: int)

  datatype PoolSpec = PoolSpec(
    size: int,
    sizeLimit: Option<int>,
    clowder: Option<string>,   // the web mode of its ClowdEnvironment template, if it has one
    quotas: nat)

  datatype Pool = Pool(version: nat, uid: nat, spec: PoolSpec, status: PoolStatus)

  // --------------------------------------------------- ClowdEnvironments

  datatype Condition = Condition(kind: string, status: string)

  datatype ClowdEnv = ClowdEnv(webMode: string, hostname: string, conditions: seq<Condition>)

  predicate HasCondition(conditions: seq<Condition>, kind: string) {
    exists i | 0 <= i < |conditions| :: conditions[i] == Condition(kind, "True")
  }

  /** What VerifyClowdEnvReady decides. */
  predicate EnvVerifies(env: ClowdEnv) {
    && !(env.webMode == "local" && env.hostname == "")
    && HasCondition(env.conditions, "ReconciliationSuccessful")
    && HasCondition(env.conditions, "DeploymentsReady")
  }

  /** The scan itself, with its two flags. */
  method VerifyClowdEnvReady(env: ClowdEnv) returns (ready: bool)
    ensures ready <==> EnvVerifies(env)
    ensures ready <==>
              && (env.webMode == "local" ==> env.hostname != "")
              && (exists i :: 0 <= i < |env.conditions| && env.conditions[i] == Condition("ReconciliationSuccessful", "True"))
              && (exists i :: 0 <= i < |env.conditions| && env.conditions[i] == Condition("DeploymentsReady", "True"))
  {
    if env.webMode == "local" && env.hostname == "" {
      return false;
    }
    var reconciled, deployed := false, false;
    for i := 0 to |env.conditions|
      invariant reconciled <==> HasCondition(env.conditions[..i], "ReconciliationSuccessful")
      invariant deployed <==> HasCondition(env.conditions[..i], "DeploymentsReady")
    {
      var c := env.conditions[i];
      HasConditionSnoc(env.conditions, i, "ReconciliationSuccessful");
      HasConditionSnoc(env.conditions, i, "DeploymentsReady");
      if c.kind == "ReconciliationSuccessful" && c.status == "True" {
        reconciled := true;
      }
      if c.kind == "DeploymentsReady" && c.status == "True" {
        deployed := true;
      }
    }
    assert env.conditions[..|env.conditions|] == env.conditions;
    ready := reconciled && deployed;
  }

  lemma HasConditionSnoc(cs: seq<Condition>, i: nat, kind: string)
    requires i < |cs|
    ensures HasCondition(cs[..i + 1], kind) <==> HasCondition(cs[..i], kind) || cs[i] == Condition(kind, "True")
  {
    assert cs[..i + 1] == cs[..i] + [cs[i]];
    if HasCondition(cs[..i], kind) {
      var j :| 0 <= j < i && cs[..i][j] == Condition(kind, "True");
      assert cs[..i + 1][j] == Condition(kind, "True");
    }
    if cs[i] == Condition(kind, "True") {
      assert cs[..i + 1][i] == Condition(kind, "True");
    }
  }
}
