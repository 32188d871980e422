/** What a pass of the reservation controller leaves behind and how it ends, in terms of the objects alone. */
module ReservationOutcomes {
  import opened Objects
  import opened Protocol
  import opened Invariant
  import opened Execution
  import opened ApiServer
  import opened ReadyLists
  import opened ReservationPlans

  // ---------------------------------------------------------- searching

  /** Active until `e` on a namespace that was free, and verified if the pool has environments. */
  predicate NowActive(s: State, t: State, k: string, pool: string, e: Time) {
    && k in t.reservations && t.reservations[k].status.state == Active && t.reservations[k].finalizer
    && t.reservations[k].status.pool == pool && t.reservations[k].status.expiration == e - e % 1_000_000_000
    && k in t.index && t.index[k] == e
    && var n := t.reservations[k].status.namespace;
       n in s.namespaces && Free(s.namespaces[n], pool) && MayServe(s, n, pool)
  }

  /** The pool is there, and if its namespaces have environments, then this one's verifies. */
  predicate MayServe(s: State, n: string, pool: string) {
    && pool in s.pools
    && (s.pools[pool].spec.clowder.Some? ==> n in s.envs && EnvVerifies(s.envs[n]))
  }

  /** How the search of an unassigned reservation ends. A malformed one is deleted, and without a free namespace it waits and
      is tried again; otherwise it is active now, or nothing is different for it and the pass has failed. */
  predicate SearchEnds(s: State, t: State, k: string, out: Outcome)
    requires k in s.reservations
  {
    var r := s.reservations[k];
    var pool := if r.spec.pool == "" then "default" else r.spec.pool;
    match r.spec.duration
    case Malformed => out == Failure && k !in t.reservations
    case Readable(d) => FoundEnds(s, t, k, pool, if d == 0 then s.now else r.created + d, out)
    case Empty => FoundEnds(s, t, k, pool, r.created + 3_600_000_000_000, out)
  }

  predicate FoundEnds(s: State, t: State, k: string, pool: string, e: Time, out: Outcome)
    requires k in s.reservations
  {
    if NoneFree(s.namespaces, pool) then
      out == Requeue && k in t.reservations && Waits(s.reservations[k], t.reservations[k], pool, e)
    else if out == Done then NowActive(s, t, k, pool, e)
    else out == Failure && t.reservations == s.reservations
  }

  /** A reservation that has just begun to wait has pool and expiry in its status; another is as it was. */
  predicate Waits(r: Reservation, r': Reservation, pool: string, e: Time) {
    && r'.status.state == Waiting && r'.status.namespace == r.status.namespace
    && if r.status.state == Unset then r'.status.pool == pool && r'.status.expiration == e - e % 1_000_000_000
       else r'.status == r.status
  }

  /** A waiting reservation that has expired is deleted, and a malformed one is left alone. */
  predicate WaitEnds(s: State, t: State, k: string, out: Outcome)
    requires k in s.reservations
  {
    var r := s.reservations[k];
    if r.spec.duration == Malformed then out == Failure && t.reservations == s.reservations
    else if ExpiredBy(r, s.now) then out == Done && k !in t.reservations
    else SearchEnds(s, t, k, out)
  }

  /** Its time has come: the moment it asked for, if that is not the zero time, has been reached. */
  predicate ExpiredBy(r: Reservation, now: Time) {
    match r.spec.duration
    case Readable(d) => if d == 0 then now != 0 else r.created + d != 0 && r.created + d <= now
    case Empty => r.created + 3_600_000_000_000 != 0 && r.created + 3_600_000_000_000 <= now
    case Malformed => false
  }

  lemma ExpiryReached(r: Reservation, now: Time)
    ensures ExpirationTime(r, now).None? <==> r.spec.duration == Malformed
    ensures ExpirationTime(r, now).Some? ==> (Expired(ExpirationTime(r, now).value, now) <==> ExpiredBy(r, now))
  {
  }

  lemma WaitDone(s: State, k: string, pool: string, e: Time, t: State)
    requires Exec(s, [OnRes(SetWaiting(k, pool, e))]) == Some(t)
    ensures k in s.reservations && k in t.reservations && Waits(s.reservations[k], t.reservations[k], pool, e)
  {
    hide Exec;
    ExecOne(s, OnRes(SetWaiting(k, pool, e)));
    ResAfter(s, SetWaiting(k, pool, e));
  }

  /** A reservation without finalizer is gone once it is deleted. */
  lemma DeleteDone(s: State, k: string, t: State)
    requires Exec(s, [OnRes(OpDelete(ReservationWorker, k))]) == Some(t)
    requires k in s.reservations && !s.reservations[k].finalizer
    ensures k !in t.reservations
  {
    hide Exec, MayDelete;
    ExecOne(s, OnRes(OpDelete(ReservationWorker, k)));
    ResAfter(s, OpDelete(ReservationWorker, k));
  }

  lemma AssignDone(s: State, k: string, uid: nat, n: string, pool: string, e: Time, t: State)
    requires Exec(s, AssignPlan(k, uid, n, pool, e)) == Some(t)
    requires n in s.namespaces && Free(s.namespaces[n], pool) && MayServe(s, n, pool)
    ensures NowActive(s, t, k, pool, e)
  {
    hide Exec, Free, Step, MayServe;
    var a, b := OnNs(Claim(n, k, uid)), OnIndex(Register(ReservationWorker, k, e));
    var c, d := OnRes(Activate(k, n, pool, e)), OnRes(AddFinalizer(k));
    assert AssignPlan(k, uid, n, pool, e) == [a, b] + [c, d];
    ExecAppend(s, [a, b], [c, d]);
    ExecTwo(s, a, b);
    var u := Exec(s, [a, b]).value;
    ExecTwo(u, c, d);
    Registered(Step(s, a).value, k, e);
    ActivatedAndFinalized(u, k, n, pool, e);
  }

  lemma Registered(s: State, k: string, e: Time)
    ensures var t := Step(s, OnIndex(Register(ReservationWorker, k, e)));
            t.Some? ==> k in t.value.index && t.value.index[k] == e
  {
  }

  lemma ActivatedAndFinalized(s: State, k: string, n: string, pool: string, e: Time)
    ensures var u := Step(s, OnRes(Activate(k, n, pool, e)));
            u.Some? && Step(u.value, OnRes(AddFinalizer(k))).Some? ==>
              var t := Step(u.value, OnRes(AddFinalizer(k))).value;
              && k in t.reservations && t.reservations[k].status.state == Active && t.reservations[k].finalizer
              && t.reservations[k].status.pool == pool && t.reservations[k].status.namespace == n
              && t.reservations[k].status.expiration == Persist(e) && t.index == s.index
  {
    hide ExpiryOf, Indexed;
    var a, b := Activate(k, n, pool, e), AddFinalizer(k);
    if ResEnabled(s, a) {
      ResAfter(s, a);
      var u := ResApply(s, a);
      if ResEnabled(u, b) {
        ResAfter(u, b);
      }
    }
  }

  // ------------------------------------------------------------- active

  /** An active reservation carries the finalizer now, and index and status have the expiry it asked for. */
  ghost predicate Refreshed(s: State, t: State, k: string)
    requires k in s.reservations
  {
    && k in t.reservations && t.reservations[k].finalizer
    && t.reservations[k].status.state == Active
    && t.reservations[k].status.namespace == s.reservations[k].status.namespace
    && t.reservations[k].status.pool == s.reservations[k].status.pool
    && forall d | s.reservations[k].spec.duration == Readable(d)
                  || (s.reservations[k].spec.duration == Empty && d == 3_600_000_000_000) ::
         var e := if d == 0 then s.now else s.reservations[k].created + d;
         && k in t.index && t.index[k] == e
         && t.reservations[k].status.expiration == e - e % 1_000_000_000
  }

  lemma ActiveDone(s: State, k: string, t: State)
    requires Inv(s) && k in s.reservations && s.reservations[k].status.state == Active
    requires Exec(s, ActivePlan(s, k)) == Some(t)
    ensures Refreshed(s, t, k)
  {
    hide Exec, Inv, RefreshPlan;
    var r := s.reservations[k];
    var first := if r.finalizer then [] else [OnRes(AddFinalizer(k))];
    var pool := if r.finalizer then PoolOf(r) else r.status.pool;
    ExecAppend(s, first, RefreshPlan(k, pool, ExpirationTime(r, s.now)));
    var u := Exec(s, first).value;
    FinalizerDone(s, k, first, u);
    ActiveReadable(s, k);
    RefreshDone(u, k, pool, ExpirationTime(r, s.now).value, t);
  }

  lemma ActiveReadable(s: State, k: string)
    requires Inv(s) && k in s.reservations && s.reservations[k].status.state == Active
    ensures ExpirationTime(s.reservations[k], s.now).Some? && s.reservations[k].status.pool != ""
  {
    hide VersionsInv, OwnershipInv, LifecycleInv, IndexInv, HistoryInv, LimitInv;
  }

  lemma FinalizerDone(s: State, k: string, first: seq<Action>, t: State)
    requires k in s.reservations && Exec(s, first) == Some(t)
    requires first == if s.reservations[k].finalizer then [] else [OnRes(AddFinalizer(k))]
    ensures k in t.reservations && t.reservations[k].finalizer && t.reservations[k].status == s.reservations[k].status
    ensures t.now == s.now
  {
    hide Exec;
    NothingExec(s);
    if !s.reservations[k].finalizer {
      ExecOne(s, OnRes(AddFinalizer(k)));
      ResAfter(s, AddFinalizer(k));
    }
  }

  lemma RefreshDone(s: State, k: string, pool: string, e: Time, t: State)
    requires k in s.reservations && s.reservations[k].finalizer
    requires Exec(s, RefreshPlan(k, pool, Some(e))) == Some(t)
    ensures k in t.reservations && t.reservations[k].finalizer
    ensures t.reservations[k].status == ResStatus(Active, s.reservations[k].status.namespace, pool, Persist(e))
    ensures k in t.index && t.index[k] == e
  {
    hide Exec, ExpiryOf;
    var a, b := Register(ReservationWorker, k, e), Refresh(k, pool, e);
    ExecTwo(s, OnIndex(a), OnRes(b));
    assert RefreshPlan(k, pool, Some(e)) == [OnIndex(a), OnRes(b)];
    if IndexEnabled(s, a) {
      var u := IndexApply(s, a);
      if ResEnabled(u, b) {
        ResAfter(u, b);
      }
    }
  }

  // ------------------------------------------------------------ all of it

  /** One that is to go goes with its last cluster, and until then it is held back and looked at again later. */
  predicate CleanupEnds(s: State, t: State, k: string, out: Outcome)
    requires k in s.reservations
  {
    if NoClusters(s, s.reservations[k].status.namespace) then out == Done && k !in t.reservations
    else
      && out == RequeueAfter && k in t.reservations
      && t.reservations[k].finalizer && t.reservations[k].status.state == Draining
  }

  /** How a pass ends, and what it leaves of the reservation, if nothing runs against it and no call fails. */
  ghost predicate PassEnds(s: State, t: State, k: string, out: Outcome) {
    if k !in s.reservations then out == Done && t.reservations == s.reservations
    else if s.reservations[k].marked then CleanupEnds(s, t, k, out)
    else
      match s.reservations[k].status.state
      case Active => out == Done && Refreshed(s, t, k)
      case Waiting => WaitEnds(s, t, k, out)
      case _ => SearchEnds(s, t, k, out)
  }
}
