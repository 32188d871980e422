/** Repeated passes over one reservation, left alone and without failures, are a search through the ready list. */
module RetrySearch {
  import opened Objects
  import opened Protocol
  import opened Invariant
  import opened Execution
  import opened ApiServer
  import opened Namespaces
  import opened ReadyLists
  import opened ReservationPlans

  /** The state after `m` passes. */
  function Passes(s: State, k: string, order: seq<string>, clusterOrder: seq<string>, m: nat): Option<State> {
    if m == 0 then Some(s)
    else
      match Passes(s, k, order, clusterOrder, m - 1)
      case None => None
      case Some(t) => Exec(t, ReconcilePlan(t, k, order, clusterOrder))
  }

  /** A reservation in want of a namespace, and not past its time. */
  predicate Seeking(s: State, k: string) {
    && k in s.reservations && !s.reservations[k].marked && s.reservations[k].status.state in {Unset, Waiting}
    && ExpirationTime(s.reservations[k], s.now).Some?
    && (s.reservations[k].status.state == Waiting ==> !Expired(ExpirationTime(s.reservations[k], s.now).value, s.now))
    && PoolOf(s.reservations[k]) in s.pools
  }

  /** Only the environment of a Clowder pool is verified. */
  predicate Suits(s: State, pool: string, n: string)
    requires pool in s.pools
  {
    s.pools[pool].spec.clowder.Some? ==> n in s.envs && EnvVerifies(s.envs[n])
  }

  /** The reference: the first item that suits. */
  function FirstSuitable(s: State, pool: string, items: seq<Item>): (j: nat)
    requires pool in s.pools
    ensures j <= |items| && (forall i | 0 <= i < j :: !Suits(s, pool, items[i].name))
    ensures j < |items| ==> Suits(s, pool, items[j].name)
  {
    if items == [] || Suits(s, pool, items[0].name) then 0 else 1 + FirstSuitable(s, pool, items[1..])
  }

  /** Exactly these namespaces have got the error status, and nothing else has changed. */
  ghost predicate ErrorMarked(m: map<string, Namespace>, m': map<string, Namespace>, items: seq<Item>) {
    && m.Keys == m'.Keys
    && (forall i | 0 <= i < |items| :: items[i].name in m)
    && forall n | n in m ::
         if n in Names(items) then InErrorNow(m[n], m'[n]) else m'[n] == m[n]
  }

  /** The namespace has the reservation as its only owner now and is marked as reserved, and all else is as before. */
  ghost predicate TakenBy(ns: Namespace, ns': Namespace, k: string, uid: nat) {
    && ns'.pool == ns.pool && ns'.terminating == ns.terminating && ns'.owners == [Owner(ReservationKind, k, uid)]
    && Reserved in ns'.annotations && ns'.annotations[Reserved] == True
    && forall key | key != Reserved ::
         && (key in ns.annotations <==> key in ns'.annotations)
         && (key in ns.annotations ==> ns'.annotations[key] == ns.annotations[key])
  }

  // ------------------------------------------------------------- one pass

  /** The state is as before but for one namespace. */
  ghost predicate SameView(s: State, t: State) {
    t.reservations == s.reservations && t.pools == s.pools && t.envs == s.envs && t.now == s.now && t.resNames == s.resNames
  }

  lemma SeekingPlan(s: State, k: string, order: seq<string>, clusterOrder: seq<string>)
    requires Seeking(s, k)
    ensures ReconcilePlan(s, k, order, clusterOrder) == UnassignedPlan(s, k, order)
  {
  }

  lemma MarkPass(s: State, k: string, order: seq<string>, clusterOrder: seq<string>)
    requires Inv(s) && Seeking(s, k) && Covers(order, s.namespaces)
    requires var pool := PoolOf(s.reservations[k]);
             ReadyOf(s, pool, order) != [] && !Suits(s, pool, ReadyOf(s, pool, order)[0].name)
    ensures var pool := PoolOf(s.reservations[k]); var r := ReadyOf(s, pool, order); var n := r[0].name;
            var t := Exec(s, ReconcilePlan(s, k, order, clusterOrder));
            && t.Some? && Inv(t.value) && SameView(s, t.value) && Covers(order, t.value.namespaces)
            && ReadyOf(t.value, pool, order) == r[1..]
            && n in s.namespaces && HasStatus(s.namespaces[n], Ready)
            && n in t.value.namespaces && SameBut(s.namespaces, t.value.namespaces, n)
            && t.value.namespaces[n] == Annotated(s.namespaces[n],
                StatusPatch(Error)).(version := t.value.namespaces[n].version)
  {
    hide Inv, Exec, Step, ReadyOf, Covers, EnvVerifies, ReconcilePlan, NsEnabled, NewNs, Seeking;
    SeekingPlan(s, k, order, clusterOrder);
    SeekingFacts(s, k);
    var pool := PoolOf(s.reservations[k]);
    FirstOfReady(s, pool, order);
    var n := ReadyOf(s, pool, order)[0].name;
    var a := Annotate(ReservationWorker, n, StatusPatch(Error));
    MarkWrites(s, n);
    WriteExec(s, a);
    ExecOne(s, OnNs(a));
    ExecInv(s, [OnNs(a)]);
    HeadMarked(s, Step(s, OnNs(a)).value, pool, order);
    SameKeysCover(s, Step(s, OnNs(a)).value, n, order);
  }

  lemma SeekingFacts(s: State, k: string)
    requires Seeking(s, k)
    ensures k in s.reservations && PoolOf(s.reservations[k]) in s.pools
    ensures ExpirationTime(s.reservations[k], s.now).Some?
    ensures !s.reservations[k].marked && s.reservations[k].status.state in {Unset, Waiting}
  {
  }

  lemma MarkWrites(s: State, n: string)
    requires n in s.namespaces
    ensures var a := Annotate(ReservationWorker, n, StatusPatch(Error));
            && NsEnabled(s, a) && NewNs(s, a) == Annotated(s.namespaces[n], StatusPatch(Error))
    ensures forall v: nat :: !IsReady(Annotated(s.namespaces[n], StatusPatch(Error)).(version := v))
  {
  }

  lemma SameKeysCover(s: State, t: State, n: string, order: seq<string>)
    requires Covers(order, s.namespaces) && SameBut(s.namespaces, t.namespaces, n) && n in s.namespaces
    requires n in t.namespaces
    ensures Covers(order, t.namespaces) && t.namespaces.Keys == s.namespaces.Keys
  {
  }

  // ------------------------------------------------- the passes before the find

  /** As long as nothing suits, each pass marks the next ready namespace and leaves the rest of the list. */
  lemma {:induction false} SearchMarks(s: State, k: string, order: seq<string>, clusterOrder: seq<string>, m: nat)
    requires Inv(s) && Seeking(s, k) && Covers(order, s.namespaces)
    requires var pool := PoolOf(s.reservations[k]); m <= FirstSuitable(s, pool, ReadyOf(s, pool, order))
    ensures var pool := PoolOf(s.reservations[k]); var r := ReadyOf(s, pool, order);
            var t := Passes(s, k, order, clusterOrder, m);
            && t.Some? && Inv(t.value) && SameView(s, t.value) && Covers(order, t.value.namespaces)
            && ReadyOf(t.value, pool, order) == r[m..]
            && ErrorMarked(s.namespaces, t.value.namespaces, r[..m])
  {
    hide Inv, Exec, ReadyOf, Covers, EnvVerifies, ReconcilePlan, ErrorMarked;
    var pool := PoolOf(s.reservations[k]);
    var r := ReadyOf(s, pool, order);
    if m == 0 {
      NothingMarked(s.namespaces, r);
    } else {
      SearchMarks(s, k, order, clusterOrder, m - 1);
      var t := Passes(s, k, order, clusterOrder, m - 1).value;
      assert r[m - 1..][0] == r[m - 1] && r[m - 1..][1..] == r[m..];
      assert !Suits(t, pool, r[m - 1].name) by { SameSuits(s, t, pool, r[m - 1].name); }
      MarkPass(t, k, order, clusterOrder);
      var u := Passes(s, k, order, clusterOrder, m).value;
      OneMoreMarked(s.namespaces, t.namespaces, u.namespaces, r, m - 1);
    }
  }

  lemma SameSuits(s: State, t: State, pool: string, n: string)
    requires SameView(s, t) && pool in s.pools
    ensures Suits(t, pool, n) == Suits(s, pool, n)
  {
  }

  lemma NothingMarked(m: map<string, Namespace>, items: seq<Item>)
    ensures ErrorMarked(m, m, items[..0])
  {
  }

  lemma MarkedIsNotReady(m: map<string, Namespace>, m': map<string, Namespace>, items: seq<Item>, n: string)
    requires ErrorMarked(m, m', items) && n in m && n in m' && HasStatus(m'[n], Ready)
    ensures n !in Names(items)
  {
  }

  lemma AnnotatedInError(ns: Namespace, version: nat)
    ensures InErrorNow(ns, Annotated(ns, StatusPatch(Error)).(version := version))
  {
  }

  lemma ClaimedIsTaken(ns: Namespace, version: nat, k: string, uid: nat)
    ensures TakenBy(ns, Claimed(ns, k, uid).(version := version), k, uid)
  {
  }

  lemma OneMoreMarked(m: map<string, Namespace>, m': map<string, Namespace>, m'': map<string, Namespace>,
      items: seq<Item>, i: nat)
    requires i < |items| && ErrorMarked(m, m', items[..i])
    requires var n := items[i].name;
             && n in m' && HasStatus(m'[n], Ready) && n in m'' && SameBut(m', m'', n)
             && m''[n] == Annotated(m'[n], StatusPatch(Error)).(version := m''[n].version)
    ensures ErrorMarked(m, m'', items[..i + 1])
  {
    var n := items[i].name;
    var before, after := Names(items[..i]), Names(items[..i + 1]);
    assert after == before + [n];
    MarkedIsNotReady(m, m', items[..i], n);
    AnnotatedInError(m'[n], m''[n].version);
    assert n !in before;
    forall x | x in m
      ensures if x in after then InErrorNow(m[x], m''[x]) else m''[x] == m[x]
    {
      assert x in after <==> x in before || x == n;
    }
    var marked := items[..i + 1];
    forall j | 0 <= j < |marked| ensures marked[j].name in m {
      if j < i {
        assert marked[j] == items[..i][j];
      }
    }
  }

  // --------------------------------------------------------------- the find

  lemma AssignPass(s: State, k: string, order: seq<string>, clusterOrder: seq<string>)
    requires Inv(s) && Seeking(s, k) && Covers(order, s.namespaces)
    requires var pool := PoolOf(s.reservations[k]);
             ReadyOf(s, pool, order) != [] && Suits(s, pool, ReadyOf(s, pool, order)[0].name)
    ensures var r := s.reservations[k]; var pool := PoolOf(r); var n := ReadyOf(s, pool, order)[0].name;
            var t := Exec(s, ReconcilePlan(s, k, order, clusterOrder));
            && t.Some? && k in t.value.reservations
            && t.value.reservations[k].status == ResStatus(Active, n, pool, Persist(ExpirationTime(r, s.now).value))
            && t.value.reservations[k].finalizer
            && k in t.value.index && t.value.index[k] == ExpirationTime(r, s.now).value
            && n in s.namespaces && n in t.value.namespaces && SameBut(s.namespaces, t.value.namespaces, n)
            && s.namespaces[n].pool == Some(pool) && TakenBy(s.namespaces[n], t.value.namespaces[n], k, r.uid)
  {
    hide Inv, Exec, Step, ReadyOf, Covers, EnvVerifies, ReconcilePlan, NsEnabled, NewNs, Seeking, IndexEnabled,
         IndexApply, TakenBy, HomePool, PoolOf;
    SeekingPlan(s, k, order, clusterOrder);
    SeekingFacts(s, k);
    var r := s.reservations[k];
    var pool := PoolOf(r);
    var e := ExpirationTime(r, s.now).value;
    FirstOfReady(s, pool, order);
    var n := ReadyOf(s, pool, order)[0].name;
    var a, b := OnNs(Claim(n, k, r.uid)), OnIndex(Register(ReservationWorker, k, e));
    DrawnPool(s, k);
    ClaimWrites(s, n, k);
    WriteExec(s, a.ns);
    var s1 := Step(s, a).value;
    ClaimedIsTaken(s.namespaces[n], s1.namespaces[n].version, k, r.uid);
    RegisterStep(s, s1, k, e);
    var s2 := Step(s1, b).value;
    ActivateAndFinalize(s2, k, n, pool, e);
    ExecTwo(s, a, b);
    ExecAppend(s, [a, b], ConfirmPlan(k, n, pool, e)[1..]);
    assert AssignPlan(k, r.uid, n, pool, e) == [a, b] + ConfirmPlan(k, n, pool, e)[1..];
  }

  lemma ClaimWrites(s: State, n: string, k: string)
    requires Inv(s) && n in s.namespaces && IsReady(s.namespaces[n])
    requires k in s.reservations && s.reservations[k].status.state in {Unset, Waiting}
    requires s.namespaces[n].pool == Some(HomePool(s.reservations[k].spec))
    ensures var uid := s.reservations[k].uid; var a := Claim(n, k, uid);
            && NsEnabled(s, a) && NewNs(s, a) == Claimed(s.namespaces[n], k, uid) && n != ""
            && n in NewLedger(s, a) && NewLedger(s, a)[n] == Owner(ReservationKind, k, uid)
  {
    hide HomePool;
    KnownReservation(s, k);
    assert DrawsOf(s.filed, k, s.reservations[k]);
  }

  lemma DrawnPool(s: State, k: string)
    requires Inv(s) && k in s.reservations
    ensures PoolOf(s.reservations[k]) == HomePool(s.reservations[k].spec)
  {
    assert DrawsOf(s.filed, k, s.reservations[k]);
  }

  lemma KnownReservation(s: State, k: string)
    requires Inv(s) && k in s.reservations
    ensures OwnershipInv(s) && s.reservations[k].uid < s.nextUid && k in s.resNames
    ensures s.reservations[k].created <= s.now
  {
  }

  lemma RegisterStep(s: State, s1: State, k: string, e: Time)
    requires Inv(s) && k in s.reservations && ExpirationTime(s.reservations[k], s.now) == Some(e)
    requires s1.reservations == s.reservations && s1.resNames == s.resNames
    ensures var t := Step(s1, OnIndex(Register(ReservationWorker, k, e)));
            && t.Some? && t.value.reservations == s1.reservations && t.value.namespaces == s1.namespaces
            && t.value.ledger == s1.ledger && Indexed(t.value, k) && ExpiryOf(s.reservations[k], e)
            && t.value.index == s1.index[k := e]
  {
    KnownReservation(s, k);
  }

  lemma ActivateAndFinalize(s: State, k: string, n: string, pool: string, e: Time)
    requires k in s.reservations && !s.reservations[k].marked && s.reservations[k].status.state in {Unset, Waiting}
    requires n != "" && n in s.ledger && s.ledger[n] == Owner(ReservationKind, k, s.reservations[k].uid)
    requires Indexed(s, k) && ExpiryOf(s.reservations[k], e) && pool == HomePool(s.reservations[k].spec)
    ensures var t := Exec(s, ConfirmPlan(k, n, pool, e)[1..]);
            && t.Some? && t.value.index == s.index
            && t.value.namespaces == s.namespaces && k in t.value.reservations
            && t.value.reservations[k].status == ResStatus(Active, n, pool, Persist(e)) && t.value.reservations[k].finalizer
  {
    hide Exec;
    var a, b := Activate(k, n, pool, e), AddFinalizer(k);
    ResAfter(s, a);
    var s1 := ResApply(s, a);
    assert Step(s, OnRes(a)) == Some(s1);
    ResAfter(s1, b);
    assert Step(s1, OnRes(b)) == Some(ResApply(s1, b));
    ExecTwo(s, OnRes(a), OnRes(b));
    assert ConfirmPlan(k, n, pool, e)[1..] == [OnRes(a), OnRes(b)];
  }

  // -------------------------------------------------------- nothing to find

  lemma WaitPass(s: State, k: string, order: seq<string>, clusterOrder: seq<string>)
    requires Inv(s) && Seeking(s, k) && ReadyOf(s, PoolOf(s.reservations[k]), order) == []
    ensures var t := Exec(s, ReconcilePlan(s, k, order, clusterOrder));
            && t.Some? && t.value.namespaces == s.namespaces && k in t.value.reservations
            && t.value.reservations[k].status.state == Waiting
  {
    hide Inv, Exec, ReadyOf, ReconcilePlan;
    SeekingPlan(s, k, order, clusterOrder);
    NothingExec(s);
    DrawnPool(s, k);
    if s.reservations[k].status.state == Unset {
      var a := SetWaiting(k, PoolOf(s.reservations[k]), ExpirationTime(s.reservations[k], s.now).value);
      ResAfter(s, a);
      assert Step(s, OnRes(a)) == Some(ResApply(s, a));
      ExecOne(s, OnRes(a));
    }
  }

  // ------------------------------------------------------------ the theorem

  /** The reservation is active on a namespace of this pool, carries the finalizer, and will expire when it asked to. */
  ghost predicate ActiveOn(s: State, t: State, k: string, n: string, pool: string)
    requires k in s.reservations
  {
    && k in t.reservations && t.reservations[k].finalizer
    && t.reservations[k].status.state == Active && t.reservations[k].status.namespace == n
    && t.reservations[k].status.pool == pool
    && n in s.namespaces && s.namespaces[n].pool == Some(pool)
    && forall d | s.reservations[k].spec.duration == Readable(d)
                  || (s.reservations[k].spec.duration == Empty && d == 3_600_000_000_000) ::
         var e := if d == 0 then s.now else s.reservations[k].created + d;
         && k in t.index && t.index[k] == e
         && t.reservations[k].status.expiration == e - e % 1_000_000_000
  }

  /** None suits: all are marked, and the reservation waits. */
  ghost predicate GaveUp(s: State, t: State, k: string, r: seq<Item>) {
    && k in t.reservations && t.reservations[k].status.state == Waiting
    && ErrorMarked(s.namespaces, t.namespaces, r)
  }

  /** The reservation has item `j`, the ones before it are marked, and no other namespace has changed. */
  ghost predicate Took(s: State, t: State, k: string, pool: string, r: seq<Item>, j: nat)
    requires j < |r|
  {
    var n := r[j].name;
    && k in s.reservations && k in t.reservations && ActiveOn(s, t, k, n, pool)
    && n in s.namespaces && n in t.namespaces && TakenBy(s.namespaces[n], t.namespaces[n], k, s.reservations[k].uid)
    && ErrorMarked(s.namespaces, t.namespaces[n := s.namespaces[n]], r[..j])
  }

  /** Within one pass more than there are ready namespaces, the reservation is active on the first one that suits,
      exactly the ones before it are marked, and nothing else has changed; or none suits, all are marked and it waits. */
  lemma RetryRefinesSearch(s: State, k: string, order: seq<string>, clusterOrder: seq<string>)
    requires Inv(s) && Seeking(s, k) && Covers(order, s.namespaces)
    ensures var res := s.reservations[k]; var pool := if res.spec.pool == "" then "default" else res.spec.pool;
            var r := ReadyOf(s, pool, order);
            var j := if pool in s.pools then FirstSuitable(s, pool, r) else 0;
            var t := Passes(s, k, order, clusterOrder, j + 1);
            && pool in s.pools && j <= |r| && t.Some?
            && if j == |r| then GaveUp(s, t.value, k, r) else Took(s, t.value, k, pool, r, j)
  {
    hide Inv, Exec, ReadyOf, Covers, EnvVerifies, ReconcilePlan, ErrorMarked, TakenBy;
    DrawnPool(s, k);
    var pool := PoolOf(s.reservations[k]);
    var r := ReadyOf(s, pool, order);
    var j := FirstSuitable(s, pool, r);
    SearchMarks(s, k, order, clusterOrder, j);
    var t := Passes(s, k, order, clusterOrder, j).value;
    if j == |r| {
      assert r[..j] == r;
      WaitPass(t, k, order, clusterOrder);
    } else {
      assert r[j..][0] == r[j];
      SameSuits(s, t, pool, r[j].name);
      AssignPass(t, k, order, clusterOrder);
      TakenAfterMarks(s, t, Passes(s, k, order, clusterOrder, j + 1).value, r, j, order, pool, k);
    }
  }

  lemma TakenAfterMarks(s: State, t: State, u: State, r: seq<Item>, j: nat, order: seq<string>, pool: string, k: string)
    requires j < |r| && ErrorMarked(s.namespaces, t.namespaces, r[..j])
    requires Covers(order, t.namespaces) && ReadyOf(t, pool, order) == r[j..] && k in s.reservations
    requires var n := r[j].name;
             && n in t.namespaces && n in u.namespaces && SameBut(t.namespaces, u.namespaces, n)
             && TakenBy(t.namespaces[n], u.namespaces[n], k, s.reservations[k].uid)
    ensures var n := r[j].name;
            && n in s.namespaces && s.namespaces[n] == t.namespaces[n]
            && TakenBy(s.namespaces[n], u.namespaces[n], k, s.reservations[k].uid)
            && ErrorMarked(s.namespaces, u.namespaces[n := s.namespaces[n]], r[..j])
  {
    hide Covers, ReadyOf;
    FirstOfReady(t, pool, order);
    var n := r[j].name;
    assert r[j..][0] == r[j];
    assert n !in Names(r[..j]);
  }
}
