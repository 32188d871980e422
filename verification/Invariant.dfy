/** What every step of every actor keeps. */
module Invariant {
  import opened Objects
  import opened Protocol

  ghost predicate VersionsInv(s: State) {
    && (forall n | n in s.namespaces :: s.namespaces[n].version < s.nextVersion)
    && (forall k | k in s.reservations :: s.reservations[k].version < s.nextVersion && s.reservations[k].uid < s.nextUid)
    && (forall p | p in s.pools :: s.pools[p].version < s.nextVersion && s.pools[p].uid < s.nextUid)
    && (forall j, k | j in s.reservations && k in s.reservations && s.reservations[j].uid == s.reservations[k].uid :: j == k)
  }

  /** A labelled namespace has exactly one owner, the one the ledger names, and `reserved` says of which kind. */
  ghost predicate OwnershipInv(s: State) {
    && s.ledger.Keys <= s.created && s.namespaces.Keys <= s.created && s.envs.Keys <= s.created && "" !in s.created
    && forall n | n in s.namespaces :: OwnershipOf(s.ledger, n, s.namespaces[n])
  }

  ghost predicate OwnershipOf(ledger: map<string, Owner>, n: string, ns: Namespace) {
    if n in ledger then
      && ns.pool.Some?
      && ns.owners == [ledger[n]]
      && Reserved in ns.annotations
      && ns.annotations[Reserved] == (if ledger[n].kind == PoolKind then False else True)
    else
      ns.pool == None && ns.owners == []
  }

  /** Status.Namespace is set exactly in "active" and "deleting", and then the ledger gives that namespace to
      the reservation; the finalizer is there only with a namespace, a deletion mark only with the finalizer. */
  ghost predicate LifecycleInv(s: State) {
    forall k | k in s.reservations :: k in s.resNames && LifecycleOf(s.ledger, k, s.reservations[k])
  }

  ghost predicate LifecycleOf(ledger: map<string, Owner>, k: string, r: Reservation) {
    && k != ""
    && (r.status.namespace != "" <==> r.status.state in {Active, Draining})
    && (r.status.namespace != "" ==>
          r.status.namespace in ledger && ledger[r.status.namespace] == Owner(ReservationKind, k, r.uid))
    && (r.finalizer ==> r.status.namespace != "")
    && (r.marked ==> r.finalizer)
    && (r.status.state == Draining ==> r.marked)
  }

  /** Every expiry held in memory or in a status is one of the two the reservation can have. */
  ghost predicate ExpiryInv(s: State) {
    && s.index.Keys + s.lost <= s.resNames && s.reused <= s.resNames
    && (forall k | k in s.reservations ::
          && s.reservations[k].created <= s.now && s.reservations[k].created % SECOND == 0
          && s.reservations[k].status.expiration % SECOND == 0)
    && (forall k | k in s.reservations && k in s.index && k !in s.reused :: ExpiryOf(s.reservations[k], s.index[k]))
    && (forall k | k in s.reservations && s.reservations[k].status.state == Active ::
          ExpiryOf(s.reservations[k], s.reservations[k].status.expiration))
  }

  /** After start-up population the expiry index misses an active reservation only if the poller popped it. */
  ghost predicate IndexInv(s: State) {
    s.populated ==> ActivesIndexed(s)
  }

  /** A uid is in `named` exactly if its status names a namespace, as long as the reservation exists; a released one
      exists no more. */
  ghost predicate HistoryInv(s: State) {
    && (forall k | k in s.reservations ::
          && (s.reservations[k].uid in s.named <==> s.reservations[k].status.namespace != "")
          && s.reservations[k].uid !in s.released)
    && (forall u | u in s.named :: u < s.nextUid)
    && (forall u | u in s.released :: u < s.nextUid)
  }

  /** A status names the pool asked for or none, and a claimed namespace is of the pool its reservation asked for. */
  ghost predicate PoolInv(s: State) {
    && (forall u | u in s.filed :: u < s.nextUid)
    && (forall k | k in s.reservations :: k in s.resNames && DrawsOf(s.filed, k, s.reservations[k]))
    && (forall n | n in s.ledger && n in s.namespaces :: LabelOf(s.filed, s.ledger[n], s.namespaces[n].pool))
  }

  ghost predicate DrawsOf(filed: map<nat, Request>, k: string, r: Reservation) {
    && r.uid in filed && filed[r.uid] == Request(k, r.spec)
    && (r.status.pool == "" || r.status.pool == HomePool(r.spec))
    && (r.status.state != Unset ==> r.status.pool == HomePool(r.spec))
  }

  ghost predicate LabelOf(filed: map<nat, Request>, o: Owner, pool: Option<string>) {
    o.kind == ReservationKind ==>
      o.uid in filed && filed[o.uid].name == o.name && pool == Some(HomePool(filed[o.uid].spec))
  }

  ghost predicate LimitInv(s: State) {
    forall p | p in s.pools && s.pools[p].spec.sizeLimit.Some? ::
      Total(s, p) <= s.pools[p].spec.sizeLimit.value + Slack(s, p)
  }

  ghost predicate Inv(s: State) {
    VersionsInv(s) && OwnershipInv(s) && LifecycleInv(s) && ExpiryInv(s) && IndexInv(s) && HistoryInv(s)
    && PoolInv(s) && LimitInv(s)
  }

  // --------------------------------------------------------- preservation
  //
  // First what the object written by an action is like, then what writing it does to the store.

  predicate Writes(s: State, a: ResAction)
    requires ResEnabled(s, a)
  {
    !Observes(a) && !Removes(s, a)
  }

  lemma NewNsOwnership(s: State, a: NsAction)
    requires OwnershipInv(s) && NsEnabled(s, a) && !a.FinishNs?
    ensures OwnershipOf(NewLedger(s, a), a.n, NewNs(s, a))
    ensures a.n in s.namespaces || (a.CreateNs? && a.n != "" && a.n !in s.created)
  {
  }

  lemma NewLedgerKeepsOthers(s: State, a: NsAction)
    requires NsEnabled(s, a)
    ensures s.ledger.Keys <= NewLedger(s, a).Keys <= s.ledger.Keys + {a.n}
    ensures forall n | n in s.ledger && n != a.n :: NewLedger(s, a)[n] == s.ledger[n]
    ensures a.n in s.ledger && s.ledger[a.n].kind == ReservationKind ==> NewLedger(s, a) == s.ledger
    ensures NewLedger(s, a) == s.ledger || a.n in s.namespaces
  {
  }

  lemma NewResLifecycle(s: State, a: ResAction)
    requires LifecycleInv(s) && ResEnabled(s, a) && Writes(s, a)
    ensures LifecycleOf(s.ledger, a.k, NewRes(s, a))
  {
  }

  /** A write keeps the creation data; it makes a reservation active only with a legal expiry, and only an indexed
      one. */
  lemma NewResHistory(s: State, a: ResAction)
    requires ResEnabled(s, a) && Writes(s, a)
    ensures var r := NewRes(s, a);
            if a.UserCreate? then
              a.k !in s.reservations && r.uid == s.nextUid && r.created == Persist(s.now) && r.status.state == Unset
            else
              && a.k in s.reservations
              && var r0 := s.reservations[a.k];
                 r.uid == r0.uid && r.created == r0.created && r.spec == r0.spec && (r0.marked ==> r.marked)
  {
  }

  lemma PersistedExpiry(r: Reservation, e: Time)
    requires ExpiryOf(r, e) && r.created % SECOND == 0
    ensures ExpiryOf(r, Persist(e))
  {
    if ParseDuration(r.spec.duration) == Some(0) {
      PersistMonotone(r.created, e);
    }
  }

  lemma PersistMonotone(t: Time, u: Time)
    requires t <= u
    ensures Persist(t) <= Persist(u)
  {
    assert Persist(t) == t / SECOND * SECOND && Persist(u) == u / SECOND * SECOND;
  }

  lemma NewResExpiry(s: State, a: ResAction)
    requires ExpiryInv(s) && ResEnabled(s, a) && Writes(s, a)
    ensures var r := NewRes(s, a).(version := ResVersion(s, a.k, NewRes(s, a)));
            && (r.status.state == Active ==> ExpiryOf(r, r.status.expiration))
            && r.status.expiration % SECOND == 0
            && (!a.UserCreate? ==> forall e :: ExpiryOf(s.reservations[a.k], e) ==> ExpiryOf(r, e))
  {
    hide ResVersion;
    if a.Activate? || a.Refresh? {
      PersistedExpiry(s.reservations[a.k], a.e);
    }
    NewResHistory(s, a);
  }

  lemma NewResIndexed(s: State, a: ResAction)
    requires ResEnabled(s, a) && Writes(s, a)
    ensures var r := NewRes(s, a);
            r.status.state == Active && !r.marked ==>
              Indexed(s, a.k)
              || (a.k in s.reservations && s.reservations[a.k].status.state == Active && !s.reservations[a.k].marked)
  {
    hide NewNs, NewLedger, Charged;
  }

  // What an action does to the fields of the state, without looking into the object it writes.

  lemma NsAfter(s: State, a: NsAction)
    requires NsEnabled(s, a)
    ensures var t := NsApply(s, a);
      && t.envs == s.envs
      && t.reservations == s.reservations && t.resNames == s.resNames && t.reused == s.reused && t.pools == s.pools
      && t.index == s.index && t.lost == s.lost && t.populated == s.populated && t.now == s.now
      && t.filed == s.filed && t.named == s.named && t.drained == s.drained && t.released == s.released
      && t.nextUid == s.nextUid && t.nextVersion == s.nextVersion + 1
      && t.ledger == NewLedger(s, a)
      && t.created == (if a.CreateNs? then s.created + {a.n} else s.created)
      && (a.FinishNs? ==> t.namespaces == s.namespaces - {a.n} && t.slack == s.slack)
      && (!a.FinishNs? ==> t.namespaces == PutNs(s, a.n, NewNs(s, a)))
      && t.slack == (if a.Annotate? || a.Claim? then Charged(s, a.n, NewNs(s, a)) else s.slack)
  {
    hide NewNs, NsEnabled, NsVersion, NewLedger, Charged;
    assert NsApply(s, a).namespaces == NewNamespaces(s, a);
  }

  lemma ResAfter(s: State, a: ResAction)
    requires ResEnabled(s, a)
    ensures var t := ResApply(s, a);
      && t.envs == s.envs
      && t.namespaces == s.namespaces && t.ledger == s.ledger && t.created == s.created && t.slack == s.slack
      && t.index == s.index && t.lost == s.lost && t.populated == s.populated && t.now == s.now
      && t.pools == s.pools && t.nextVersion == s.nextVersion + 1
      && t.nextUid == (if a.UserCreate? then s.nextUid + 1 else s.nextUid)
      && t.resNames == (if a.UserCreate? then s.resNames + {a.k} else s.resNames)
      && t.reused == (if a.UserCreate? && a.k in s.resNames then s.reused + {a.k} else s.reused)
      && (Writes(s, a) ==> t.reservations == PutRes(s, a.k, NewRes(s, a)))
      && (Observes(a) ==> t.reservations == s.reservations)
      && (!Writes(s, a) && !Observes(a) ==> t.reservations == s.reservations - {a.k})
      && t.named == (if a.Activate? then s.named + {s.reservations[a.k].uid} else s.named)
      && t.filed == (if a.UserCreate? then s.filed[s.nextUid := Request(a.k, a.spec)] else s.filed)
      && t.drained == NewDrained(s, a)
      && t.released == (if a.ReleaseFinalizer? then s.released + {s.reservations[a.k].uid} else s.released)
  {
    hide NewRes, ResVersion;
    assert ResApply(s, a).reservations == NewReservations(s, a);
  }

  lemma WorldAfter(s: State, a: WorldAction)
    requires WorldEnabled(s, a)
    ensures var t := WorldApply(s, a);
      && t.envs.Keys <= s.envs.Keys + s.created
      && t.namespaces == s.namespaces && t.ledger == s.ledger && t.created == s.created && t.slack == s.slack
      && t.reservations == s.reservations && t.resNames == s.resNames && t.reused == s.reused
      && t.filed == s.filed && t.named == s.named && t.drained == s.drained && t.released == s.released
      && t.index == s.index && t.lost == s.lost && t.populated == s.populated
      && t.pools == s.pools && t.nextUid == s.nextUid && t.nextVersion == s.nextVersion && s.now <= t.now
  {
  }

  lemma PoolAfter(s: State, a: PoolAction)
    requires PoolEnabled(s, a)
    ensures var t := PoolApply(s, a);
      && t.envs == s.envs
      && t.namespaces == s.namespaces && t.ledger == s.ledger && t.created == s.created
      && t.reservations == s.reservations && t.resNames == s.resNames && t.reused == s.reused
      && t.filed == s.filed && t.named == s.named && t.drained == s.drained && t.released == s.released
      && t.index == s.index && t.lost == s.lost && t.populated == s.populated && t.now == s.now
      && t.pools == NewPools(s, a) && t.nextVersion == s.nextVersion + 1
      && t.nextUid == (if a.CreatePool? then s.nextUid + 1 else s.nextUid)
      && (!a.CreatePool? && !a.CountPool? ==> t.slack == s.slack)
  {
    hide NewPools;
  }

  lemma IndexAfter(s: State, a: IndexAction)
    requires IndexEnabled(s, a)
    ensures var t := IndexApply(s, a);
      && t.envs == s.envs
      && t.namespaces == s.namespaces && t.ledger == s.ledger && t.created == s.created && t.slack == s.slack
      && t.reservations == s.reservations && t.resNames == s.resNames && t.reused == s.reused
      && t.filed == s.filed && t.named == s.named && t.drained == s.drained && t.released == s.released
      && t.pools == s.pools && t.nextUid == s.nextUid && t.nextVersion == s.nextVersion && t.now == s.now
  {
  }

  // ---- versions

  lemma NsKeepsVersions(s: State, a: NsAction)
    requires VersionsInv(s) && NsEnabled(s, a)
    ensures VersionsInv(NsApply(s, a))
  {
    hide NsApply, NewNs, NewLedger, Charged, NsEnabled;
    NsAfter(s, a);
  }

  lemma ResKeepsVersions(s: State, a: ResAction)
    requires VersionsInv(s) && ResEnabled(s, a)
    ensures VersionsInv(ResApply(s, a))
  {
    hide ResApply, Writes, Removes, NewRes, ResEnabled, ResVersion, NewDrained;
    ResAfter(s, a);
    if Writes(s, a) {
      NewResHistory(s, a);
      VersionBound(s, a.k, NewRes(s, a));
    }
  }

  lemma VersionBound(s: State, k: string, r: Reservation)
    requires VersionsInv(s)
    ensures ResVersion(s, k, r) <= s.nextVersion
  {
  }

  lemma PoolKeepsVersions(s: State, a: PoolAction)
    requires VersionsInv(s) && PoolEnabled(s, a)
    ensures VersionsInv(PoolApply(s, a))
  {
  }

  // ---- ownership

  lemma NsKeepsOwnership(s: State, a: NsAction)
    requires OwnershipInv(s) && NsEnabled(s, a)
    ensures OwnershipInv(NsApply(s, a))
  {
    hide NsApply, NewNs, NewLedger, Charged, NsEnabled, NsVersion;
    NsAfter(s, a);
    NewLedgerKeepsOthers(s, a);
    if !a.FinishNs? {
      NewNsOwnership(s, a);
    }
  }

  // ---- lifecycle

  lemma NsKeepsLifecycle(s: State, a: NsAction)
    requires LifecycleInv(s) && NsEnabled(s, a)
    ensures LifecycleInv(NsApply(s, a))
  {
    hide NsApply, NewNs, NewLedger, Charged, NsEnabled, NsVersion;
    NsAfter(s, a);
    NewLedgerKeepsOthers(s, a);
  }

  lemma ResKeepsLifecycle(s: State, a: ResAction)
    requires LifecycleInv(s) && ResEnabled(s, a)
    ensures LifecycleInv(ResApply(s, a))
  {
    hide ResApply, Writes, Removes, NewRes, ResEnabled, ResVersion;
    ResAfter(s, a);
    if Writes(s, a) {
      NewResLifecycle(s, a);
      NewResHistory(s, a);
    }
  }

  // ---- expiry

  lemma ResKeepsExpiry(s: State, a: ResAction)
    requires LifecycleInv(s) && ExpiryInv(s) && ResEnabled(s, a)
    ensures ExpiryInv(ResApply(s, a))
  {
    hide ResApply, Writes, Removes, NewRes, ResEnabled, ResVersion, ExpiryOf;
    ResAfter(s, a);
    if Writes(s, a) {
      NewResHistory(s, a);
      NewResExpiry(s, a);
    }
  }

  lemma IndexKeepsExpiry(s: State, a: IndexAction)
    requires ExpiryInv(s) && IndexEnabled(s, a)
    ensures ExpiryInv(IndexApply(s, a))
  {
  }

  // ---- the index

  lemma ResKeepsIndex(s: State, a: ResAction)
    requires IndexInv(s) && ResEnabled(s, a)
    ensures IndexInv(ResApply(s, a))
  {
    hide ResApply, Writes, Removes, NewRes, ResEnabled, ResVersion;
    ResAfter(s, a);
    if Writes(s, a) {
      NewResIndexed(s, a);
    }
  }

  lemma IndexKeepsIndex(s: State, a: IndexAction)
    requires IndexInv(s) && IndexEnabled(s, a)
    ensures IndexInv(IndexApply(s, a))
  {
  }

  // ---- the history of a uid

  /** Only activation puts a namespace into a status. */
  lemma NewResNamed(s: State, a: ResAction)
    requires ResEnabled(s, a) && Writes(s, a)
    ensures NewRes(s, a).status.namespace == if a.Activate? then a.n
              else if a.UserCreate? then "" else s.reservations[a.k].status.namespace
    ensures !a.ReleaseFinalizer? && (a.Activate? ==> a.n != "")
  {
  }

  lemma RemovedNames(s: State, a: ResAction)
    requires ResEnabled(s, a) && !Writes(s, a)
    ensures !a.Activate? && !a.UserCreate? && a.k in s.reservations
    ensures a.ReleaseFinalizer? ==> !Observes(a)
  {
  }

  lemma ResKeepsHistory(s: State, a: ResAction)
    requires VersionsInv(s) && HistoryInv(s) && ResEnabled(s, a)
    ensures HistoryInv(ResApply(s, a))
  {
    hide ResApply, Writes, Removes, NewRes, ResEnabled, ResVersion, NewDrained;
    ResAfter(s, a);
    if Writes(s, a) {
      NewResHistory(s, a);
      NewResNamed(s, a);
    } else {
      RemovedNames(s, a);
    }
  }

  // ---- the pool asked for

  lemma NewNsLabel(s: State, a: NsAction)
    requires PoolInv(s) && OwnershipInv(s) && NsEnabled(s, a) && !a.FinishNs?
    ensures var l := NewLedger(s, a); a.n in l ==> LabelOf(s.filed, l[a.n], NewNs(s, a).pool)
  {
  }

  lemma NsKeepsPools(s: State, a: NsAction)
    requires PoolInv(s) && OwnershipInv(s) && NsEnabled(s, a)
    ensures PoolInv(NsApply(s, a))
  {
    hide NsApply, NewNs, NewLedger, Charged, NsEnabled, NsVersion, OwnershipInv, DrawsOf, LabelOf;
    NsAfter(s, a);
    NewLedgerKeepsOthers(s, a);
    if !a.FinishNs? {
      NewNsLabel(s, a);
    }
  }

  lemma NewResDraws(s: State, a: ResAction)
    requires LifecycleInv(s) && PoolInv(s) && ResEnabled(s, a) && Writes(s, a)
    ensures DrawsOf(if a.UserCreate? then s.filed[s.nextUid := Request(a.k, a.spec)] else s.filed, a.k, NewRes(s, a))
  {
  }

  lemma ResKeepsPools(s: State, a: ResAction)
    requires LifecycleInv(s) && PoolInv(s) && ResEnabled(s, a)
    ensures PoolInv(ResApply(s, a))
  {
    hide ResApply, Writes, Removes, NewRes, ResEnabled, ResVersion, NewDrained, HomePool, LifecycleInv;
    ResAfter(s, a);
    if Writes(s, a) {
      NewResHistory(s, a);
      NewResDraws(s, a);
    } else {
      RemovedNames(s, a);
    }
  }

  // ---- the size limit

  /** Two namespace maps agree outside `n`. */
  ghost predicate SameBut(m: map<string, Namespace>, m': map<string, Namespace>, n: string) {
    forall x | x != n :: (x in m <==> x in m') && (x in m ==> m'[x] == m[x])
  }

  /** Rewriting, adding or removing one namespace changes a pool's count by at most that namespace. */
  lemma CountChange(s: State, t: State, p: string, n: string)
    requires t.pools == s.pools && SameBut(s.namespaces, t.namespaces, n)
    ensures Total(t, p) == Total(s, p) + (if Counted(t, p, n) then 1 else 0) - (if Counted(s, p, n) then 1 else 0)
  {
    hide Counted, SameBut;
    CountedElsewhere(s, t, p, n);
    var a, b := CountedSet(s, p), CountedSet(t, p);
    assert forall x :: x in a <==> Counted(s, p, x);
    assert forall x :: x in b <==> Counted(t, p, x);
    SizesApart(a, b, n);
  }

  lemma {:induction false} SubsetSmaller<T>(a: set<T>, b: set<T>)
    requires a <= b
    ensures |a| <= |b|
    decreases |a|
  {
    if x :| x in a {
      SubsetSmaller(a - {x}, b - {x});
    }
  }

  lemma CountedElsewhere(s: State, t: State, p: string, n: string)
    requires t.pools == s.pools && SameBut(s.namespaces, t.namespaces, n)
    ensures forall x | x != n :: Counted(s, p, x) <==> Counted(t, p, x)
    ensures forall x | Counted(s, p, x) :: x in s.namespaces
    ensures forall x | Counted(t, p, x) :: x in t.namespaces
  {
    hide Counts;
  }

  lemma SizesApart(a: set<string>, b: set<string>, n: string)
    requires forall x | x != n :: x in a <==> x in b
    ensures |b| == |a| + (if n in b then 1 else 0) - (if n in a then 1 else 0)
  {
    assert a - {n} == b - {n};
    WithoutOne(a, n);
    WithoutOne(b, n);
  }

  lemma WithoutOne<T>(a: set<T>, x: T)
    ensures |a| == |a - {x}| + (if x in a then 1 else 0)
  {
    if x in a {
      assert a == (a - {x}) + {x};
    } else {
      assert a == a - {x};
    }
  }

  /** A namespace starts to count only by adoption under the limit, or against the slack. */
  lemma NewlyCounted(s: State, a: NsAction, p: string)
    requires NsEnabled(s, a) && OwnershipInv(s)
    requires Counted(NsApply(s, a), p, a.n) && !Counted(s, p, a.n)
    ensures if a.Adopt? then p == a.p && UnderLimit(s, p) && NsApply(s, a).slack == s.slack
            else NsApply(s, a).slack == s.slack[p := OneMoreRevived(s, p)]
  {
    hide NsApply, NewNamespaces, NsVersion, OwnerGone;
    var t := NsApply(s, a);
    NsAfter(s, a);
    var ns := NewNs(s, a);
    assert t.namespaces[a.n] == ns.(version := NsVersion(s, a.n, ns));
    assert Counts(ns, p, s.pools[p].uid);
  }

  lemma NsKeepsLimit(s: State, a: NsAction)
    requires OwnershipInv(s) && LimitInv(s) && NsEnabled(s, a)
    ensures LimitInv(NsApply(s, a))
  {
    hide NsApply, NewNs, NewLedger, Charged, NsEnabled, NsVersion, Counts;
    var t := NsApply(s, a);
    NsAfter(s, a);
    forall p | p in t.pools && t.pools[p].spec.sizeLimit.Some?
      ensures Total(t, p) <= t.pools[p].spec.sizeLimit.value + Slack(t, p)
    {
      assert SameBut(s.namespaces, t.namespaces, a.n);
      CountChange(s, t, p, a.n);
      SlackGrows(s, a, p);
      if Counted(t, p, a.n) && !Counted(s, p, a.n) {
        NewlyCounted(s, a, p);
      }
    }
  }

  lemma SlackGrows(s: State, a: NsAction, p: string)
    requires NsEnabled(s, a)
    ensures Slack(s, p) <= Slack(NsApply(s, a), p) && Revived(s, p) <= Revived(NsApply(s, a), p)
  {
    hide NewNs;
  }

  lemma PoolKeepsLimit(s: State, a: PoolAction)
    requires LimitInv(s) && PoolEnabled(s, a)
    ensures LimitInv(PoolApply(s, a))
  {
    var t := PoolApply(s, a);
    forall p | p in t.pools && t.pools[p].spec.sizeLimit.Some?
      ensures Total(t, p) <= t.pools[p].spec.sizeLimit.value + Slack(t, p)
    {
      if (a.CreatePool? || a.CountPool?) && p == a.p {
        assert CountedSet(t, p) == CountedSet(t.(slack := s.slack), p);
      } else {
        assert CountedSet(t, p) == CountedSet(s, p);
      }
    }
  }

  // ---- all of it

  lemma LimitFrame(s: State, t: State)
    requires LimitInv(s)
    requires t.namespaces == s.namespaces && t.pools == s.pools && t.slack == s.slack
    ensures LimitInv(t)
  {
    forall p | p in t.pools ensures Total(t, p) == Total(s, p) {
      assert CountedSet(t, p) == CountedSet(s, p);
    }
  }

  lemma NsKeepsInv(s: State, a: NsAction)
    requires Inv(s) && NsEnabled(s, a)
    ensures Inv(NsApply(s, a))
  {
    hide NsApply, NewNs, NewLedger, Charged, NsEnabled, NsVersion, VersionsInv, OwnershipInv, LifecycleInv, PoolInv,
         LimitInv;
    NsAfter(s, a);
    NsKeepsVersions(s, a);
    NsKeepsPools(s, a);
    NsKeepsOwnership(s, a);
    NsKeepsLifecycle(s, a);
    NsKeepsLimit(s, a);
  }

  lemma ResKeepsInv(s: State, a: ResAction)
    requires Inv(s) && ResEnabled(s, a)
    ensures Inv(ResApply(s, a))
  {
    hide ResApply, Writes, Removes, NewRes, ResEnabled, VersionsInv, LifecycleInv, ExpiryInv, IndexInv, HistoryInv,
         PoolInv, LimitInv;
    ResAfter(s, a);
    ResKeepsVersions(s, a);
    ResKeepsLifecycle(s, a);
    ResKeepsExpiry(s, a);
    ResKeepsIndex(s, a);
    ResKeepsHistory(s, a);
    ResKeepsPools(s, a);
    LimitFrame(s, ResApply(s, a));
  }

  lemma IndexKeepsInv(s: State, a: IndexAction)
    requires Inv(s) && IndexEnabled(s, a)
    ensures Inv(IndexApply(s, a))
  {
    hide IndexApply, ExpiryInv, IndexInv, LimitInv;
    IndexAfter(s, a);
    IndexKeepsExpiry(s, a);
    IndexKeepsIndex(s, a);
    LimitFrame(s, IndexApply(s, a));
  }

  lemma PoolKeepsInv(s: State, a: PoolAction)
    requires Inv(s) && PoolEnabled(s, a)
    ensures Inv(PoolApply(s, a))
  {
    hide PoolApply, NewPools, VersionsInv, LimitInv;
    PoolAfter(s, a);
    PoolKeepsVersions(s, a);
    PoolKeepsLimit(s, a);
  }

  lemma WorldKeepsInv(s: State, a: WorldAction)
    requires Inv(s) && WorldEnabled(s, a)
    ensures Inv(WorldApply(s, a))
  {
    hide WorldApply, LimitInv;
    WorldAfter(s, a);
    LimitFrame(s, WorldApply(s, a));
  }

  /** Every step of every actor keeps the invariant. */
  lemma StepKeepsInv(s: State, a: Action)
    requires Inv(s) && Enabled(s, a)
    ensures Inv(Apply(s, a))
  {
    hide Inv, NsApply, ResApply, IndexApply, PoolApply, WorldApply;
    match a
    case OnNs(x) => NsKeepsInv(s, x);
    case OnRes(x) => ResKeepsInv(s, x);
    case OnIndex(x) => IndexKeepsInv(s, x);
    case OnPool(x) => PoolKeepsInv(s, x);
    case OnWorld(x) => WorldKeepsInv(s, x);
  }

  /** A cluster with nothing in it, as before the operator is installed. */
  const EMPTY_CLUSTER := State(map[], map[], map[], map[], false, map[], 0, 0, 0, map[], false, {}, map[], {}, {},
      map[], map[], {}, {}, {}, {})

  lemma EmptyClusterInv()
    ensures Inv(EMPTY_CLUSTER)
  {
  }

  /** ... so it holds in every state of every run, whatever the interleaving and wherever calls failed. */
  lemma {:induction false} RunKeepsInv(run: seq<State>, acts: seq<Action>, i: nat)
    requires IsRun(run, acts) && Inv(run[0]) && i <= |acts|
    ensures Inv(run[i])
    decreases i
  {
    hide Inv, Enabled, Apply;
    if i > 0 {
      RunKeepsInv(run, acts, i - 1);
      StepKeepsInv(run[i - 1], acts[i - 1]);
    }
  }
}
