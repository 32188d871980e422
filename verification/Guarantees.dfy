/** What holds over every run: any interleaving of the pool, reservation, ClowdEnvironment and poller
    steps, users, garbage collection and restarts, with any API call failing anywhere. */
module Guarantees {
  import opened Objects
  import opened Protocol
  import opened Invariant
  import opened Evolution

  // -------------------------------------------------------- one owner each

  /** In every reachable state a labelled namespace has exactly one owner, and `reserved` says of which kind. */
  lemma OneOwnerEach(run: seq<State>, acts: seq<Action>, i: nat, n: string)
    requires IsRun(run, acts) && Inv(run[0]) && i <= |acts| && n in run[i].namespaces
    ensures var ns := run[i].namespaces[n];
            if ns.pool.Some? then
              && |ns.owners| == 1 && Reserved in ns.annotations
              && (ns.annotations[Reserved] == False <==> ns.owners[0].kind == PoolKind)
              && (ns.annotations[Reserved] == True <==> ns.owners[0].kind == ReservationKind)
            else ns.owners == []
  {
    RunKeepsInv(run, acts, i);
    assert OwnershipOf(run[i].ledger, n, run[i].namespaces[n]);
  }

  // ------------------------------------------------ exclusive assignment

  /** Two reservations never name the same namespace, and a named namespace has its reservation as only owner. */
  lemma ExclusiveAssignment(run: seq<State>, acts: seq<Action>, i: nat, j: string, k: string)
    requires IsRun(run, acts) && Inv(run[0]) && i <= |acts|
    requires j in run[i].reservations && k in run[i].reservations
    requires run[i].reservations[j].status.state in {Active, Draining}
    requires run[i].reservations[j].status.namespace == run[i].reservations[k].status.namespace
    ensures j == k
    ensures var n := run[i].reservations[k].status.namespace;
            n in run[i].namespaces ==>
              && run[i].namespaces[n].owners == [Owner(ReservationKind, k, run[i].reservations[k].uid)]
              && Reserved in run[i].namespaces[n].annotations
              && run[i].namespaces[n].annotations[Reserved] == True
  {
    RunKeepsInv(run, acts, i);
  }

  /** A claim is final: whatever runs against it, the namespace keeps that owner for as long as it exists. */
  lemma ClaimIsFinal(run: seq<State>, acts: seq<Action>, i: nat, j: nat, n: string)
    requires IsRun(run, acts) && Inv(run[0]) && i < j <= |acts|
    requires acts[i].OnNs? && acts[i].ns.Claim? && acts[i].ns.n == n && n in run[j].namespaces
    ensures run[j].namespaces[n].owners == [Owner(ReservationKind, acts[i].ns.k, acts[i].ns.uid)]
    ensures Reserved in run[j].namespaces[n].annotations && run[j].namespaces[n].annotations[Reserved] == True
  {
    ClaimEntersLedger(run[i], acts[i].ns);
    RunEvolves(run, acts, i + 1, j);
    RunKeepsInv(run, acts, j);
  }

  lemma ClaimEntersLedger(s: State, a: NsAction)
    requires NsEnabled(s, a) && a.Claim?
    ensures a.n in NsApply(s, a).ledger
    ensures NsApply(s, a).ledger[a.n] == Owner(ReservationKind, a.k, a.uid)
  {
    NsAfter(s, a);
  }

  /** The namespace is the reservation's, as long as it exists; a name is not used again. */
  predicate Owns(s: State, n: string, k: string, uid: nat) {
    n in s.ledger && s.ledger[n] == Owner(ReservationKind, k, uid)
  }

  /** A namespace is a reservation's exactly if that reservation claimed it at some step. */
  lemma {:induction false} OwnedIffClaimed(run: seq<State>, acts: seq<Action>, i: nat, n: string, k: string, uid: nat)
    requires IsRun(run, acts) && Inv(run[0]) && run[0].ledger == map[] && i <= |acts|
    ensures Owns(run[i], n, k, uid) <==> exists m | 0 <= m < i :: acts[m] == OnNs(Claim(n, k, uid))
    decreases i
  {
    hide Inv, Enabled, Apply;
    if i > 0 {
      OwnedIffClaimed(run, acts, i - 1, n, k, uid);
      RunKeepsInv(run, acts, i - 1);
      LedgerStep(run[i - 1], acts[i - 1], n, k, uid);
    }
  }

  lemma LedgerStep(s: State, a: Action, n: string, k: string, uid: nat)
    requires Inv(s) && Enabled(s, a)
    ensures var t := Apply(s, a);
            Owns(t, n, k, uid) <==> Owns(s, n, k, uid) || a == OnNs(Claim(n, k, uid))
  {
    hide NsApply, PoolApply, ResApply, WorldApply, IndexApply;
    match a
    case OnNs(x) => NsAfter(s, x); LedgerNsStep(s, x, n, k, uid);
    case OnPool(x) => PoolAfter(s, x);
    case OnRes(x) => ResAfter(s, x);
    case OnIndex(x) => IndexAfter(s, x);
    case OnWorld(x) => WorldAfter(s, x);
  }

  lemma LedgerNsStep(s: State, a: NsAction, n: string, k: string, uid: nat)
    requires NsEnabled(s, a)
    ensures var l := NewLedger(s, a); var o := Owner(ReservationKind, k, uid);
            (n in l && l[n] == o) <==> (n in s.ledger && s.ledger[n] == o) || a == Claim(n, k, uid)
  {
  }

  // ------------------------------------------------ when it owns a second one

  /** Once its status names a namespace a reservation claims no other, whether or not it still exists. */
  lemma NamedClaimsNoMore(run: seq<State>, acts: seq<Action>, i: nat, j: nat, k: string)
    requires IsRun(run, acts) && Inv(run[0]) && i <= j < |acts|
    requires k in run[i].reservations && run[i].reservations[k].status.namespace != ""
    ensures !(Claims(acts[j]) && acts[j].ns.uid == run[i].reservations[k].uid)
  {
    hide Apply, VersionsInv, OwnershipInv, LifecycleInv, ExpiryInv, IndexInv, LimitInv;
    RunKeepsInv(run, acts, i);
    RunEvolves(run, acts, i, j);
    assert Enabled(run[j], acts[j]);
  }

  /** Step `m` is a claim of namespace `n`, made while the status of the reservation names none. */
  ghost predicate ClaimsUnnamed(run: seq<State>, acts: seq<Action>, m: nat, n: string, k: string, uid: nat)
    requires m < |acts| && m < |run|
  {
    && acts[m] == OnNs(Claim(n, k, uid)) && uid !in run[m].named
    && (k in run[m].reservations && run[m].reservations[k].uid == uid ==> run[m].reservations[k].status.namespace == "")
  }

  /** A reservation owns two namespaces exactly if it claimed two, both before its status named one. A pass claims once
      at most (ReservationPlans.PassClaimsOnce): the pass of the first claim ended before it had written the status. */
  lemma OwnsTwoIff(run: seq<State>, acts: seq<Action>, i: nat, k: string, uid: nat)
    requires IsRun(run, acts) && Inv(run[0]) && run[0].ledger == map[] && i <= |acts|
    ensures (exists n, n' :: n != n' && Owns(run[i], n, k, uid) && Owns(run[i], n', k, uid)) <==>
            exists m, m', n, n' | 0 <= m < m' < i && n != n' ::
              ClaimsUnnamed(run, acts, m, n, k, uid) && ClaimsUnnamed(run, acts, m', n', k, uid)
  {
    hide Inv, Enabled, Apply, Owns, ClaimsUnnamed;
    forall n, n' | n != n' && Owns(run[i], n, k, uid) && Owns(run[i], n', k, uid)
      ensures exists m, m', x, x' | 0 <= m < m' < i && x != x' ::
                ClaimsUnnamed(run, acts, m, x, k, uid) && ClaimsUnnamed(run, acts, m', x', k, uid)
    {
      var m := ClaimOf(run, acts, i, n, k, uid);
      var m' := ClaimOf(run, acts, i, n', k, uid);
      ClaimsOnlyOne(run, acts, m, n, n', k, uid);
      if m < m' {
        assert ClaimsUnnamed(run, acts, m, n, k, uid) && ClaimsUnnamed(run, acts, m', n', k, uid);
      } else {
        assert ClaimsUnnamed(run, acts, m', n', k, uid) && ClaimsUnnamed(run, acts, m, n, k, uid);
      }
    }
    forall m, m', n, n' | 0 <= m < m' < i && n != n'
                          && ClaimsUnnamed(run, acts, m, n, k, uid) && ClaimsUnnamed(run, acts, m', n', k, uid)
      ensures n != n' && Owns(run[i], n, k, uid) && Owns(run[i], n', k, uid)
    {
      OwnedOnceClaimed(run, acts, i, m, n, k, uid);
      OwnedOnceClaimed(run, acts, i, m', n', k, uid);
    }
  }

  lemma ClaimsOnlyOne(run: seq<State>, acts: seq<Action>, m: nat, n: string, n': string, k: string, uid: nat)
    requires m < |acts| && m < |run| && ClaimsUnnamed(run, acts, m, n, k, uid) && n != n'
    ensures !ClaimsUnnamed(run, acts, m, n', k, uid)
  {
  }

  lemma OwnedOnceClaimed(run: seq<State>, acts: seq<Action>, i: nat, m: nat, n: string, k: string, uid: nat)
    requires IsRun(run, acts) && Inv(run[0]) && run[0].ledger == map[] && m < i <= |acts|
    requires ClaimsUnnamed(run, acts, m, n, k, uid)
    ensures Owns(run[i], n, k, uid)
  {
    hide Inv, Enabled, Apply, Owns;
    OwnedIffClaimed(run, acts, i, n, k, uid);
  }

  lemma ClaimOf(run: seq<State>, acts: seq<Action>, i: nat, n: string, k: string, uid: nat) returns (m: nat)
    requires IsRun(run, acts) && Inv(run[0]) && run[0].ledger == map[] && i <= |acts|
    requires Owns(run[i], n, k, uid)
    ensures m < i && ClaimsUnnamed(run, acts, m, n, k, uid)
  {
    hide Apply, Owns;
    OwnedIffClaimed(run, acts, i, n, k, uid);
    m :| 0 <= m < i && acts[m] == OnNs(Claim(n, k, uid));
    RunKeepsInv(run, acts, m);
    assert Enabled(run[m], acts[m]);
  }

  /** A reservation that owns a namespace can come to own another, of a pool, exactly while its status names none and if
      that is the pool it asks for. */
  lemma SecondNamespaceOwned(s: State, k: string, n: string, n': string)
    requires Inv(s) && k in s.reservations
    requires n != n' && n in s.namespaces && n' in s.namespaces && Owns(s, n, k, s.reservations[k].uid)
    requires n' in s.ledger && s.ledger[n'].kind == PoolKind
    ensures (exists a :: Enabled(s, a) && Owns(Apply(s, a), n', k, s.reservations[k].uid))
            <==> s.reservations[k].status.namespace == "" && OfItsPool(s.namespaces[n'], s.reservations[k])
    ensures s.reservations[k].status.namespace == "" && OfItsPool(s.namespaces[n'], s.reservations[k]) ==>
              ClaimGivesBoth(s, Claim(n', k, s.reservations[k].uid), n)
  {
    hide Apply, Owns, VersionsInv, ExpiryInv, IndexInv, LimitInv, NsApply, HomePool;
    var uid := s.reservations[k].uid;
    var c := Claim(n', k, uid);
    forall a | Enabled(s, a) && Owns(Apply(s, a), n', k, uid) ensures a == OnNs(c) {
      LedgerStep(s, a, n', k, uid);
      NotYetOwned(s, n', k, uid);
    }
    ClaimEnabledIff(s, c);
    assert Enabled(s, OnNs(c)) <==> NsEnabled(s, c);
    if NsEnabled(s, c) {
      NsKeepsInv(s, c);
      NsAfter(s, c);
      LedgerStep(s, OnNs(c), n', k, uid);
      OwnedBy(s, n, k, uid);
      ClaimedOwner(s, c, n);
    }
  }

  predicate OfItsPool(ns: Namespace, r: Reservation) {
    ns.pool == Some(if r.spec.pool == "" then "default" else r.spec.pool)
  }

  lemma ClaimEnabledIff(s: State, a: NsAction)
    requires Inv(s) && a.Claim? && a.k in s.reservations && s.reservations[a.k].uid == a.uid
    requires a.n in s.namespaces && a.n in s.ledger && s.ledger[a.n].kind == PoolKind
    ensures NsEnabled(s, a) <==>
              s.reservations[a.k].status.namespace == "" && OfItsPool(s.namespaces[a.n], s.reservations[a.k])
  {
    hide VersionsInv, OwnershipInv, LifecycleInv, ExpiryInv, IndexInv, LimitInv;
    assert DrawsOf(s.filed, a.k, s.reservations[a.k]);
  }

  /** The claim leaves its reservation the owner of both namespaces. */
  ghost predicate ClaimGivesBoth(s: State, a: NsAction, n: string)
    requires a.Claim?
  {
    && NsEnabled(s, a)
    && var t := NsApply(s, a);
       && Inv(t) && n in t.namespaces && a.n in t.namespaces
       && t.namespaces[n].owners == t.namespaces[a.n].owners == [Owner(ReservationKind, a.k, a.uid)]
  }

  lemma NotYetOwned(s: State, n: string, k: string, uid: nat)
    requires n in s.ledger && s.ledger[n].kind == PoolKind
    ensures !Owns(s, n, k, uid)
  {
  }

  /** What a reservation owns has it as its only owner. */
  lemma OwnedBy(s: State, n: string, k: string, uid: nat)
    requires Inv(s) && n in s.namespaces && Owns(s, n, k, uid)
    ensures s.namespaces[n].owners == [Owner(ReservationKind, k, uid)]
    ensures Reserved in s.namespaces[n].annotations && s.namespaces[n].annotations[Reserved] == True
  {
  }

  lemma ClaimedOwner(s: State, a: NsAction, n: string)
    requires NsEnabled(s, a) && a.Claim? && n != a.n && n in s.namespaces
    ensures var t := NsApply(s, a);
            && n in t.namespaces && t.namespaces[n] == s.namespaces[n]
            && a.n in t.namespaces && t.namespaces[a.n].owners == [Owner(ReservationKind, a.k, a.uid)]
            && t.namespaces[a.n].terminating == s.namespaces[a.n].terminating
  {
    hide NsApply;
    NsAfter(s, a);
  }

  /** Fresh names matter: adopting a namespace that is already in the ledger keeps the claims of the
      reservations intact exactly when no reservation names it. */
  lemma AdoptionNeedsFreshName(s: State, n: string, p: string, uid: nat)
    requires Inv(s) && n in s.namespaces
    ensures LifecycleInv(s.(namespaces := s.namespaces[n := Adopted(s.namespaces[n], p, uid)],
                            ledger := s.ledger[n := Owner(PoolKind, p, uid)]))
            <==> forall k | k in s.reservations :: s.reservations[k].status.namespace != n
  {
    var t := s.(namespaces := s.namespaces[n := Adopted(s.namespaces[n], p, uid)],
                ledger := s.ledger[n := Owner(PoolKind, p, uid)]);
    InvParts(s);
    if LifecycleInv(t) {
      forall k | k in s.reservations ensures s.reservations[k].status.namespace != n {
        assert LifecycleOf(t.ledger, k, t.reservations[k]);
        assert n in s.created;
      }
    }
    if forall k | k in s.reservations :: s.reservations[k].status.namespace != n {
      forall k | k in t.reservations ensures LifecycleOf(t.ledger, k, t.reservations[k]) {
        assert LifecycleOf(s.ledger, k, s.reservations[k]);
      }
    }
  }

  // ------------------------------------------------------ the pool asked for

  /** Whatever runs against it, a claim for a reservation takes a namespace of the pool it asks for, "default" if it names
      none: `j` is any state in which the reservation exists, and if its status has a pool there, it is that one. */
  lemma ClaimsFromItsPool(run: seq<State>, acts: seq<Action>, i: nat, j: nat, n: string, k: string, uid: nat)
    requires IsRun(run, acts) && Inv(run[0]) && i < |acts| && j <= |acts| && acts[i] == OnNs(Claim(n, k, uid))
    requires k in run[j].reservations && run[j].reservations[k].uid == uid
    ensures var r := run[j].reservations[k];
            && n in run[i].namespaces
            && run[i].namespaces[n].pool == Some(if r.spec.pool == "" then "default" else r.spec.pool)
            && (r.status.pool != "" ==> run[i].namespaces[n].pool == Some(r.status.pool))
  {
    hide Apply, VersionsInv, OwnershipInv, LifecycleInv, ExpiryInv, IndexInv, HistoryInv, LimitInv, VersionsEvolve,
         NamespacesEvolve;
    RunKeepsInv(run, acts, j);
    if i <= j {
      RunEvolves(run, acts, i, j);
    } else {
      RunEvolves(run, acts, j, i);
    }
    assert Enabled(run[i], acts[i]);
  }

  /** ... and the reservation was filed under that name, asking for that pool, also if it does not exist any more. */
  lemma {:induction false} ClaimsForFiled(run: seq<State>, acts: seq<Action>, i: nat, n: string, k: string, uid: nat)
    requires IsRun(run, acts) && Inv(run[0]) && run[0].filed == map[] && i < |acts| && acts[i] == OnNs(Claim(n, k, uid))
    ensures exists m, spec | 0 <= m < i :: FiledAs(run, acts, m, k, uid, spec)
              && n in run[i].namespaces
              && run[i].namespaces[n].pool == Some(if spec.pool == "" then "default" else spec.pool)
  {
    hide Apply, Inv;
    assert Enabled(run[i], acts[i]);
    var m := FilingStep(run, acts, i, uid);
    var spec := run[i].filed[uid].spec;
    assert FiledAs(run, acts, m, k, uid, spec);
  }

  ghost predicate FiledAs(run: seq<State>, acts: seq<Action>, m: nat, k: string, uid: nat, spec: ResSpec)
    requires m < |acts| && m < |run|
  {
    acts[m] == OnRes(UserCreate(k, spec)) && run[m].nextUid == uid
  }

  lemma {:induction false} FilingStep(run: seq<State>, acts: seq<Action>, i: nat, uid: nat) returns (m: nat)
    requires IsRun(run, acts) && Inv(run[0]) && run[0].filed == map[] && i <= |acts| && uid in run[i].filed
    ensures m < i && FiledAs(run, acts, m, run[i].filed[uid].name, uid, run[i].filed[uid].spec)
    decreases i
  {
    hide Apply, Enabled, Inv, FiledAs;
    FiledBefore(run[i - 1], acts[i - 1], uid);
    if uid in run[i - 1].filed && run[i - 1].filed[uid] == run[i].filed[uid] {
      m := FilingStep(run, acts, i - 1, uid);
    } else {
      m := i - 1;
      assert FiledAs(run, acts, m, run[i].filed[uid].name, uid, run[i].filed[uid].spec) by { FiledNow(run, acts, m, uid); }
    }
  }

  lemma FiledNow(run: seq<State>, acts: seq<Action>, m: nat, uid: nat)
    requires m < |acts| && m + 1 < |run| && uid in run[m + 1].filed && run[m].nextUid == uid
    requires acts[m] == OnRes(UserCreate(run[m + 1].filed[uid].name, run[m + 1].filed[uid].spec))
    ensures FiledAs(run, acts, m, run[m + 1].filed[uid].name, uid, run[m + 1].filed[uid].spec)
  {
  }

  lemma FiledBefore(s: State, a: Action, uid: nat)
    requires Enabled(s, a) && uid in Apply(s, a).filed
    ensures var r := Apply(s, a).filed[uid];
            (uid in s.filed && s.filed[uid] == r) || (a == OnRes(UserCreate(r.name, r.spec)) && s.nextUid == uid)
  {
    hide NsApply, PoolApply, IndexApply, WorldApply, ResApply;
    match a
    case OnNs(x) => NsAfter(s, x);
    case OnPool(x) => PoolAfter(s, x);
    case OnIndex(x) => IndexAfter(s, x);
    case OnWorld(x) => WorldAfter(s, x);
    case OnRes(x) => ResAfter(s, x);
  }

  /** In every reachable state the status of an active reservation has the pool asked for, and the namespace it names is
      of that pool. */
  lemma ActiveOnItsPool(run: seq<State>, acts: seq<Action>, i: nat, k: string)
    requires IsRun(run, acts) && Inv(run[0]) && i <= |acts|
    requires k in run[i].reservations && run[i].reservations[k].status.state in {Active, Draining}
    ensures var r := run[i].reservations[k]; var n := r.status.namespace;
            && r.status.pool == (if r.spec.pool == "" then "default" else r.spec.pool)
            && (n in run[i].namespaces ==> run[i].namespaces[n].pool == Some(r.status.pool))
  {
    RunKeepsInv(run, acts, i);
    NamedIsOwned(run[i], k);
    DrawsFrom(run[i], k);
  }

  lemma DrawsFrom(s: State, k: string)
    requires PoolInv(s) && k in s.reservations && s.reservations[k].status.state in {Active, Draining}
    requires Owns(s, s.reservations[k].status.namespace, k, s.reservations[k].uid)
    ensures s.reservations[k].status.pool == HomePool(s.reservations[k].spec)
    ensures var n := s.reservations[k].status.namespace;
            n in s.namespaces ==> s.namespaces[n].pool == Some(HomePool(s.reservations[k].spec))
  {
    assert DrawsOf(s.filed, k, s.reservations[k]);
  }

  // ----------------------------------------------- reservation lifecycle

  /** The persisted state only advances along "", waiting, active, deleting; the namespace is set exactly
      from active on and never changes; the finalizer is there only with a namespace. */
  lemma LifecycleIsMonotone(run: seq<State>, acts: seq<Action>, i: nat, j: nat, k: string)
    requires IsRun(run, acts) && Inv(run[0]) && i <= j <= |acts|
    requires k in run[i].reservations && k in run[j].reservations
    requires run[i].reservations[k].uid == run[j].reservations[k].uid
    ensures ReservationAdvances(run[i].reservations[k], run[j].reservations[k])
    ensures var r := run[j].reservations[k];
            && (r.status.namespace != "" <==> r.status.state in {Active, Draining})
            && (r.finalizer ==> r.status.namespace != "")
  {
    RunKeepsInv(run, acts, i);
    RunKeepsInv(run, acts, j);
    RunEvolves(run, acts, i, j);
  }

  // ------------------------------------------------ drain before release

  /** Step `m` of the run is a cleanup pass of `k` finding no Cluster in its namespace, or no Cluster kind. */
  ghost predicate FoundDrained(run: seq<State>, acts: seq<Action>, m: nat, k: string)
    requires m < |acts| && m < |run|
  {
    && acts[m] == OnRes(ObserveDrained(k)) && k in run[m].reservations
    && NoClusters(run[m], run[m].reservations[k].status.namespace)
  }

  /** Step `r` takes the finalizer off reservation `k`, and the last listing of its clusters before that, at step `m`,
      found none. */
  ghost predicate ReleasedDrained(run: seq<State>, acts: seq<Action>, m: nat, r: nat, k: string)
    requires m < r < |acts| && r < |run|
  {
    && FoundDrained(run, acts, m, k) && acts[r] == OnRes(ReleaseFinalizer(k))
    && k in run[r].reservations && run[r].reservations[k].uid == run[m].reservations[k].uid
    && forall l | m < l < r :: acts[l] != OnRes(ObserveClusters(k))
  }

  /** A reservation that ever carried the finalizer leaves the store only by such a step. */
  lemma DrainBeforeRelease(run: seq<State>, acts: seq<Action>, i: nat, j: nat, k: string)
    requires IsRun(run, acts) && Inv(run[0]) && run[0].drained == {} && i <= j <= |acts|
    requires k in run[i].reservations && run[i].reservations[k].finalizer
    requires k in run[j].reservations ==> run[j].reservations[k].uid != run[i].reservations[k].uid
    ensures exists m, r | 0 <= m < r && i <= r < j ::
              ReleasedDrained(run, acts, m, r, k) && run[r].reservations[k].uid == run[i].reservations[k].uid
  {
    hide Inv, Enabled, Apply;
    var uid := run[i].reservations[k].uid;
    ReleasedMeanwhile(run, acts, i, j, k);
    var r := ReleasingStep(run, acts, i, j, uid);
    ReleasedIs(run, acts, i, r, k, uid);
    var m := DrainingStep(run, acts, r, uid);
    DrainedIs(run, acts, m, r, k, uid);
    assert ReleasedDrained(run, acts, m, r, k);
  }

  lemma ReleasedMeanwhile(run: seq<State>, acts: seq<Action>, i: nat, j: nat, k: string)
    requires IsRun(run, acts) && Inv(run[0]) && i <= j <= |acts|
    requires k in run[i].reservations && run[i].reservations[k].finalizer
    requires k in run[j].reservations ==> run[j].reservations[k].uid != run[i].reservations[k].uid
    ensures run[i].reservations[k].uid in run[j].released && run[i].reservations[k].uid !in run[i].released
    ensures |run| == |acts| + 1
  {
    RunKeepsInv(run, acts, i);
    RunEvolves(run, acts, i, j);
  }

  /** The step at which a uid is released. */
  lemma {:induction false} ReleasingStep(run: seq<State>, acts: seq<Action>, i: nat, j: nat, uid: nat) returns (r: nat)
    requires |run| == |acts| + 1 && i <= j <= |acts| && uid !in run[i].released && uid in run[j].released
    ensures i <= r < j && uid !in run[r].released && uid in run[r + 1].released
    decreases j
  {
    if uid in run[j - 1].released {
      r := ReleasingStep(run, acts, i, j - 1, uid);
    } else {
      r := j - 1;
    }
  }

  lemma ReleasedIs(run: seq<State>, acts: seq<Action>, i: nat, r: nat, k: string, uid: nat)
    requires IsRun(run, acts) && Inv(run[0]) && i <= r < |acts|
    requires k in run[i].reservations && run[i].reservations[k].uid == uid
    requires uid !in run[r].released && uid in run[r + 1].released
    ensures k in run[r].reservations && run[r].reservations[k].uid == uid
    ensures acts[r] == OnRes(ReleaseFinalizer(k)) && uid in run[r].drained
  {
    hide Inv, Enabled, Apply;
    RunKeepsInv(run, acts, i);
    RunKeepsInv(run, acts, r);
    RunEvolves(run, acts, i, r);
    ReleasedBy(run[r], acts[r], uid);
    SameUid(run[i], run[r], k, acts[r].res.k);
  }

  /** A uid stands for one name. */
  lemma SameUid(s: State, t: State, k: string, k': string)
    requires Inv(s) && Evolves(s, t) && k in s.reservations && k' in t.reservations
    requires s.reservations[k].uid == t.reservations[k'].uid
    ensures k == k'
  {
    hide OwnershipInv, LifecycleInv, ExpiryInv, IndexInv, HistoryInv, LimitInv, NamespacesEvolve, VersionsEvolve;
  }

  lemma ReleasedBy(s: State, a: Action, uid: nat)
    requires Enabled(s, a) && uid !in s.released && uid in Apply(s, a).released
    ensures a.OnRes? && a.res.ReleaseFinalizer? && a.res.k in s.reservations
    ensures s.reservations[a.res.k].uid == uid && uid in s.drained
  {
    hide NsApply, PoolApply, IndexApply, WorldApply, ResApply;
    match a
    case OnNs(x) => NsAfter(s, x);
    case OnPool(x) => PoolAfter(s, x);
    case OnIndex(x) => IndexAfter(s, x);
    case OnWorld(x) => WorldAfter(s, x);
    case OnRes(x) => ResAfter(s, x);
  }

  /** The last step at which a uid entered `drained`. */
  lemma {:induction false} DrainingStep(run: seq<State>, acts: seq<Action>, r: nat, uid: nat) returns (m: nat)
    requires |run| == |acts| + 1 && r <= |acts| && uid !in run[0].drained && uid in run[r].drained
    ensures m < r && uid !in run[m].drained && forall l | m < l <= r :: uid in run[l].drained
    decreases r
  {
    if uid in run[r - 1].drained {
      m := DrainingStep(run, acts, r - 1, uid);
    } else {
      m := r - 1;
    }
  }

  lemma DrainedIs(run: seq<State>, acts: seq<Action>, m: nat, r: nat, k: string, uid: nat)
    requires IsRun(run, acts) && Inv(run[0]) && m < r < |acts|
    requires k in run[r].reservations && run[r].reservations[k].uid == uid
    requires uid !in run[m].drained && forall l | m < l <= r :: uid in run[l].drained
    ensures FoundDrained(run, acts, m, k) && run[m].reservations[k].uid == uid
    ensures forall l | m < l < r :: acts[l] != OnRes(ObserveClusters(k))
  {
    hide Inv, Enabled, Apply;
    RunKeepsInv(run, acts, m);
    RunEvolves(run, acts, m, r);
    DrainedBy(run[m], acts[m], uid);
    SameUid(run[m], run[r], acts[m].res.k, k);
    forall l | m < l < r ensures acts[l] != OnRes(ObserveClusters(k)) {
      RunEvolves(run, acts, m, l);
      RunEvolves(run, acts, l, r);
      assert uid in run[l + 1].drained;
      NotSeenSince(run[m], run[l], acts[l], run[r], k);
    }
  }

  lemma NotSeenSince(s: State, t: State, a: Action, u: State, k: string)
    requires Inv(s) && Evolves(s, t) && Evolves(t, u) && Enabled(t, a)
    requires k in s.reservations && k in u.reservations && s.reservations[k].uid == u.reservations[k].uid
    requires s.reservations[k].uid in Apply(t, a).drained
    ensures a != OnRes(ObserveClusters(k))
  {
    hide OwnershipInv, LifecycleInv, ExpiryInv, IndexInv, HistoryInv, LimitInv, NamespacesEvolve, VersionsEvolve,
         ResApply, NsApply, PoolApply, IndexApply, WorldApply;
    if a == OnRes(ObserveClusters(k)) {
      ResAfter(t, a.res);
    }
  }

  lemma DrainedBy(s: State, a: Action, uid: nat)
    requires Enabled(s, a) && uid !in s.drained && uid in Apply(s, a).drained
    ensures a.OnRes? && a.res.ObserveDrained? && a.res.k in s.reservations && s.reservations[a.res.k].uid == uid
    ensures NoClusters(s, s.reservations[a.res.k].status.namespace)
  {
    hide NsApply, PoolApply, IndexApply, WorldApply, ResApply;
    match a
    case OnNs(x) => NsAfter(s, x);
    case OnPool(x) => PoolAfter(s, x);
    case OnIndex(x) => IndexAfter(s, x);
    case OnWorld(x) => WorldAfter(s, x);
    case OnRes(x) => ResAfter(s, x);
  }

  // ------------------------------------------------------ expiry is never early

  /** No worker deletes a reservation of an unreused name before its expiry, `d` being the nanoseconds it asks for, one
      hour if nothing: the reservation controller not before created + d, the poller not before the whole-second
      reading of it. */
  lemma ExpiryIsNeverEarly(run: seq<State>, acts: seq<Action>, i: nat, k: string, d: int)
    requires IsRun(run, acts) && Inv(run[0]) && i < |acts|
    requires acts[i].OnRes? && acts[i].res.OpDelete? && acts[i].res.k == k && k !in run[i].reused
    requires var text := run[i].reservations[k].spec.duration;
             text == Readable(d) || (text == Empty && d == 3_600_000_000_000)
    ensures acts[i].res.who == ReservationWorker || d % 1_000_000_000 == 0 ==>
              run[i].reservations[k].created + d <= run[i].now
    ensures Persist(run[i].reservations[k].created + d) <= run[i].now
    ensures run[i].reservations[k].created + d < run[i].now + 1_000_000_000
  {
    hide Inv, Apply, Persist;
    RunKeepsInv(run, acts, i);
    InvParts(run[i]);
    DeletedInTime(run[i], acts[i].res, d);
  }

  lemma DeletedInTime(s: State, a: ResAction, d: int)
    requires ExpiryInv(s) && ResEnabled(s, a) && a.OpDelete? && a.k !in s.reused
    requires var text := s.reservations[a.k].spec.duration;
             text == Readable(d) || (text == Empty && d == 3_600_000_000_000)
    ensures a.who == ReservationWorker || d % 1_000_000_000 == 0 ==> s.reservations[a.k].created + d <= s.now
    ensures Persist(s.reservations[a.k].created + d) <= s.now
    ensures s.reservations[a.k].created + d < s.now + 1_000_000_000
  {
    WholeSeconds(s.reservations[a.k].created, d);
  }

  lemma WholeSeconds(c: Time, d: int)
    requires c % SECOND == 0
    ensures (c + d) % SECOND == d % SECOND
  {
    var q, w := c / SECOND, d / SECOND;
    assert c == q * SECOND && d == w * SECOND + d % SECOND;
    assert c + d == (q + w) * SECOND + d % SECOND;
  }

  /** Every index entry and every persisted expiration of a reservation is one of its two legal values. */
  lemma ExpiryEntries(run: seq<State>, acts: seq<Action>, i: nat, k: string, d: int)
    requires IsRun(run, acts) && Inv(run[0]) && i <= |acts| && k in run[i].reservations
    requires var text := run[i].reservations[k].spec.duration;
             text == Readable(d) || (text == Empty && d == 3_600_000_000_000)
    ensures k in run[i].index && k !in run[i].reused ==> LegalExpiry(run[i].reservations[k].created, d, run[i].index[k])
    ensures run[i].reservations[k].status.state == Active ==>
              LegalExpiry(run[i].reservations[k].created, d, run[i].reservations[k].status.expiration)
  {
    hide Inv, Apply, Enabled;
    RunKeepsInv(run, acts, i);
    InvParts(run[i]);
    LegalEntries(run[i], k, d);
  }

  lemma LegalEntries(s: State, k: string, d: int)
    requires ExpiryInv(s) && k in s.reservations
    requires var text := s.reservations[k].spec.duration;
             text == Readable(d) || (text == Empty && d == 3_600_000_000_000)
    ensures forall e | ExpiryOf(s.reservations[k], e) :: LegalExpiry(s.reservations[k].created, d, e)
  {
  }

  /** Created + d, or what a write of it reads back as; a duration of zero expires at the moment of asking. */
  predicate LegalExpiry(created: Time, d: int, e: Time) {
    if d == 0 then created <= e
    else e == created + d || e == created + d - (created + d) % 1_000_000_000
  }

  /** A duration that cannot be read never becomes an expiry: no worker registers one for such a reservation, unless the
      name was used before, and it never becomes active. */
  lemma MalformedNeverExpires(run: seq<State>, acts: seq<Action>, i: nat, k: string)
    requires IsRun(run, acts) && Inv(run[0]) && i < |acts|
    requires k in run[i].reservations && run[i].reservations[k].spec.duration == Malformed
    ensures acts[i].OnIndex? && acts[i].idx.Register? && acts[i].idx.k == k ==> k in run[i].reused
    ensures run[i].reservations[k].status.state != Active
    ensures k in run[i].index ==> k in run[i].reused
  {
    hide Apply;
    RunKeepsInv(run, acts, i);
    assert Enabled(run[i], acts[i]);
  }

  // ------------------------------------------- the expiry index is complete

  /** `k` was popped at step `m` and neither registered again nor forgotten by a restart up to step `i`. */
  ghost predicate PoppedSince(acts: seq<Action>, m: nat, i: nat, k: string)
    requires m < i <= |acts|
  {
    && acts[m] == OnIndex(Pop(k))
    && forall l | m < l < i :: !(acts[l].OnIndex? && acts[l].idx.Register? && acts[l].idx.k == k)
                               && acts[l] != OnIndex(Restart)
  }

  lemma {:induction false} LostWasPopped(run: seq<State>, acts: seq<Action>, i: nat, k: string)
    requires IsRun(run, acts) && i <= |acts| && k !in run[0].lost && k in run[i].lost
    ensures exists m | 0 <= m < i :: PoppedSince(acts, m, i, k)
    decreases i
  {
    hide Enabled, Apply;
    var a := acts[i - 1];
    LostAfter(run[i - 1], a, k);
    if a == OnIndex(Pop(k)) {
      assert PoppedSince(acts, i - 1, i, k);
    } else {
      LostWasPopped(run, acts, i - 1, k);
      var m :| 0 <= m < i - 1 && PoppedSince(acts, m, i - 1, k);
      assert PoppedSince(acts, m, i, k);
    }
  }

  lemma LostAfter(s: State, a: Action, k: string)
    requires Enabled(s, a) && k in Apply(s, a).lost
    ensures a == OnIndex(Pop(k)) || k in s.lost
    ensures !(a.OnIndex? && a.idx.Register? && a.idx.k == k) && a != OnIndex(Restart)
  {
    hide NsApply, PoolApply, ResApply, WorldApply, IndexApply;
    match a
    case OnNs(x) => NsAfter(s, x);
    case OnPool(x) => PoolAfter(s, x);
    case OnRes(x) => ResAfter(s, x);
    case OnIndex(x) => LostAfterIndexStep(s, x, k);
    case OnWorld(x) => WorldAfter(s, x);
  }

  lemma LostAfterIndexStep(s: State, a: IndexAction, k: string)
    requires IndexEnabled(s, a) && k in IndexApply(s, a).lost
    ensures a == Pop(k) || k in s.lost
    ensures !(a.Register? && a.k == k) && a != Restart
  {
  }

  predicate Deletes(a: Action, k: string) {
    a == OnRes(UserDelete(k)) || (a.OnRes? && a.res.OpDelete? && a.res.k == k)
  }

  /** After start-up population every active reservation that no one has deleted is in the index, unless the poller
      popped it and no reconcile registered it since; and then neither the poller's deletion nor any other has
      succeeded since the pop, unless the name has been used again. */
  lemma IndexIsComplete(run: seq<State>, acts: seq<Action>, i: nat, k: string)
    requires IsRun(run, acts) && Inv(run[0]) && run[0].lost == {} && i <= |acts|
    requires run[i].populated && k in run[i].reservations
    requires run[i].reservations[k].status.state == Active && !run[i].reservations[k].marked
    ensures k in run[i].index ||
            exists m | 0 <= m < i ::
              PoppedSince(acts, m, i, k) && (k in run[i].reused || forall l | m <= l < i :: !Deletes(acts[l], k))
  {
    hide Enabled, Apply, Inv, PoppedSince;
    RunKeepsInv(run, acts, i);
    IndexedNow(run[i], k);
    if k !in run[i].index {
      LostWasPopped(run, acts, i, k);
      var m :| 0 <= m < i && PoppedSince(acts, m, i, k);
      if k !in run[i].reused {
        forall l | m <= l < i ensures !Deletes(acts[l], k) {
          DeletionLasts(run, acts, l, i, k);
        }
      }
    }
  }

  lemma IndexedNow(s: State, k: string)
    requires Inv(s) && s.populated && k in s.reservations
    requires s.reservations[k].status.state == Active && !s.reservations[k].marked
    ensures Indexed(s, k)
  {
  }

  /** A deleted reservation is marked or gone for good; only another one may take the name. */
  lemma DeletionLasts(run: seq<State>, acts: seq<Action>, l: nat, i: nat, k: string)
    requires IsRun(run, acts) && Inv(run[0]) && l < i <= |acts|
    ensures Deletes(acts[l], k) && k in run[i].reservations ==> run[i].reservations[k].marked || k in run[i].reused
  {
    hide Enabled, Apply, Inv;
    RunKeepsInv(run, acts, l);
    RunEvolves(run, acts, l + 1, i);
    if Deletes(acts[l], k) {
      MarkedOrGone(run[l], acts[l], k);
    }
  }

  lemma MarkedOrGone(s: State, a: Action, k: string)
    requires Inv(s) && Enabled(s, a) && Deletes(a, k)
    ensures var t := Apply(s, a);
            k in t.resNames && (k in t.reservations ==> t.reservations[k].marked)
  {
    hide ResApply, VersionsInv, OwnershipInv, ExpiryInv, IndexInv, LimitInv, MayDelete;
    ResAfter(s, a.res);
  }

  /** An entry leaves the index only when it has expired, or with a restart. */
  lemma {:induction false} DroppedWasExpired(run: seq<State>, acts: seq<Action>, i: nat, j: nat, k: string)
    requires IsRun(run, acts) && i <= j <= |acts| && k in run[i].index && k !in run[j].index
    ensures exists m | i <= m < j ::
              acts[m] == OnIndex(Restart)
              || (acts[m] == OnIndex(Pop(k)) && k in run[m].index && run[m].index[k] != 0 && run[m].index[k] <= run[m].now)
    decreases j
  {
    hide Enabled, Apply;
    if k in run[j - 1].index {
      DroppedBy(run[j - 1], acts[j - 1], k);
    } else {
      DroppedWasExpired(run, acts, i, j - 1, k);
    }
  }

  lemma DroppedBy(s: State, a: Action, k: string)
    requires Enabled(s, a) && k in s.index && k !in Apply(s, a).index
    ensures a == OnIndex(Restart) || (a == OnIndex(Pop(k)) && Expired(s.index[k], s.now))
  {
    hide NsApply, PoolApply, ResApply, WorldApply, IndexApply, NsEnabled, ResEnabled, PoolEnabled;
    match a
    case OnNs(x) => NsAfter(s, x);
    case OnPool(x) => PoolAfter(s, x);
    case OnRes(x) => ResAfter(s, x);
    case OnIndex(x) => DroppedByIndexStep(s, x, k);
    case OnWorld(x) => WorldAfter(s, x);
  }

  lemma DroppedByIndexStep(s: State, a: IndexAction, k: string)
    requires IndexEnabled(s, a) && k in s.index && k !in IndexApply(s, a).index
    ensures a == Restart || (a == Pop(k) && Expired(s.index[k], s.now))
  {
  }

  // ----------------------------------------------- the versioned store

  /** A stale whole-object write is harmless: once a completion time has been written over a version that
      had none, no later state carries that version, so a write based on it is refused for ever. */
  lemma StaleWriteFails(run: seq<State>, acts: seq<Action>, i: nat, j: nat, m: nat, n: string)
    requires IsRun(run, acts) && Inv(run[0]) && i <= j <= m <= |acts|
    requires n in run[i].namespaces && CompletionTime !in run[i].namespaces[n].annotations
    requires n in run[j].namespaces && CompletionTime in run[j].namespaces[n].annotations
    requires n in run[m].namespaces
    ensures run[m].namespaces[n].version != run[i].namespaces[n].version
  {
    hide Apply, Enabled;
    RunKeepsInv(run, acts, i);
    RunKeepsInv(run, acts, j);
    RunEvolves(run, acts, i, m);
    RunEvolves(run, acts, j, m);
  }

  // ------------------------------------------------ claimed namespaces are safe

  /** There, and not being deleted. */
  predicate Alive(s: State, n: string) {
    n in s.namespaces && !s.namespaces[n].terminating
  }

  /** The reservation exists from step `i` to step `j`. */
  ghost predicate Stays(run: seq<State>, i: nat, j: nat, k: string, uid: nat)
    requires i <= j < |run|
  {
    forall m | i <= m <= j :: k in run[m].reservations && run[m].reservations[k].uid == uid
  }

  /** A namespace stays with the reservation that owns it, and in undisturbed passes no one deletes it while the
      reservation exists: it is alive exactly if it was. */
  lemma {:induction false} ClaimedNamespaceIsSafe(run: seq<State>, acts: seq<Action>, i: nat, j: nat, k: string,
      uid: nat, n: string)
    requires IsRun(run, acts) && Inv(run[0]) && i <= j <= |acts|
    requires forall m | i <= m < j :: Undisturbed(run[m], acts[m])
    requires Stays(run, i, j, k, uid) && Owns(run[i], n, k, uid)
    ensures Alive(run[j], n) <==> Alive(run[i], n)
    ensures Owns(run[j], n, k, uid)
    ensures n in run[j].namespaces ==> run[j].namespaces[n].owners == [Owner(ReservationKind, k, uid)]
    decreases j
  {
    hide Inv, Enabled, Apply, Undisturbed, IsRun, Owns, Alive;
    RunStep(run, acts, j);
    OwnsOn(run, acts, i, j, k, uid, n);
    if i < j {
      OwnsOn(run, acts, i, j - 1, k, uid, n);
      ClaimedNamespaceIsSafe(run, acts, i, j - 1, k, uid, n);
      SafeStep(run[j - 1], acts[j - 1], k, uid, n);
    }
    if n in run[j].namespaces {
      OwnedBy(run[j], n, k, uid);
    }
  }

  /** From the claim on: in undisturbed passes the namespace is alive exactly if it was not being deleted when it was
      claimed. The code does not look at that. */
  lemma ClaimIsSafeIff(run: seq<State>, acts: seq<Action>, i: nat, j: nat, k: string, uid: nat, n: string)
    requires IsRun(run, acts) && Inv(run[0]) && i < j <= |acts| && acts[i] == OnNs(Claim(n, k, uid))
    requires forall m | i < m < j :: Undisturbed(run[m], acts[m])
    requires Stays(run, i + 1, j, k, uid)
    ensures n in run[i].namespaces && (Alive(run[j], n) <==> !run[i].namespaces[n].terminating)
  {
    hide Inv, Apply, Enabled, Undisturbed, Owns, Alive, Stays, IsRun;
    RunStep(run, acts, i + 1);
    AfterClaim(run[i], acts[i]);
    ClaimedNamespaceIsSafe(run, acts, i + 1, j, k, uid, n);
  }

  lemma AfterClaim(s: State, a: Action)
    requires Enabled(s, a) && Claims(a)
    ensures var t := Apply(s, a); var n := a.ns.n;
            Owns(t, n, a.ns.k, a.ns.uid) && n in s.namespaces && (Alive(t, n) <==> !s.namespaces[n].terminating)
  {
    hide NsApply;
    NsAfter(s, a.ns);
  }

  /** While its reservation exists, a namespace it owns is annotated, or the end of a deletion begun before is reached,
      or a pass deletes it that was not undisturbed: no other step touches it. */
  lemma OwnedIsLeftAlone(run: seq<State>, acts: seq<Action>, i: nat, k: string, n: string)
    requires IsRun(run, acts) && Inv(run[0]) && i < |acts| && acts[i].OnNs? && acts[i].ns.n == n
    requires k in run[i].reservations && Owns(run[i], n, k, run[i].reservations[k].uid)
    ensures acts[i].ns.Annotate? || (acts[i].ns.FinishNs? && !Alive(run[i], n))
            || (acts[i].ns.DeleteNs? && !Undisturbed(run[i], acts[i]))
  {
    RunKeepsInv(run, acts, i);
    LeftAlone(run[i], acts[i].ns, k);
  }

  lemma LeftAlone(s: State, a: NsAction, k: string)
    requires Inv(s) && NsEnabled(s, a) && k in s.reservations && Owns(s, a.n, k, s.reservations[k].uid)
    ensures a.Annotate? || (a.FinishNs? && !Alive(s, a.n)) || (a.DeleteNs? && !Undisturbed(s, OnNs(a)))
  {
    hide VersionsInv, LifecycleInv, ExpiryInv, IndexInv, HistoryInv, LimitInv, UnderLimit, Charged;
    if a.GcNs? {
      OwnedBy(s, a.n, k, s.reservations[k].uid);
      assert !OwnerGone(s, s.namespaces[a.n].owners[0]);
    }
  }

  /** The namespace in the status is one the reservation owns. */
  lemma NamedIsOwned(s: State, k: string)
    requires Inv(s) && k in s.reservations && s.reservations[k].status.namespace != ""
    ensures Owns(s, s.reservations[k].status.namespace, k, s.reservations[k].uid)
  {
  }

  lemma RunStep(run: seq<State>, acts: seq<Action>, j: nat)
    requires IsRun(run, acts) && j <= |acts|
    ensures |run| == |acts| + 1
    ensures j > 0 ==> Enabled(run[j - 1], acts[j - 1]) && run[j] == Apply(run[j - 1], acts[j - 1])
  {
    hide Enabled, Apply;
  }

  lemma OwnsOn(run: seq<State>, acts: seq<Action>, i: nat, j: nat, k: string, uid: nat, n: string)
    requires IsRun(run, acts) && Inv(run[0]) && i <= j <= |acts| && Owns(run[i], n, k, uid)
    ensures Owns(run[j], n, k, uid) && Inv(run[j])
  {
    RunKeepsInv(run, acts, j);
    RunEvolves(run, acts, i, j);
  }

  lemma SafeStep(s: State, a: Action, k: string, uid: nat, n: string)
    requires Inv(s) && Enabled(s, a) && Undisturbed(s, a)
    requires k in s.reservations && s.reservations[k].uid == uid && Owns(s, n, k, uid)
    ensures Alive(Apply(s, a), n) <==> Alive(s, n)
  {
    hide NsApply, PoolApply, ResApply, WorldApply, IndexApply, Owns, Undisturbed, Inv;
    match a
    case OnNs(x) => SafeNsStep(s, x, k, n);
    case OnPool(x) => PoolAfter(s, x);
    case OnRes(x) => ResAfter(s, x);
    case OnIndex(x) => IndexAfter(s, x);
    case OnWorld(x) => WorldAfter(s, x);
  }

  lemma SafeNsStep(s: State, a: NsAction, k: string, n: string)
    requires Inv(s) && NsEnabled(s, a) && Undisturbed(s, OnNs(a))
    requires k in s.reservations && Owns(s, n, k, s.reservations[k].uid)
    ensures Alive(NsApply(s, a), n) <==> Alive(s, n)
  {
    hide NsApply, NsVersion, NsEnabled, Undisturbed, Inv, Owns, NewLedger, Charged;
    NsAfter(s, a);
    if a.n == n {
      LeftAlone(s, a, k);
      if a.Annotate? {
        AnnotatedAlive(s, a);
      }
    }
  }

  lemma AnnotatedAlive(s: State, a: NsAction)
    requires NsEnabled(s, a) && a.Annotate?
    ensures a.n in s.namespaces && NewNs(s, a).terminating == s.namespaces[a.n].terminating
  {
  }
}
