/** How the state changes over a run: what only grows, what never comes back, and what an actor may
    rely on while the others take any number of steps. */
module Evolution {
  import opened Objects
  import opened Protocol
  import opened Invariant

  // -------------------------------------------------- two-state relations

  /** An object of `s'` is the one of `s`, or carries a version issued since. */
  ghost predicate VersionsEvolve(s: State, s': State) {
    && s.nextVersion <= s'.nextVersion && s.nextUid <= s'.nextUid && s.now <= s'.now
    && (forall n | n in s'.namespaces ::
          (n in s.namespaces && s'.namespaces[n] == s.namespaces[n]) || s.nextVersion <= s'.namespaces[n].version)
    && (forall k | k in s'.reservations ::
          (k in s.reservations && s'.reservations[k] == s.reservations[k]) || s.nextVersion <= s'.reservations[k].version)
    && (forall p | p in s'.pools ::
          (p in s.pools && s'.pools[p] == s.pools[p]) || s.nextVersion <= s'.pools[p].version)
  }

  /** A namespace name is not used twice; a claimed namespace keeps its owner; the completion time stays. */
  ghost predicate NamespacesEvolve(s: State, s': State) {
    && s.created <= s'.created && s.ledger.Keys <= s'.ledger.Keys
    && (forall n | n in s.ledger && s.ledger[n].kind == ReservationKind :: s'.ledger[n] == s.ledger[n])
    && (forall n | n in s'.namespaces && n in s.created ::
          n in s.namespaces && NamespaceAdvances(s.namespaces[n], s'.namespaces[n]))
  }

  ghost predicate NamespaceAdvances(ns: Namespace, ns': Namespace) {
    && (ns.terminating ==> ns'.terminating)
    && (CompletionTime in ns.annotations ==> CompletionTime in ns'.annotations)
    && (ns.pool.Some? ==> ns'.pool == ns.pool)
  }

  function Rank(state: ResState): nat {
    match state case Unset => 0 case Waiting => 1 case Active => 2 case Draining => 3
  }

  ghost predicate ReservationAdvances(r: Reservation, r': Reservation) {
    && r'.uid == r.uid && r'.created == r.created && r'.spec == r.spec
    && Rank(r.status.state) <= Rank(r'.status.state)
    && (r.status.namespace != "" ==> r'.status.namespace == r.status.namespace)
    && (r.marked ==> r'.marked) && (r.finalizer ==> r'.finalizer)
  }

  /** A reservation only advances, and one that carries the finalizer leaves only released. */
  ghost predicate ReservationsEvolve(s: State, s': State) {
    && s.resNames <= s'.resNames && s.reused <= s'.reused && s.nextUid <= s'.nextUid
    && s.named <= s'.named && s.released <= s'.released
    && (forall u | u in s.filed :: u in s'.filed && s'.filed[u] == s.filed[u])
    && (forall k | k in s'.reservations ::
          s.nextUid <= s'.reservations[k].uid
          || (k in s.reservations && ReservationAdvances(s.reservations[k], s'.reservations[k])))
    && (forall k | k in s'.reservations && s.nextUid <= s'.reservations[k].uid && k in s.resNames :: k in s'.reused)
    && (forall k | k in s.reservations && s.reservations[k].finalizer ::
          (k in s'.reservations && s'.reservations[k].uid == s.reservations[k].uid)
          || s.reservations[k].uid in s'.released)
  }

  ghost predicate Evolves(s: State, s': State) {
    VersionsEvolve(s, s') && NamespacesEvolve(s, s') && ReservationsEvolve(s, s')
  }

  lemma VersionsEvolveTransitive(s: State, s': State, s'': State)
    requires VersionsEvolve(s, s') && VersionsEvolve(s', s'')
    ensures VersionsEvolve(s, s'')
  {
  }

  lemma NamespacesEvolveTransitive(s: State, s': State, s'': State)
    requires NamespacesEvolve(s, s') && NamespacesEvolve(s', s'')
    ensures NamespacesEvolve(s, s'')
  {
  }

  lemma ReservationsEvolveTransitive(s: State, s': State, s'': State)
    requires ReservationsEvolve(s, s') && ReservationsEvolve(s', s'') && VersionsInv(s)
    ensures ReservationsEvolve(s, s'')
  {
  }

  lemma EvolvesTransitive(s: State, s': State, s'': State)
    requires Evolves(s, s') && Evolves(s', s'') && VersionsInv(s)
    ensures Evolves(s, s'')
  {
    hide VersionsEvolve, NamespacesEvolve, ReservationsEvolve, VersionsInv;
    VersionsEvolveTransitive(s, s', s'');
    NamespacesEvolveTransitive(s, s', s'');
    ReservationsEvolveTransitive(s, s', s'');
  }

  // ---------------------------------------------------- one step evolves

  lemma NewNsAdvances(s: State, a: NsAction)
    requires OwnershipInv(s) && NsEnabled(s, a) && !a.FinishNs? && a.n in s.namespaces
    ensures NamespaceAdvances(s.namespaces[a.n], NewNs(s, a))
  {
  }

  lemma NewResAdvances(s: State, a: ResAction)
    requires LifecycleInv(s) && ResEnabled(s, a) && Writes(s, a) && !a.UserCreate?
    ensures a.k in s.reservations && ReservationAdvances(s.reservations[a.k], NewRes(s, a))
  {
  }

  lemma NsEvolves(s: State, a: NsAction)
    requires Inv(s) && NsEnabled(s, a)
    ensures Evolves(s, NsApply(s, a))
  {
    hide NsApply, NewNs, NewLedger, Charged, NsEnabled, NamespacesEvolve;
    NsAfter(s, a);
    NsNamespacesEvolve(s, a);
  }

  lemma NsNamespacesEvolve(s: State, a: NsAction)
    requires OwnershipInv(s) && NsEnabled(s, a)
    ensures NamespacesEvolve(s, NsApply(s, a))
  {
    hide NsApply, NewNs, NewLedger, Charged, NsEnabled, NsVersion, OwnershipOf;
    NsAfter(s, a);
    NewLedgerKeepsOthers(s, a);
    NsLedgerEvolves(s, a);
    if !a.FinishNs? {
      NewNsOwnership(s, a);
      if a.n in s.namespaces {
        NewNsAdvances(s, a);
      }
    }
  }

  lemma NsLedgerEvolves(s: State, a: NsAction)
    requires NsEnabled(s, a)
    ensures forall n | n in s.ledger && s.ledger[n].kind == ReservationKind :: NewLedger(s, a)[n] == s.ledger[n]
  {
    NewLedgerKeepsOthers(s, a);
  }

  lemma ResEvolves(s: State, a: ResAction)
    requires Inv(s) && ResEnabled(s, a)
    ensures Evolves(s, ResApply(s, a))
  {
    hide ResApply, Writes, Removes, NewRes, ResEnabled, ReservationsEvolve;
    ResAfter(s, a);
    ResReservationsEvolve(s, a);
  }

  lemma ResReservationsEvolve(s: State, a: ResAction)
    requires VersionsInv(s) && LifecycleInv(s) && PoolInv(s) && ResEnabled(s, a)
    ensures ReservationsEvolve(s, ResApply(s, a))
  {
    hide ResApply, Writes, Removes, NewRes, ResEnabled, ResVersion, LifecycleInv, PoolInv, ReservationAdvances;
    ResAfter(s, a);
    ResReleases(s, a);
    FiledStays(s, a);
    if Writes(s, a) {
      NewResHistory(s, a);
      if !a.UserCreate? {
        NewResAdvances(s, a);
        VersionAdvances(s.reservations[a.k], NewRes(s, a), ResVersion(s, a.k, NewRes(s, a)));
      }
    }
    NoneAdvance(s);
  }

  lemma NoneAdvance(s: State)
    ensures forall k | k in s.reservations :: ReservationAdvances(s.reservations[k], s.reservations[k])
  {
  }

  lemma VersionAdvances(r: Reservation, r': Reservation, version: nat)
    requires ReservationAdvances(r, r')
    ensures ReservationAdvances(r, r'.(version := version))
    ensures r'.(version := version).uid == r.uid
  {
  }

  lemma FiledStays(s: State, a: ResAction)
    requires PoolInv(s) && ResEnabled(s, a)
    ensures forall u | u in s.filed :: u in ResApply(s, a).filed && ResApply(s, a).filed[u] == s.filed[u]
  {
    hide ResApply, ResEnabled, Writes, Observes, NewRes;
    ResAfter(s, a);
  }

  lemma ResReleases(s: State, a: ResAction)
    requires ResEnabled(s, a)
    ensures s.named <= ResApply(s, a).named && s.released <= ResApply(s, a).released
    ensures !Writes(s, a) && !Observes(a) && s.reservations[a.k].finalizer ==>
              s.reservations[a.k].uid in ResApply(s, a).released
  {
    hide NewReservations, NewDrained;
  }

  lemma PoolEvolves(s: State, a: PoolAction)
    requires Inv(s) && PoolEnabled(s, a)
    ensures Evolves(s, PoolApply(s, a))
  {
    hide PoolApply, ReservationsEvolve;
    PoolAfter(s, a);
    ReservationsStay(s, PoolApply(s, a));
  }

  lemma ReservationsStay(s: State, t: State)
    requires VersionsInv(s)
    requires t.reservations == s.reservations && t.resNames == s.resNames && t.reused == s.reused
    requires t.filed == s.filed && t.named == s.named && t.released == s.released && s.nextUid <= t.nextUid
    ensures ReservationsEvolve(s, t)
  {
  }

  lemma StepEvolves(s: State, a: Action)
    requires Inv(s) && Enabled(s, a)
    ensures Evolves(s, Apply(s, a))
  {
    hide Inv, NsApply, ResApply, PoolApply, WorldApply, IndexApply;
    InvParts(s);
    match a
    case OnNs(x) => NsEvolves(s, x);
    case OnRes(x) => ResEvolves(s, x);
    case OnPool(x) => PoolEvolves(s, x);
    case OnIndex(x) => IndexAfter(s, x); StillEvolves(s, Apply(s, a));
    case OnWorld(x) => WorldAfter(s, x); StillEvolves(s, Apply(s, a));
  }

  lemma StillEvolves(s: State, t: State)
    requires VersionsInv(s)
    requires t.namespaces == s.namespaces && t.ledger == s.ledger && t.created == s.created
    requires t.reservations == s.reservations && t.resNames == s.resNames && t.reused == s.reused
    requires t.filed == s.filed && t.named == s.named && t.released == s.released
    requires t.pools == s.pools && t.nextVersion == s.nextVersion && t.nextUid == s.nextUid && s.now <= t.now
    ensures Evolves(s, t)
  {
  }

  lemma {:induction false} RunEvolves(run: seq<State>, acts: seq<Action>, i: nat, j: nat)
    requires IsRun(run, acts) && Inv(run[0]) && i <= j <= |acts|
    ensures Evolves(run[i], run[j])
    decreases j
  {
    hide Inv, Evolves, Enabled, Apply;
    RunKeepsInv(run, acts, i);
    InvParts(run[i]);
    if i == j {
      StillEvolves(run[i], run[i]);
    } else {
      RunEvolves(run, acts, i, j - 1);
      RunKeepsInv(run, acts, j - 1);
      StepEvolves(run[j - 1], acts[j - 1]);
      EvolvesTransitive(run[i], run[j - 1], run[j]);
    }
  }

  lemma InvParts(s: State)
    requires Inv(s)
    ensures VersionsInv(s) && OwnershipInv(s) && LifecycleInv(s) && ExpiryInv(s) && IndexInv(s) && HistoryInv(s)
    ensures PoolInv(s) && LimitInv(s)
  {
  }
}
