/** What one actor may rely on while the other actors, users and the cluster take any number of steps. */
module Interference {
  import opened Objects
  import opened Protocol
  import opened Invariant
  import opened Evolution

  /** Steps that can fall between two API calls of `who`: anyone else's, short of the operator's own restart. */
  predicate Foreign(who: Actor, a: Action) {
    ActorOf(a) != who && a != OnIndex(Restart)
  }

  /** Only the reservation controller moves claims, statuses and finalizers. */
  ghost predicate ReservationRely(s: State, t: State) {
    && s.named == t.named && s.drained == t.drained
    && (forall n | n in s.ledger :: n in t.ledger && t.ledger[n] == s.ledger[n])
    && (forall k | k in s.reservations && k in t.reservations && t.reservations[k].uid == s.reservations[k].uid ::
          t.reservations[k].status == s.reservations[k].status
          && t.reservations[k].finalizer == s.reservations[k].finalizer)
    && (forall k | k in s.reservations && s.reservations[k].finalizer ::
          k in t.reservations && t.reservations[k].uid == s.reservations[k].uid)
  }

  /** Only the pool controller creates and adopts; the others raise a pool's count only against what it is allowed. */
  ghost predicate PoolRely(s: State, t: State) {
    && s.created == t.created && s.ledger.Keys == t.ledger.Keys && s.nextUid <= t.nextUid
    && (forall p | p in t.pools ::
          || s.nextUid <= t.pools[p].uid
          || (p in s.pools && t.pools[p].uid == s.pools[p].uid
              && t.pools[p].spec.sizeLimit == s.pools[p].spec.sizeLimit
              && Total(t, p) + Revived(s, p) <= Total(s, p) + Revived(t, p)))
  }

  /** Only the poller drops index entries, and who becomes active is indexed. */
  ghost predicate PollRely(s: State, t: State) {
    && t.lost <= s.lost && s.index.Keys <= t.index.Keys
    && (forall k | k in t.reservations && t.reservations[k].status.state == Active && !t.reservations[k].marked ::
          (k in s.reservations && s.reservations[k].uid == t.reservations[k].uid
              && s.reservations[k].status.state == Active) || Indexed(t, k))
  }

  ghost predicate Rely(who: Actor, s: State, t: State) {
    && Evolves(s, t)
    && (forall k | Indexed(s, k) :: Indexed(t, k))
    && (who == ReservationWorker ==> ReservationRely(s, t))
    && (who == PoolWorker ==> PoolRely(s, t))
    && (who == PollWorker ==> PollRely(s, t))
  }

  lemma RelyReflexive(who: Actor, s: State)
    requires VersionsInv(s)
    ensures Rely(who, s, s)
  {
    StillEvolves(s, s);
  }

  lemma PoolRelyTransitive(s: State, s': State, s'': State)
    requires PoolRely(s, s') && PoolRely(s', s'')
    ensures PoolRely(s, s'')
  {
    hide Total, Revived;
  }

  lemma ReservationRelyTransitive(s: State, s': State, s'': State)
    requires ReservationRely(s, s') && ReservationRely(s', s'')
    requires VersionsInv(s) && VersionsInv(s') && ReservationsEvolve(s, s') && ReservationsEvolve(s', s'')
    ensures ReservationRely(s, s'')
  {
  }

  lemma PollRelyTransitive(s: State, s': State, s'': State)
    requires PollRely(s, s') && PollRely(s', s'')
    requires VersionsInv(s') && ReservationsEvolve(s', s'')
    requires forall k | Indexed(s', k) :: Indexed(s'', k)
    ensures PollRely(s, s'')
  {
    forall k | k in s''.reservations && s''.reservations[k].status.state == Active && !s''.reservations[k].marked
      ensures (k in s.reservations && s.reservations[k].uid == s''.reservations[k].uid
              && s.reservations[k].status.state == Active) || Indexed(s'', k)
    {
      if !Indexed(s'', k) {
        AdvancesUnmarked(s', s'', k);
      }
    }
  }

  lemma AdvancesUnmarked(s: State, t: State, k: string)
    requires ReservationsEvolve(s, t)
    requires k in s.reservations && k in t.reservations && t.reservations[k].uid == s.reservations[k].uid
    requires s.reservations[k].uid < s.nextUid && !t.reservations[k].marked
    ensures !s.reservations[k].marked
  {
  }

  lemma RelyTransitive(who: Actor, s: State, s': State, s'': State)
    requires Rely(who, s, s') && Rely(who, s', s'') && VersionsInv(s) && VersionsInv(s')
    ensures Rely(who, s, s'')
  {
    hide PoolRely, ReservationRely, PollRely, NamespacesEvolve, VersionsEvolve;
    EvolvesTransitive(s, s', s'');
    if who == PoolWorker {
      PoolRelyTransitive(s, s', s'');
    } else if who == ReservationWorker {
      ReservationRelyTransitive(s, s', s'');
    } else if who == PollWorker {
      PollRelyTransitive(s, s', s'');
    }
  }

  // -------------------------------------------------- foreign steps keep it

  lemma IndexStepKeepsIndexed(s: State, a: IndexAction)
    requires IndexEnabled(s, a) && !a.Restart?
    ensures forall k | Indexed(s, k) :: Indexed(IndexApply(s, a), k)
    ensures !a.Pop? ==> s.index.Keys <= IndexApply(s, a).index.Keys && IndexApply(s, a).lost <= s.lost
  {
  }

  lemma IndexedKept(s: State, a: Action)
    requires Enabled(s, a) && a != OnIndex(Restart)
    ensures forall k | Indexed(s, k) :: Indexed(Apply(s, a), k)
  {
    hide NsApply, ResApply, PoolApply, WorldApply, IndexApply;
    match a
    case OnNs(x) => NsAfter(s, x);
    case OnRes(x) => ResAfter(s, x);
    case OnPool(x) => PoolAfter(s, x);
    case OnIndex(x) => IndexStepKeepsIndexed(s, x);
    case OnWorld(x) => WorldAfter(s, x);
  }

  /** Users and the poller only mark or remove a reservation, and remove it only without finalizer. */
  lemma ForeignReservationStep(s: State, a: ResAction)
    requires LifecycleInv(s) && ResEnabled(s, a) && ActorOf(OnRes(a)) != ReservationWorker
    ensures ReservationRely(s, ResApply(s, a))
  {
    hide LifecycleOf, MayDelete;
    ResAfter(s, a);
  }

  lemma OwnLedgerStep(s: State, a: NsAction)
    requires NsEnabled(s, a) && !a.Claim?
    ensures forall n | n in s.ledger :: n in NewLedger(s, a) && NewLedger(s, a)[n] == s.ledger[n]
  {
  }

  lemma ReservationRelyStep(s: State, a: Action)
    requires LifecycleInv(s) && Enabled(s, a) && ActorOf(a) != ReservationWorker
    ensures ReservationRely(s, Apply(s, a))
  {
    hide NsApply, ResApply, PoolApply, WorldApply, IndexApply, LifecycleInv, NsEnabled, ResEnabled, NewLedger;
    match a
    case OnNs(x) => NsAfter(s, x); OwnLedgerStep(s, x);
    case OnRes(x) => ForeignReservationStep(s, x);
    case OnPool(x) => PoolAfter(s, x);
    case OnIndex(x) => IndexAfter(s, x);
    case OnWorld(x) => WorldAfter(s, x);
  }

  /** Who becomes active has been registered before. */
  lemma ActivationIndexed(s: State, a: ResAction)
    requires ResEnabled(s, a)
    ensures PollRely(s, ResApply(s, a))
  {
    hide ResApply, Writes, Removes, NewRes, ResEnabled, ResVersion;
    ResAfter(s, a);
    if Writes(s, a) {
      NewResIndexed(s, a);
      NewResHistory(s, a);
    }
  }

  lemma PollRelyStep(s: State, a: Action)
    requires Enabled(s, a) && Foreign(PollWorker, a)
    ensures PollRely(s, Apply(s, a))
  {
    hide NsApply, ResApply, PoolApply, WorldApply, IndexApply, NsEnabled, ResEnabled;
    match a
    case OnNs(x) => NsAfter(s, x);
    case OnRes(x) => ActivationIndexed(s, x);
    case OnPool(x) => PoolAfter(s, x);
    case OnIndex(x) => IndexAfter(s, x); IndexStepKeepsIndexed(s, x);
    case OnWorld(x) => WorldAfter(s, x);
  }

  /** A namespace write that is no adoption raises a pool's count at most by what it adds to the allowance. */
  lemma NamespaceStepRely(s: State, a: NsAction)
    requires OwnershipInv(s) && NsEnabled(s, a) && !a.CreateNs? && !a.Adopt?
    ensures PoolRely(s, NsApply(s, a))
  {
    hide NsApply, NewNs, NsEnabled, NsVersion, Charged, Counted, Total, Revived, OwnershipInv;
    var t := NsApply(s, a);
    NsAfter(s, a);
    LedgerKeysKept(s, a);
    forall p | p in t.pools ensures Total(t, p) + Revived(s, p) <= Total(s, p) + Revived(t, p) {
      CountAgainstSlack(s, a, p);
    }
  }

  lemma LedgerKeysKept(s: State, a: NsAction)
    requires NsEnabled(s, a) && !a.Adopt?
    ensures NewLedger(s, a).Keys == s.ledger.Keys
  {
  }

  lemma CountAgainstSlack(s: State, a: NsAction, p: string)
    requires OwnershipInv(s) && NsEnabled(s, a) && !a.Adopt?
    ensures Total(NsApply(s, a), p) + Revived(s, p) <= Total(s, p) + Revived(NsApply(s, a), p)
  {
    hide NsApply, NewNs, NewLedger, Charged, NsEnabled, NsVersion, Counts;
    var t := NsApply(s, a);
    NsAfter(s, a);
    assert SameBut(s.namespaces, t.namespaces, a.n);
    CountChange(s, t, p, a.n);
    SlackGrows(s, a, p);
    if Counted(t, p, a.n) && !Counted(s, p, a.n) {
      NewlyCounted(s, a, p);
    }
  }

  lemma ForeignPoolStep(s: State, a: PoolAction)
    requires VersionsInv(s) && PoolEnabled(s, a) && !a.CountPool?
    ensures PoolRely(s, PoolApply(s, a))
  {
    hide Counts, PoolVersion;
    var t := PoolApply(s, a);
    forall p | p in t.pools && p in s.pools && t.pools[p].uid == s.pools[p].uid
      ensures Total(t, p) + Revived(s, p) <= Total(s, p) + Revived(t, p)
    {
      assert CountedSet(t, p) == CountedSet(s, p);
    }
  }

  lemma SameCountsRely(s: State, t: State)
    requires t.namespaces == s.namespaces && t.pools == s.pools && t.slack == s.slack
    requires t.created == s.created && t.ledger == s.ledger && s.nextUid <= t.nextUid
    ensures PoolRely(s, t)
  {
    forall p | p in t.pools ensures Total(t, p) == Total(s, p) {
      assert CountedSet(t, p) == CountedSet(s, p);
    }
  }

  lemma PoolRelyStep(s: State, a: Action)
    requires VersionsInv(s) && OwnershipInv(s) && Enabled(s, a) && ActorOf(a) != PoolWorker
    ensures PoolRely(s, Apply(s, a))
  {
    hide NsApply, ResApply, PoolApply, WorldApply, IndexApply, VersionsInv, OwnershipInv, NsEnabled, ResEnabled;
    match a
    case OnNs(x) => NamespaceStepRely(s, x);
    case OnRes(x) => ResAfter(s, x); SameCountsRely(s, Apply(s, a));
    case OnPool(x) => ForeignPoolStep(s, x);
    case OnIndex(x) => IndexAfter(s, x); SameCountsRely(s, Apply(s, a));
    case OnWorld(x) => WorldAfter(s, x); SameCountsRely(s, Apply(s, a));
  }

  /** Whatever another actor does, `who` may rely on what it relies on. */
  lemma ForeignStepRely(who: Actor, s: State, a: Action)
    requires Inv(s) && Enabled(s, a) && Foreign(who, a)
    ensures Rely(who, s, Apply(s, a))
  {
    hide PoolRely, ReservationRely, PollRely, Evolves, Apply, Enabled, Indexed;
    InvParts(s);
    StepEvolves(s, a);
    IndexedKept(s, a);
    if who == PoolWorker {
      PoolRelyStep(s, a);
    } else if who == ReservationWorker {
      ReservationRelyStep(s, a);
    } else if who == PollWorker {
      PollRelyStep(s, a);
    }
  }
}
