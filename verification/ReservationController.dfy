/** namespacereservation_controller.go: Reconcile, reserveNamespace and handleCAPICleanup. */
module ReservationController {
  import opened Objects
  import opened Protocol
  import opened Invariant
  import opened Evolution
  import opened Interference
  import opened Execution
  import opened ApiServer
  import opened Namespaces
  import opened ReadyLists
  import opened ReservationPlans
  import opened ReservationOutcomes

  // ------------------------------------------------------ what a read tells

  /** What is known of reservation `k` after it was read as `read`, however long ago. */
  ghost predicate Knows(s: State, k: string, read: Reservation) {
    && read.version < s.nextVersion && read.uid < s.nextUid && k in s.resNames && read.created % SECOND == 0
    && DrawsOf(s.filed, k, read)
    && read.created <= s.now
    && (k in s.reservations && s.reservations[k].version == read.version ==> s.reservations[k] == read)
    && (k in s.reservations && k !in s.reused ==>
          s.reservations[k].created == read.created && s.reservations[k].spec == read.spec)
  }

  /** Nothing was written to reservation `k` since it was read. */
  predicate Current(s: State, k: string, read: Reservation) {
    k in s.reservations && s.reservations[k] == read
  }

  lemma KnowsRead(s: State, k: string)
    requires Inv(s) && k in s.reservations
    ensures Knows(s, k, s.reservations[k])
  {
  }

  lemma KnowsKept(s: State, t: State, k: string, read: Reservation)
    requires Inv(s) && Knows(s, k, read) && Evolves(s, t)
    ensures Knows(t, k, read)
  {
    hide OwnershipInv, LifecycleInv, ExpiryInv, IndexInv, LimitInv, NamespacesEvolve;
  }

  /** The pool the code draws from is the one asked for. */
  lemma PoolKnown(s: State, k: string, read: Reservation)
    requires Knows(s, k, read)
    ensures PoolOf(read) == HomePool(read.spec) && (read.status.state != Unset ==> read.status.pool == HomePool(read.spec))
    ensures DrawsOf(s.filed, k, read)
  {
  }

  /** If it exists, the namespace is labelled with this pool. */
  predicate Labelled(s: State, n: string, pool: string) {
    n in s.namespaces ==> s.namespaces[n].pool == Some(pool)
  }

  /** A ready namespace of this pool, which a pool owns. */
  predicate Takeable(s: State, n: string, pool: string) {
    && n != "" && n in s.ledger && s.ledger[n].kind == PoolKind && Labelled(s, n, pool)
    && n in s.namespaces && Free(s.namespaces[n], pool) && HasStatus(s.namespaces[n], Ready)
  }

  lemma LabelKept(s: State, t: State, n: string, pool: string)
    requires Inv(s) && Rely(ReservationWorker, s, t) && n in s.ledger && Labelled(s, n, pool)
    ensures Labelled(t, n, pool)
  {
    hide VersionsInv, LifecycleInv, ExpiryInv, IndexInv, HistoryInv, PoolInv, LimitInv, ReservationsEvolve,
         VersionsEvolve, ReservationRely, Indexed, OwnershipOf;
  }

  lemma RelyEvolves(who: Actor, s: State, t: State)
    requires Rely(who, s, t)
    ensures Evolves(s, t) && s.now <= t.now
    ensures forall k | Indexed(s, k) :: Indexed(t, k)
    ensures who == ReservationWorker ==> ReservationRely(s, t) && t.named == s.named
  {
    hide NamespacesEvolve, ReservationsEvolve, Indexed;
  }

  /** The reservation is still there, under deletion and with its finalizer, as last seen. */
  ghost predicate Held(s: State, k: string, r: Reservation) {
    && k in s.reservations && s.reservations[k].uid == r.uid && r.uid < s.nextUid
    && s.reservations[k].marked && s.reservations[k].finalizer
    && s.reservations[k].status == r.status && r.status.namespace != ""
  }

  lemma HeldKept(s: State, t: State, k: string, r: Reservation)
    requires Inv(s) && Held(s, k, r) && Rely(ReservationWorker, s, t)
    ensures Held(t, k, r)
    ensures r.uid in s.drained ==> r.uid in t.drained
  {
    hide OwnershipInv, LifecycleInv, ExpiryInv, IndexInv, LimitInv, NamespacesEvolve;
  }

  class NamespaceReservationReconciler {
    const client: Server

    constructor (client: Server)
      ensures this.client == client
    {
      this.client := client;
    }

    /** The worker's own steps since. */
    twostate function Steps(): seq<Action>
      reads client
    {
      if old(client.own) <= client.own then client.own[|old(client.own)|..] else []
    }

    // ------------------------------------------------------ reserveNamespace

    /** Reads the namespace and copies the secrets asked for. */
    method PrepareClaim(n: string, spec: ResSpec) returns (r: Option<Namespace>)
      requires client.Serves(ReservationWorker)
      modifies client
      ensures client.Continues() && client.OwnDid([]) && Rely(ReservationWorker, old(client.s), client.s)
      ensures r.Some? && n in client.s.namespaces && client.s.namespaces[n].version == r.value.version ==>
                client.s.namespaces[n] == r.value
      ensures client.calm ==> client.Nothing() && (r.Some? ==> n in client.s.namespaces && client.s.namespaces[n] == r.value)
      ensures client.calm && client.faultless ==> (r.Some? <==> n in client.s.namespaces)
    {
      hide Server.Valid, Inv, IsRun, OwnOf, Rely;
      ghost var s0 := client.s;
      client.Interfere(ReservationWorker);
      ghost var s1 := client.s;
      var got := client.GetNamespace(n);
      if !got.Ok? {
        return None;
      }
      var copied := CopySecrets(spec);
      if !copied {
        return None;
      }
      client.Interfere(ReservationWorker);
      ChainRely(ReservationWorker, s0, s1, client.s);
      CurrentIfVersion(ReservationWorker, s1, client.s, n);
      r := Some(got.value);
    }

    /** namespacereservation_controller.go, lines 352-370: the secrets asked for, which no controller reads. */
    method CopySecrets(spec: ResSpec) returns (ok: bool)
      modifies client`faultless
      ensures client.faultless == (old(client.faultless) && ok)
    {
      if spec.secretSource != "" {
        var failed := client.Fails();      // helpers.CopySecretsFrom
        if failed {
          return false;
        }
      }
      if spec.team != "" {
        var failed := client.Fails();      // helpers.CopyReservationSecrets
        if failed {
          return false;
        }
      }
      ok := true;
    }

    /** Takes namespace `n` out of its pool: on success the ledger gives it to the reservation for good. */
    method ReserveNamespace(n: string, k: string, read: Reservation) returns (ok: bool)
      requires client.Serves(ReservationWorker) && n in client.s.ledger && client.s.ledger[n].kind == PoolKind
      requires read.uid !in client.s.named && DrawsOf(client.s.filed, k, read)
      requires Labelled(client.s, n, HomePool(read.spec))
      modifies client
      ensures client.Continues() && client.OwnPrefix([OnNs(Claim(n, k, read.uid))])
      ensures ok ==> client.OwnDid([OnNs(Claim(n, k, read.uid))])
      ensures ok ==> n in client.s.ledger && client.s.ledger[n] == Owner(ReservationKind, k, read.uid)
      ensures client.calm ==> client.Nothing() || client.Made(OnNs(Claim(n, k, read.uid)))
      ensures client.calm && ok ==> client.Made(OnNs(Claim(n, k, read.uid)))
      ensures client.calm && client.faultless && n in old(client.s).namespaces ==> ok
    {
      hide Longer, Enabled, Apply, Server.Valid, Inv, IsRun, OwnOf, Rely, Evolves;
      ghost var acts0, own0, run0 := client.acts, client.own, client.run;
      ok := WriteClaim(n, k, read);
      if ok {
        ghost var s2, acts2, own2, run2 := client.s, client.acts, client.own, client.run;
        ok := AddRoleBindings();
        Onwards(client, acts0, run0, own0, acts2, run2, own2);
        LedgerKept(s2, client.s, n);
      }
    }

    /** namespacereservation_controller.go, lines 336-374: the secrets, and then the claim, over the version read. */
    method WriteClaim(n: string, k: string, read: Reservation) returns (ok: bool)
      requires client.Serves(ReservationWorker) && n in client.s.ledger && client.s.ledger[n].kind == PoolKind
      requires read.uid !in client.s.named && DrawsOf(client.s.filed, k, read)
      requires Labelled(client.s, n, HomePool(read.spec))
      modifies client
      ensures client.Continues() && client.OwnPrefix([OnNs(Claim(n, k, read.uid))])
      ensures ok ==>
                && client.OwnDid([OnNs(Claim(n, k, read.uid))])
                && n in client.s.ledger && client.s.ledger[n] == Owner(ReservationKind, k, read.uid)
      ensures client.calm ==> client.Nothing() || client.Made(OnNs(Claim(n, k, read.uid)))
      ensures client.calm && ok ==> client.Made(OnNs(Claim(n, k, read.uid)))
      ensures client.calm && client.faultless && n in old(client.s).namespaces ==> ok
    {
      hide Longer, Enabled, Server.Valid, Inv, IsRun, OwnOf, Rely, Evolves, NsApply, NsEnabled, NewNs, ResApply, PoolApply,
           IndexApply, WorldApply;
      ghost var s0, acts0, own0, run0 := client.s, client.acts, client.own, client.run;
      var got := PrepareClaim(n, read.spec);
      if got.None? {
        return false;
      }
      ghost var s1, acts1, own1, run1 := client.s, client.acts, client.own, client.run;
      ClaimStep(s0, s1, n, k, read);
      var updated := client.UpdateNamespace(n, Claimed(got.value, k, read.uid), Claim(n, k, read.uid));
      Onwards(client, acts0, run0, own0, acts1, run1, own1);
      ok := updated.Ok?;
    }

    /** The role bindings, which no controller reads. */
    method AddRoleBindings() returns (ok: bool)
      requires client.Serves(ReservationWorker)
      modifies client
      ensures client.Continues() && client.OwnDid([]) && Rely(ReservationWorker, old(client.s), client.s)
      ensures client.calm ==> client.Nothing()
      ensures client.calm && client.faultless ==> ok
      ensures client.faultless ==> old(client.faultless)
    {
      hide Server.Valid, Inv, IsRun, OwnOf, Rely;
      client.Interfere(ReservationWorker);
      var failed := client.Fails();
      ok := !failed;
    }

    // ------------------------------------------------------------ reconcile

    /** A reservation without namespace: wait for one, or take the first that is ready. */
    method ReconcileUnassigned(k: string, read: Reservation, pool: string, order: seq<string>) returns (out: Outcome)
      requires client.Serves(ReservationWorker) && Knows(client.s, k, read) && !read.marked
      requires read.status.state in {Unset, Waiting}
      requires read.uid !in client.s.named
      requires pool == PoolOf(read) && !read.finalizer && NoDup(order)
      modifies client
      ensures client.Continues()
      ensures Seeks(Steps(), k, read.uid, pool)
      ensures client.calm ==> client.Undisturbing()
      ensures client.calm && client.faultless && Current(old(client.s), k, read)
              && Covers(order, old(client.s).namespaces) ==>
                client.Did(UnassignedPlan(old(client.s), k, order))
      ensures out != RequeueAfter
      ensures out == Requeue ==> forall a | a in Steps() :: a.OnRes? && a.res.SetWaiting?
      ensures out == Done ==> Assigns(Steps(), k, read.uid, pool)
      ensures client.calm && client.faultless && Current(old(client.s), k, read) ==>
                SearchEnds(old(client.s), client.s, k, out)
    {
      hide Longer, QuietFrom, Server.Valid, Inv, IsRun, OwnOf, Rely, Evolves, Knows, SearchPlan, ExpiryOf, Seeks,
           FoundEnds, Assigns, DrawsOf, Free, NowActive;
      ghost var own0 := client.own;
      ExpiryReached(read, client.s.now);
      PoolKnown(client.s, k, read);
      var expiry := ExpirationTime(read, client.s.now);
      if expiry.None? {
        var deleted := Delete(k, read);
        SeekSteps(own0, client.own, k, read.uid, pool, "", 0);
        return Failure;
      }
      ExpiryComputed(client.s, k, read);
      out := Search(k, read, pool, expiry.value, order);
    }

    /** namespacereservation_controller.go, lines 156-251 */
    method Search(k: string, read: Reservation, pool: string, e: Time, order: seq<string>) returns (out: Outcome)
      requires client.Serves(ReservationWorker) && Knows(client.s, k, read) && !read.marked
      requires read.status.state in {Unset, Waiting} && read.uid !in client.s.named
      requires pool == HomePool(read.spec) && !read.finalizer && NoDup(order) && ExpiryOf(read, e)
      modifies client
      ensures client.Continues()
      ensures Seeks(Steps(), k, read.uid, pool)
      ensures client.calm ==> client.Undisturbing()
      ensures client.calm && client.faultless && Current(old(client.s), k, read)
              && Covers(order, old(client.s).namespaces) ==>
                client.Did(SearchPlan(old(client.s), k, pool, order, e))
      ensures out != RequeueAfter
      ensures out == Requeue ==> forall a | a in Steps() :: a.OnRes? && a.res.SetWaiting?
      ensures out == Done ==> Assigns(Steps(), k, read.uid, pool)
      ensures client.calm && client.faultless && Current(old(client.s), k, read) ==>
                FoundEnds(old(client.s), client.s, k, pool, e, out)
    {
      hide Longer, QuietFrom, Server.Valid, Server.Made, Inv, IsRun, OwnOf, Rely, Evolves, Knows, ReadyOf,
           TakePlan, ExpiryOf, Seeks, AssignPlan, HomePool, NowActive, Assigns, NoneFree, Covers, Takeable;
      ghost var s0, acts0, own0, run0 := client.s, client.acts, client.own, client.run;
      var listed := ListReady(pool, order);
      RelyEvolves(ReservationWorker, s0, client.s);
      KnowsKept(s0, client.s, k, read);
      ghost var acts1, own1, run1 := client.acts, client.own, client.run;
      NothingQuiet(run1, acts1);
      if !listed.Ok? {
        SeekSteps(own0, client.own, k, read.uid, pool, "", 0);
        return Failure;
      }
      if |listed.value| < 1 {
        out := Wait(k, read, pool, e);
        Onwards(client, acts0, run0, own0, acts1, run1, own1);
        SeekSteps(own0, client.own, k, read.uid, pool, "", e);
        return;
      }
      out := TakeReady(k, read, pool, listed.value[0].name, e);
      Onwards(client, acts0, run0, own0, acts1, run1, own1);
      SeekSteps(own0, client.own, k, read.uid, pool, listed.value[0].name, e);
      AssignSteps(own0, client.own, k, read.uid, pool, listed.value[0].name, e);
    }

    /** The ready namespaces of the pool. The first of them, if there is one, may be taken. */
    method ListReady(pool: string, order: seq<string>) returns (r: Reply<seq<Item>>)
      requires client.Serves(ReservationWorker) && NoDup(order)
      modifies client
      ensures client.Continues() && client.OwnDid([])
      ensures client.calm ==> client.Nothing()
      ensures client.calm && client.faultless ==> r.Ok?
      ensures r.Ok? ==> (r.value == [] <==> NoneFree(client.s.namespaces, pool))
      ensures r.Ok? && r.value != [] ==> Takeable(client.s, r.value[0].name, pool)
      ensures r.Ok? && Covers(order, client.s.namespaces) ==> r.value == ReadyOf(client.s, pool, order)
      ensures Rely(ReservationWorker, old(client.s), client.s)
    {
      hide Server.Valid, Inv, IsRun, OwnOf, Rely, ReadyItems, Listing, Lists, NoneFree, Covers, Takeable;
      client.Interfere(ReservationWorker);
      r := GetReadyNamespaces(client, pool, order);
      if r.Ok? {
        ReadyIsFree(client.s, pool, r.value);
        if r.value != [] {
          FirstReady(client.s, pool, r.value);
        }
      }
    }

    /** namespacereservation_controller.go, lines 162-174: there is no ready namespace. */
    method Wait(k: string, read: Reservation, pool: string, e: Time) returns (out: Outcome)
      requires client.Serves(ReservationWorker) && Knows(client.s, k, read) && !read.marked
      requires pool == HomePool(read.spec)
      modifies client
      ensures client.Continues() && client.OwnPrefix([OnRes(SetWaiting(k, pool, e))])
      ensures client.calm ==> client.Undisturbing()
      ensures client.calm && client.faultless && Current(old(client.s), k, read) ==>
                client.Did(if read.status.state == Unset then [OnRes(SetWaiting(k, pool, e))] else [])
      ensures out == Requeue || (out == Failure && read.status.state == Unset)
      ensures client.calm && client.faultless && Current(old(client.s), k, read)
              && read.status.state in {Unset, Waiting} ==>
                out == Requeue && k in client.s.reservations && Waits(read, client.s.reservations[k], pool, e)
    {
      hide Server.Valid, Inv, IsRun, OwnOf, Rely, Evolves, ResApply, ResEnabled, NewRes, Writes, Knows, Undisturbed;
      if read.status.state == Unset {
        ghost var s0 := client.s;
        client.Interfere(ReservationWorker);
        RelyEvolves(ReservationWorker, s0, client.s);
        KnowsKept(s0, client.s, k, read);
        WaitStep(client.s, k, read, pool, e);
        QuietSteps();
        var waiting := read.(status := ResStatus(Waiting, read.status.namespace, pool, e));
        var u := client.UpdateStatus(k, waiting, SetWaiting(k, pool, e));
        if client.calm && client.faultless && Current(s0, k, read) {
          client.Executed([OnRes(SetWaiting(k, pool, e))]);
          WaitDone(s0, k, pool, e, client.s);
        }
        return if u.Ok? then Requeue else Failure;
      }
      out := Requeue;
    }

    /** namespacereservation_controller.go, lines 176-251: the pool decides whether the environment has to be verified
        first. */
    method TakeReady(k: string, read: Reservation, pool: string, n: string, e: Time) returns (out: Outcome)
      requires client.Serves(ReservationWorker) && Knows(client.s, k, read) && !read.marked
      requires read.status.state in {Unset, Waiting}
      requires read.uid !in client.s.named && pool == HomePool(read.spec) && ExpiryOf(read, e)
      requires Takeable(client.s, n, pool)
      modifies client
      ensures client.Continues()
      ensures client.OwnPrefix(AssignPlan(k, read.uid, n, pool, e))
              || client.OwnPrefix([OnNs(Annotate(ReservationWorker, n, StatusPatch(Error)))])
      ensures client.calm ==> client.Undisturbing()
      ensures client.calm && client.faultless && Current(old(client.s), k, read) && !read.finalizer ==>
                client.Did(TakePlan(old(client.s), k, read.uid, n, pool, e))
      ensures out == Done || out == Failure
      ensures out == Done && !read.finalizer ==> client.OwnDid(AssignPlan(k, read.uid, n, pool, e))
      ensures client.calm && client.faultless && Current(old(client.s), k, read) && !read.finalizer ==>
                if out == Done then NowActive(old(client.s), client.s, k, pool, e)
                else client.s.reservations == old(client.s).reservations
    {
      hide Longer, QuietFrom, Server.Valid, Server.Made, Inv, IsRun, OwnOf, Rely, Evolves, Knows, EnvVerifies, HasStatus,
           ExpiryOf, AssignPlan, Labelled, HomePool, Free, NowActive, Exec;
      ghost var s0, acts0, own0, run0 := client.s, client.acts, client.own, client.run;
      var suits := Suitable(pool, n);
      if !suits {
        return Failure;
      }
      ghost var acts1, own1, run1 := client.acts, client.own, client.run;
      RelyEvolves(ReservationWorker, s0, client.s);
      KnowsKept(s0, client.s, k, read);
      LedgerKept(s0, client.s, n);
      LabelKept(s0, client.s, n, pool);
      out := Assign(k, read, pool, n, e);
      Onwards(client, acts0, run0, own0, acts1, run1, own1);
      if client.calm && client.faultless && Current(s0, k, read) && !read.finalizer {
        client.Executed(AssignPlan(k, read.uid, n, pool, e));
        AssignDone(s0, k, read.uid, n, pool, e, client.s);
      }
    }

    /** namespacereservation_controller.go, lines 180-197: in a Clowder pool a namespace whose environment does not verify
        is marked and not taken. */
    method Suitable(pool: string, n: string) returns (ok: bool)
      requires client.Serves(ReservationWorker)
      modifies client
      ensures client.Continues()
      ensures ok ==> client.OwnDid([]) && Rely(ReservationWorker, old(client.s), client.s)
      ensures client.OwnPrefix([OnNs(Annotate(ReservationWorker, n, StatusPatch(Error)))])
      ensures client.calm ==> client.Undisturbing() && client.s.reservations == old(client.s).reservations
      ensures client.calm && ok ==> client.Nothing()
      ensures client.calm && client.faultless && n in old(client.s).namespaces ==>
                && (ok <==> MayServe(old(client.s), n, pool))
                && (!ok ==>
                      client.Did(if pool in old(client.s).pools
                                 then [OnNs(Annotate(ReservationWorker, n, StatusPatch(Error)))] else []))
    {
      hide Longer, QuietFrom, Server.Valid, Inv, IsRun, OwnOf, Rely, Apply, Enabled, Evolves, EnvVerifies;
      ghost var s0, acts0, own0, run0 := client.s, client.acts, client.own, client.run;
      client.Interfere(ReservationWorker);
      ghost var s1, acts1, own1, run1 := client.s, client.acts, client.own, client.run;
      NothingQuiet(run1, acts1);
      var found := client.GetPool(pool);
      if !found.Ok? {
        return false;
      }
      ok := true;
      if found.value.spec.clowder.Some? {
        MarkKeepsReservations(client.s, n);
        ok := VerifyOrMark(n);
        Onwards(client, acts0, run0, own0, acts1, run1, own1);
        if ok {
          ChainRely(ReservationWorker, s0, s1, client.s);
        }
      }
    }

    /** namespacereservation_controller.go, lines 188-195: a namespace whose environment does not verify is marked. */
    method VerifyOrMark(n: string) returns (ready: bool)
      requires client.Serves(ReservationWorker)
      modifies client
      ensures client.Continues()
      ensures ready ==> client.OwnDid([]) && Rely(ReservationWorker, old(client.s), client.s)
      ensures client.OwnPrefix([OnNs(Annotate(ReservationWorker, n, StatusPatch(Error)))])
      ensures client.calm ==> client.Undisturbing() && (ready ==> client.Nothing())
      ensures client.calm ==> client.Nothing() || client.Made(OnNs(Annotate(ReservationWorker, n, StatusPatch(Error))))
      ensures client.calm && client.faultless && n in old(client.s).namespaces ==>
                && (ready <==> EnvReady(old(client.s), n))
                && (!ready ==> client.Made(OnNs(Annotate(ReservationWorker, n, StatusPatch(Error)))))
    {
      hide Server.Valid, Inv, IsRun, OwnOf, Rely, Apply, Enabled, Undisturbed, EnvVerifies, Written;
      ready := VerifyClowdEnvForReadyNs(n);
      if !ready {
        AnnotationsDisturbNothing(client.s, ReservationWorker, n, StatusPatch(Error));
        var marked := UpdateAnnotations(client, ReservationWorker, n, StatusPatch(Error));
      }
    }

    method VerifyClowdEnvForReadyNs(n: string) returns (ready: bool)
      requires client.Serves(ReservationWorker)
      modifies client
      ensures client.Continues() && client.OwnDid([]) && Rely(ReservationWorker, old(client.s), client.s)
      ensures client.calm ==> client.Nothing()
      ensures client.calm && client.faultless ==> (ready <==> n in client.s.envs && EnvVerifies(client.s.envs[n]))
    {
      hide Server.Valid, Inv, IsRun, OwnOf, Rely, EnvVerifies;
      client.Interfere(ReservationWorker);
      var env := client.GetEnv(n);
      if !env.Ok? {
        return false;
      }
      ready := VerifyClowdEnvReady(env.value);
    }

    // ------------------------------------------------------------ assignment

    /** namespacereservation_controller.go, lines 199-234: claim the namespace, index the expiry, persist the status,
        then add the finalizer. Whatever fails, what was done before stays. */
    method Assign(k: string, read: Reservation, pool: string, n: string, e: Time) returns (out: Outcome)
      requires client.Serves(ReservationWorker) && Knows(client.s, k, read) && !read.marked
      requires read.status.state in {Unset, Waiting}
      requires read.uid !in client.s.named && pool == HomePool(read.spec) && Labelled(client.s, n, pool)
      requires n in client.s.ledger && client.s.ledger[n].kind == PoolKind && n != "" && ExpiryOf(read, e)
      modifies client
      ensures client.Continues() && client.OwnPrefix(AssignPlan(k, read.uid, n, pool, e))
      ensures client.calm ==> client.acts <= old(client.acts) + AssignPlan(k, read.uid, n, pool, e)
      ensures client.calm && n in old(client.s).namespaces && HasStatus(old(client.s).namespaces[n], Ready) ==>
                client.Undisturbing()
      ensures client.calm && client.faultless && n in old(client.s).namespaces
              && Current(old(client.s), k, read) && !read.finalizer ==>
                out == Done && client.Did(AssignPlan(k, read.uid, n, pool, e))
      ensures out == Done || out == Failure
      ensures out == Done && !read.finalizer ==> client.OwnDid(AssignPlan(k, read.uid, n, pool, e))
    {
      hide Longer, QuietFrom, Server.Valid, Server.Made, Inv, IsRun, OwnOf, Rely, Knows, ExpiryOf, AssignPlan, ConfirmPlan,
           HasStatus, Labelled, HomePool;
      ghost var acts0, own0, run0 := client.acts, client.own, client.run;
      var reserved := TakeOut(k, read, pool, n);
      ghost var acts1, own1, run1 := client.acts, client.own, client.run;
      AssignFrom(own0, own1, own1, k, read.uid, n, pool, e);
      if client.calm {
        AssignFrom(acts0, acts1, acts1, k, read.uid, n, pool, e);
      }
      if !reserved {
        return Failure;
      }
      out := Confirm(k, read, pool, n, e);
      Onwards(client, acts0, run0, own0, acts1, run1, own1);
      AssignFrom(own0, own1, client.own, k, read.uid, n, pool, e);
      if client.calm {
        AssignFrom(acts0, acts1, client.acts, k, read.uid, n, pool, e);
        if QuietFrom(run1, acts1, |acts0|) {
          QuietOn(run1, acts1, client.run, client.acts, |acts0|);
        }
      }
    }

    /** namespacereservation_controller.go, lines 199-205: the claim, seen from the pass. */
    method TakeOut(k: string, read: Reservation, pool: string, n: string) returns (ok: bool)
      requires client.Serves(ReservationWorker) && Knows(client.s, k, read)
      requires read.uid !in client.s.named && pool == HomePool(read.spec) && Labelled(client.s, n, pool)
      requires n in client.s.ledger && client.s.ledger[n].kind == PoolKind
      modifies client
      ensures client.Continues() && client.OwnPrefix([OnNs(Claim(n, k, read.uid))])
      ensures ok ==>
                && client.OwnDid([OnNs(Claim(n, k, read.uid))]) && Knows(client.s, k, read)
                && n in client.s.ledger && client.s.ledger[n] == Owner(ReservationKind, k, read.uid)
      ensures client.calm ==>
                && old(client.acts) <= client.acts <= old(client.acts) + [OnNs(Claim(n, k, read.uid))]
                && (ok ==> client.Did([OnNs(Claim(n, k, read.uid))]))
                && client.s.reservations == old(client.s).reservations
      ensures client.calm && client.faultless && n in old(client.s).namespaces ==> ok
      ensures client.calm && n in old(client.s).namespaces && HasStatus(old(client.s).namespaces[n], Ready) ==>
                client.Undisturbing()
    {
      hide Server.Valid, Enabled, Apply, Inv, IsRun, OwnOf, Rely, Evolves, Knows, Undisturbed, HasStatus, Labelled,
           HomePool, DrawsOf;
      ghost var s0 := client.s;
      PoolKnown(s0, k, read);
      if n in s0.namespaces && HasStatus(s0.namespaces[n], Ready) {
        SoundClaim(s0, n, k, read.uid);
      }
      ok := ReserveNamespace(n, k, read);
      if client.calm {
        ClaimKeepsReservations(s0, n, k, read.uid);
        if n in s0.namespaces && HasStatus(s0.namespaces[n], Ready) {
          client.QuietStep(OnNs(Claim(n, k, read.uid)));
        }
      }
      client.Evolved();
      KnowsKept(s0, client.s, k, read);
    }

    /** namespacereservation_controller.go, lines 207-234: index the expiry, persist the status, then add the
        finalizer. */
    method Confirm(k: string, read: Reservation, pool: string, n: string, e: Time) returns (out: Outcome)
      requires client.Serves(ReservationWorker) && Knows(client.s, k, read) && !read.marked
      requires read.status.state in {Unset, Waiting}
      requires n in client.s.ledger && client.s.ledger[n] == Owner(ReservationKind, k, read.uid) && n != ""
      requires pool == HomePool(read.spec) && ExpiryOf(read, e)
      modifies client
      ensures client.Continues() && client.OwnPrefix(ConfirmPlan(k, n, pool, e))
      ensures client.calm ==> client.acts <= old(client.acts) + ConfirmPlan(k, n, pool, e)
      ensures client.calm ==> client.Undisturbing()
      ensures client.calm && client.faultless
              && Current(old(client.s), k, read) && !read.finalizer ==>
                out == Done && client.Did(ConfirmPlan(k, n, pool, e))
      ensures out == Done || out == Failure
      ensures out == Done && !read.finalizer ==> client.OwnDid(ConfirmPlan(k, n, pool, e))
    {
      hide Longer, QuietFrom, Server.Valid, Inv, IsRun, OwnOf, Rely, Evolves, Enabled, Apply, Knows, ExpiryOf,
           Undisturbed, HomePool;
      ghost var acts0, own0, run0 := client.acts, client.own, client.run;
      var u := IndexAndPersist(k, read, pool, n, e);
      if !u.Ok? {
        return Failure;
      }
      ghost var s1, acts1, own1, run1 := client.s, client.acts, client.own, client.run;
      QuietSteps();
      var done := Finalize(k, u.value);
      out := if done.Ok? then Done else Failure;
      Onwards(client, acts0, run0, own0, acts1, run1, own1);
      if client.calm {
        QuietAfter(client, run1, acts1, |acts0|, OnRes(AddFinalizer(k)));
      }
    }

    /** namespacereservation_controller.go, lines 207-222: index the expiry, and persist the status. */
    method IndexAndPersist(k: string, read: Reservation, pool: string, n: string, e: Time) returns (r: Reply<Reservation>)
      requires client.Serves(ReservationWorker) && Knows(client.s, k, read) && !read.marked
      requires read.status.state in {Unset, Waiting}
      requires n in client.s.ledger && client.s.ledger[n] == Owner(ReservationKind, k, read.uid) && n != ""
      requires pool == HomePool(read.spec) && ExpiryOf(read, e)
      modifies client
      ensures client.Continues() && client.OwnPrefix(RegisterPlan(k, n, pool, e))
      ensures r.Ok? ==>
                && client.OwnDid(RegisterPlan(k, n, pool, e)) && Knows(client.s, k, r.value)
                && !r.value.marked && r.value.status.namespace == n && r.value.finalizer == read.finalizer
      ensures client.calm ==>
                && client.Undisturbing() && client.acts <= old(client.acts) + RegisterPlan(k, n, pool, e)
                && (r.Ok? ==> client.Did(RegisterPlan(k, n, pool, e)))
      ensures client.calm && client.faultless && Current(old(client.s), k, read) ==> r.Ok? && Current(client.s, k, r.value)
    {
      hide Server.Valid, Inv, IsRun, OwnOf, Rely, NsApply, NsEnabled, Evolves, ResApply, ResEnabled, Knows, ExpiryOf,
           Undisturbed, HomePool;
      ghost var s0 := client.s;
      RegisterStep(s0, k, read, e);
      QuietSteps();
      client.Commit(OnIndex(Register(ReservationWorker, k, e)));
      KnowsKept(s0, client.s, k, read);
      r := PersistActive(k, read, pool, n, e);
    }

    /** Writes the active status over the version that was read. */
    method PersistActive(k: string, read: Reservation, pool: string, n: string, e: Time) returns (r: Reply<Reservation>)
      requires client.Serves(ReservationWorker) && Knows(client.s, k, read) && !read.marked
      requires read.status.state in {Unset, Waiting}
      requires n in client.s.ledger && n != "" && client.s.ledger[n] == Owner(ReservationKind, k, read.uid)
      requires pool == HomePool(read.spec) && ExpiryOf(read, e) && Indexed(client.s, k)
      modifies client
      ensures client.Continues() && client.OwnPrefix([OnRes(Activate(k, n, pool, e))])
      ensures r.Ok? ==> client.OwnDid([OnRes(Activate(k, n, pool, e))])
      ensures r.Ok? ==> Knows(client.s, k, r.value) && !r.value.marked && r.value.status.namespace == n
      ensures client.calm ==> client.Nothing() || client.Made(OnRes(Activate(k, n, pool, e)))
      ensures client.calm && r.Ok? ==> client.Made(OnRes(Activate(k, n, pool, e)))
      ensures client.calm && client.faultless && Current(old(client.s), k, read) ==>
                r.Ok? && k in client.s.reservations && client.s.reservations[k] == r.value
                    && r.value.finalizer == read.finalizer
      ensures r.Ok? ==> r.value.finalizer == read.finalizer
    {
      hide Server.Valid, Inv, IsRun, OwnOf, Rely, NsApply, Evolves, ResApply, ResEnabled, NewRes, Writes, Knows,
           ExpiryOf, Indexed, HomePool;
      ghost var s0 := client.s;
      client.Interfere(ReservationWorker);
      ghost var s1 := client.s;
      RelyEvolves(ReservationWorker, s0, s1);
      KnowsKept(s0, s1, k, read);
      LedgerKept(s0, s1, n);
      ActivateStep(s1, k, read, n, pool, e);
      KnownObject(s1, k, read);
      r := client.UpdateStatus(k, read.(status := ResStatus(Active, n, pool, e)), Activate(k, n, pool, e));
      ActivateDone(s1, k, n, pool, e);
    }

    /** Adds the cleanup finalizer unless it is there. */
    method Finalize(k: string, res: Reservation) returns (r: Reply<Reservation>)
      requires client.Serves(ReservationWorker) && Knows(client.s, k, res) && !res.marked && res.status.namespace != ""
      modifies client
      ensures client.Continues() && client.OwnPrefix([OnRes(AddFinalizer(k))])
      ensures r.Ok? ==> Knows(client.s, k, r.value) && r.value.(version := res.version, finalizer := res.finalizer) == res
      ensures client.calm ==> client.Nothing() || client.Made(OnRes(AddFinalizer(k)))
      ensures client.calm && client.faultless && Current(old(client.s), k, res) ==>
                && r.Ok? && k in client.s.reservations && client.s.reservations[k] == r.value
                && if res.finalizer then client.Nothing() else client.Made(OnRes(AddFinalizer(k)))
      ensures r.Ok? && !res.finalizer ==> client.OwnDid([OnRes(AddFinalizer(k))])
    {
      hide Server.Valid, Inv, IsRun, OwnOf, Rely, Evolves, ResApply, ResEnabled, NewRes, Knows;
      if res.finalizer {
        return Ok(res);
      }
      ghost var s0 := client.s;
      client.Interfere(ReservationWorker);
      RelyEvolves(ReservationWorker, s0, client.s);
      KnowsKept(s0, client.s, k, res);
      FinalizerStep(client.s, k, res);
      r := client.UpdateMeta(k, res.(finalizer := true), AddFinalizer(k));
    }

    // ---------------------------------------------------------------- active

    /** namespacereservation_controller.go, lines 100-125: the finalizer if it is missing, then the expiry in index
        and status once more. */
    method ReconcileActive(k: string, read: Reservation) returns (out: Outcome)
      requires client.Serves(ReservationWorker) && Knows(client.s, k, read) && !read.marked
      requires read.status.state == Active && read.status.namespace != ""
      modifies client
      ensures client.Continues()
      ensures Refreshes(Steps(), k)
      ensures client.calm ==> client.Undisturbing()
      ensures client.calm && client.faultless && Current(old(client.s), k, read) ==>
                && out == Done && client.Did(ActivePlan(old(client.s), k))
                && Refreshed(old(client.s), client.s, k)
      ensures out == Done || out == Failure
    {
      hide Server.Valid, Inv, IsRun, OwnOf, Rely, Evolves, ResApply, ResEnabled, NewRes, Writes, Knows, Undisturbed,
           ExpiryOf, Refreshes, RefreshPlan, Exec, Refreshed;
      ghost var s0 := client.s;
      ghost var own0 := client.own;
      QuietSteps();
      TimeStands(client.s, k);
      PoolKnown(client.s, k, read);
      var u := Finalize(k, read);
      if !u.Ok? {
        RefreshSteps(own0, client.own, k, "", 0);
        return Failure;
      }
      var pool := if read.finalizer then PoolOf(read) else u.value.status.pool;
      ghost var own1 := client.own;
      out := RefreshExpiry(k, u.value, pool);
      ghost var e :| client.own <= own1 + RefreshPlan(k, pool, Some(e));
      RefreshSteps(own0, client.own, k, pool, e);
      if client.calm && client.faultless && Current(s0, k, read) {
        ActiveReadable(s0, k);
        client.Executed(ActivePlan(s0, k));
        ActiveDone(s0, k, client.s);
      }
    }

    method RefreshExpiry(k: string, read: Reservation, pool: string) returns (out: Outcome)
      requires client.Serves(ReservationWorker) && Knows(client.s, k, read) && !read.marked
      requires read.status.state == Active
      requires pool == HomePool(read.spec)
      modifies client
      ensures client.Continues()
      ensures exists e :: client.OwnPrefix(RefreshPlan(k, pool, Some(e)))
      ensures client.calm ==> client.Undisturbing()
      ensures client.calm && client.faultless && Current(old(client.s), k, read) ==>
                && client.Did(RefreshPlan(k, pool, ExpirationTime(read, old(client.s).now)))
                && (out == Done <==> read.spec.duration != Malformed)
      ensures out == Done || out == Failure
    {
      hide Server.Valid, Inv, IsRun, OwnOf, Rely, Evolves, ResApply, ResEnabled, NewRes, Writes, Knows, Undisturbed,
           ExpiryOf;
      QuietSteps();
      var expiry := ExpirationTime(read, client.s.now);
      if expiry.None? {
        return Failure;
      }
      var e := expiry.value;
      ExpiryComputed(client.s, k, read);
      ghost var s0 := client.s;
      RegisterStep(s0, k, read, e);
      client.Commit(OnIndex(Register(ReservationWorker, k, e)));
      KnowsKept(s0, client.s, k, read);
      out := PersistExpiry(k, read, pool, e);
    }

    method PersistExpiry(k: string, read: Reservation, pool: string, e: Time) returns (out: Outcome)
      requires client.Serves(ReservationWorker) && Knows(client.s, k, read) && !read.marked
      requires read.status.state == Active
      requires pool == HomePool(read.spec) && ExpiryOf(read, e)
      modifies client
      ensures client.Continues() && client.OwnPrefix([OnRes(Refresh(k, pool, e))])
      ensures client.calm ==> client.Nothing() || client.Made(OnRes(Refresh(k, pool, e)))
      ensures client.calm && client.faultless && Current(old(client.s), k, read) ==>
                out == Done && client.Made(OnRes(Refresh(k, pool, e)))
      ensures out == Done || out == Failure
    {
      hide Server.Valid, Inv, IsRun, OwnOf, Rely, Evolves, ResApply, ResEnabled, NewRes, Writes, Knows, ExpiryOf;
      ghost var s0 := client.s;
      client.Interfere(ReservationWorker);
      RelyEvolves(ReservationWorker, s0, client.s);
      KnowsKept(s0, client.s, k, read);
      RefreshStep(client.s, k, read, pool, e);
      var u := client.UpdateStatus(k, read.(status := ResStatus(Active, read.status.namespace, pool, e)), Refresh(k,
          pool, e));
      out := if u.Ok? then Done else Failure;
    }

    // ------------------------------------------------------------- Reconcile

    /** One pass over reservation `k`: whatever runs against it and wherever calls fail, each write is a legal
        step of the protocol; left alone and without failures it is exactly the plan. */
    method Reconcile(k: string, order: seq<string>, clusterOrder: seq<string>) returns (out: Outcome)
      requires client.Serves(ReservationWorker) && NoDup(order)
      modifies client
      ensures client.Continues()
      ensures PassSteps(Steps(), k)
      ensures client.calm ==> client.Undisturbing()
      ensures client.calm && client.faultless && Ordered(old(client.s), k, order, clusterOrder) ==>
                client.Did(ReconcilePlan(old(client.s), k, order, clusterOrder))
      ensures client.calm && client.faultless ==> PassEnds(old(client.s), client.s, k, out)
      ensures out == Requeue ==> forall a | a in Steps() :: a.OnRes? && a.res.SetWaiting?
      ensures out == Done ==> AllOrNothing(Steps(), k)
    {
      hide Longer, QuietFrom, Server.Valid, Inv, IsRun, OwnOf, Rely, Evolves, Knows, Undisturbed, Held, CleanupPlan,
           ActivePlan, UnassignedPlan, Covers, CleanupEnds, WaitEnds, SearchEnds, Refreshed, CleansUp, Refreshes, Seeks,
           Assigns, ClaimsNothing, Cleanup;
      ghost var acts0, own0, run0 := client.acts, client.own, client.run;
      client.Interfere(ReservationWorker);
      ghost var acts1, own1, run1 := client.acts, client.own, client.run;
      NothingQuiet(run1, acts1);
      var got := client.GetReservation(k);
      if !got.Ok? {
        NoCleanup(k);
        OthersClaimNothing([], k);
        return if got.NotFound? then Done else Failure;
      }
      var read := got.value;
      KnowsRead(client.s, k);
      ReadLifecycle(client.s, k);
      if read.marked {
        out := HandleCapiCleanup(k, read, clusterOrder);
        OthersClaimNothing(Steps(), k);
      } else if read.status.state == Active {
        out := ReconcileActive(k, read);
        OthersClaimNothing(Steps(), k);
      } else if read.status.state == Waiting {
        out := ReconcileWaiting(k, read, order);
      } else {
        out := ReconcileUnassigned(k, read, PoolOf(read), order);
      }
      Onwards(client, acts0, run0, own0, acts1, run1, own1);
    }

    /** namespacereservation_controller.go, lines 127-140: an expired one goes, any other is treated like a new one. */
    method ReconcileWaiting(k: string, read: Reservation, order: seq<string>) returns (out: Outcome)
      requires client.Serves(ReservationWorker) && Knows(client.s, k, read) && !read.marked
      requires read.status.state == Waiting
      requires read.uid !in client.s.named
      requires !read.finalizer && NoDup(order)
      modifies client
      ensures client.Continues()
      ensures Seeks(Steps(), k, read.uid, PoolOf(read))
      ensures client.calm ==> client.Undisturbing()
      ensures client.calm && client.faultless && Current(old(client.s), k, read)
              && Covers(order, old(client.s).namespaces) ==>
                client.Did(WaitingPlan(old(client.s), k, order))
      ensures out != RequeueAfter
      ensures out == Requeue ==> forall a | a in Steps() :: a.OnRes? && a.res.SetWaiting?
      ensures out == Done ==> Assigns(Steps(), k, read.uid, PoolOf(read)) || ClaimsNothing(Steps())
      ensures client.calm && client.faultless && Current(old(client.s), k, read) ==>
                WaitEnds(old(client.s), client.s, k, out)
    {
      hide Server.Valid, Inv, IsRun, OwnOf, Rely, Evolves, Knows, Undisturbed, UnassignedPlan, Covers, Seeks,
           SearchEnds, ExpiredBy, Assigns, ExpirationTime, PoolOf;
      ghost var own0 := client.own;
      ExpiryReached(read, client.s.now);
      var expiry := ExpirationTime(read, client.s.now);
      if expiry.None? {
        SeekSteps(own0, client.own, k, read.uid, PoolOf(read), "", 0);
        return Failure;
      }
      ghost var s0 := client.s;
      client.Interfere(ReservationWorker);
      RelyEvolves(ReservationWorker, s0, client.s);
      KnowsKept(s0, client.s, k, read);
      if Expired(expiry.value, client.s.now) {
        ExpiredMayGo(s0, client.s, k, read);
        out := Delete(k, read);
        SeekSteps(own0, client.own, k, read.uid, PoolOf(read), "", 0);
      } else {
        out := ReconcileUnassigned(k, read, PoolOf(read), order);
      }
    }

    method Delete(k: string, read: Reservation) returns (out: Outcome)
      requires client.Serves(ReservationWorker) && Knows(client.s, k, read)
      requires MayDelete(ReservationWorker, read, client.s.now)
      modifies client
      ensures client.Continues() && client.OwnPrefix([OnRes(OpDelete(ReservationWorker, k))])
      ensures client.calm ==> client.Undisturbing()
      ensures client.calm && client.faultless && k in old(client.s).reservations ==>
                client.Did([OnRes(OpDelete(ReservationWorker, k))])
      ensures out == Done
      ensures client.calm && client.faultless && k in old(client.s).reservations
              && !old(client.s).reservations[k].finalizer ==>
                k !in client.s.reservations
    {
      hide Server.Valid, Inv, IsRun, OwnOf, Rely, Evolves, ResApply, ResEnabled, Knows, Undisturbed, MayDelete;
      ghost var s0 := client.s;
      client.Interfere(ReservationWorker);
      RelyEvolves(ReservationWorker, s0, client.s);
      KnowsKept(s0, client.s, k, read);
      DeletionAllowed(s0, client.s, k, read);
      QuietSteps();
      var deleted := client.DeleteReservation(ReservationWorker, k);
      if client.calm && client.faultless && k in s0.reservations && !s0.reservations[k].finalizer {
        client.Executed([OnRes(OpDelete(ReservationWorker, k))]);
        DeleteDone(s0, k, client.s);
      }
      out := Done;
    }

    // --------------------------------------------------------------- cleanup

    /** handleCAPICleanup: drain the clusters of the namespace, and only then let the reservation go. The branch for a
        finalizer without namespace (lines 270-277 of namespacereservation_controller.go) is never reached. */
    method HandleCapiCleanup(k: string, read: Reservation, order: seq<string>) returns (out: Outcome)
      requires client.Serves(ReservationWorker) && Knows(client.s, k, read) && (read.finalizer ==> Held(client.s, k, read))
      modifies client
      ensures client.Continues()
      ensures Cleanup(Steps(), k)
      ensures out != Requeue
      ensures client.calm ==> client.Undisturbing()
      ensures client.calm && client.faultless && read.finalizer && Current(old(client.s), k, read)
              && (forall c | c in ClustersIn(old(client.s), read.status.namespace) :: c in order) ==>
                client.Did(CleanupPlan(old(client.s), k, order))
      ensures client.calm && client.faultless && read.finalizer && Current(old(client.s), k, read) ==>
                CleanupEnds(old(client.s), client.s, k, out)
    {
      hide Server.Valid, Inv, IsRun, OwnOf, Rely, Evolves, ResApply, ResEnabled, NewRes, Writes, Knows, Undisturbed,
           NoClusters, ClustersIn, ClustersPlan;
      if !read.finalizer {
        return Done;
      }
      if read.status.namespace == "" {
        assert false;
      }
      QuietSteps();
      var current := read;
      if read.status.state != Draining {
        MarkKeepsClusters(client.s, k, read.status.namespace, order);
        var u := MarkAsDraining(k, read);
        if !u.Ok? {
          return Failure;
        }
        current := u.value;
      }
      out := DrainAndRelease(k, current, order);
    }

    /** namespacereservation_controller.go, lines 279-285 */
    method MarkAsDraining(k: string, read: Reservation) returns (r: Reply<Reservation>)
      requires client.Serves(ReservationWorker) && Knows(client.s, k, read) && Held(client.s, k, read)
      modifies client
      ensures client.Continues() && client.OwnPrefix([OnRes(MarkDraining(k))])
      ensures r.Ok? ==> Knows(client.s, k, r.value) && Held(client.s, k, r.value)
                        && r.value.status.namespace == read.status.namespace
      ensures client.calm ==> client.Nothing() || client.Made(OnRes(MarkDraining(k)))
      ensures client.calm && client.faultless && Current(old(client.s), k, read) ==>
                && r.Ok? && client.Made(OnRes(MarkDraining(k))) && Current(client.s, k, r.value)
                && r.value.finalizer && r.value.status.state == Draining
    {
      hide Server.Valid, Inv, IsRun, OwnOf, Rely, Evolves, ResApply, ResEnabled, NewRes, Writes, Knows, Held;
      ghost var s0 := client.s;
      client.Interfere(ReservationWorker);
      RelyEvolves(ReservationWorker, s0, client.s);
      KnowsKept(s0, client.s, k, read);
      HeldKept(s0, client.s, k, read);
      DrainingStep(client.s, k, read);
      r := client.UpdateStatus(k, read.(status := read.status.(state := Draining)), MarkDraining(k));
    }

    /** namespacereservation_controller.go, lines 298-333 */
    method DrainAndRelease(k: string, read: Reservation, order: seq<string>) returns (out: Outcome)
      requires client.Serves(ReservationWorker) && Knows(client.s, k, read) && Held(client.s, k, read)
      modifies client
      ensures client.Continues()
      ensures Cleanup(Steps(), k)
      ensures out != Requeue
      ensures out == Done ==>
                client.OwnPrefix([OnRes(ObserveDrained(k)), OnRes(ReleaseFinalizer(k))]) && read.uid in client.s.drained
      ensures client.calm ==> client.Undisturbing()
      ensures client.calm && client.faultless && Current(old(client.s), k, read)
              && (forall c | c in ClustersIn(old(client.s), read.status.namespace) :: c in order) ==>
                client.Did(ClustersPlan(old(client.s), k, read.status.namespace, order)
                           + if NoClusters(old(client.s), read.status.namespace) then [OnRes(ReleaseFinalizer(k))] else [])
      ensures client.calm && client.faultless && Current(old(client.s), k, read) ==>
                if NoClusters(old(client.s), read.status.namespace) then out == Done && k !in client.s.reservations
                else out == RequeueAfter && client.s.reservations == old(client.s).reservations
    {
      hide Longer, QuietFrom, Server.Valid, Inv, IsRun, OwnOf, Rely, Evolves, ResApply, ResEnabled, Writes, Knows,
           Undisturbed, Held, ClustersPlan, NoClusters, ClustersIn, CleansUp, Cleanup;
      ghost var acts0, own0, run0 := client.acts, client.own, client.run;
      var remaining := Drain(k, read, order);
      if !remaining.Ok? {
        return Failure;
      }
      if remaining.value {
        return RequeueAfter;
      }
      ghost var acts1, own1, run1 := client.acts, client.own, client.run;
      out := Release(k, read);
      QuietSteps();
      Onwards(client, acts0, run0, own0, acts1, run1, own1);
      ReleaseCleansUp(own0, client.own, k);
      if client.calm {
        QuietAfter(client, run1, acts1, |acts0|, OnRes(ReleaseFinalizer(k)));
      }
    }

    /** namespacereservation_controller.go, lines 298-318: whether there are clusters left. */
    method Drain(k: string, read: Reservation, order: seq<string>) returns (r: Reply<bool>)
      requires client.Serves(ReservationWorker) && Knows(client.s, k, read) && Held(client.s, k, read)
      modifies client
      ensures client.Continues() && Knows(client.s, k, read) && Held(client.s, k, read)
      ensures Cleanup(Steps(), k)
      ensures r == Ok(false) ==> client.OwnDid([OnRes(ObserveDrained(k))]) && read.uid in client.s.drained
      ensures client.calm ==> client.Undisturbing() && client.s.reservations == old(client.s).reservations
      ensures client.calm && client.faultless
              && (forall c | c in ClustersIn(old(client.s), read.status.namespace) :: c in order) ==>
                client.Did(ClustersPlan(old(client.s), k, read.status.namespace, order))
      ensures client.calm && client.faultless ==> r == Ok(!NoClusters(old(client.s), read.status.namespace))
    {
      hide Longer, QuietFrom, Server.Valid, Inv, IsRun, OwnOf, Rely, Evolves, Knows, Undisturbed, Held, ClustersPlan,
           NoClusters, ClustersIn, Cleanup;
      ghost var s0 := client.s;
      r := DeleteCapiResources(k, read, order);
      client.Evolved();
      KnowsKept(s0, client.s, k, read);
      if r.Ok? {
        var failed := client.Fails();        // helpers.RemoveStuckROSAMachinePoolFinalizers
        if failed {
          r := Failed;
        }
      }
    }

    method Release(k: string, read: Reservation) returns (out: Outcome)
      requires client.Serves(ReservationWorker) && Knows(client.s, k, read) && Held(client.s, k, read)
      requires read.uid in client.s.drained
      modifies client
      ensures client.Continues() && client.OwnPrefix([OnRes(ReleaseFinalizer(k))])
      ensures read.uid in client.s.drained && out != Requeue
      ensures client.calm ==> client.Nothing() || client.Made(OnRes(ReleaseFinalizer(k)))
      ensures client.calm && client.faultless && Current(old(client.s), k, read) ==>
                out == Done && client.Made(OnRes(ReleaseFinalizer(k))) && k !in client.s.reservations
    {
      hide Server.Valid, Inv, IsRun, OwnOf, Rely, Evolves, ResApply, ResEnabled, NewRes, Writes, Knows, Held;
      ghost var s0 := client.s;
      client.Interfere(ReservationWorker);
      HeldKept(s0, client.s, k, read);
      ReleaseStep(client.s, k, read);
      ghost var s1 := client.s;
      var u := client.UpdateMeta(k, read.(finalizer := false), ReleaseFinalizer(k));
      ReleaseKeepsDrained(s1, k);
      out := if u.Ok? || u.NotFound? then Done else Failure;
    }

    /** helpers.DeleteCAPIResources: deletes the clusters not yet on their way out and says whether there are any. */
    method DeleteCapiResources(k: string, read: Reservation, order: seq<string>) returns (r: Reply<bool>)
      requires client.Serves(ReservationWorker) && Held(client.s, k, read)
      modifies client
      ensures client.Continues()
      ensures Cleanup(Steps(), k)
      ensures Held(client.s, k, read)
      ensures r == Ok(false) ==> client.OwnDid([OnRes(ObserveDrained(k))]) && read.uid in client.s.drained
      ensures client.calm ==> client.Undisturbing() && client.s.reservations == old(client.s).reservations
      ensures client.calm && client.faultless
              && (forall c | c in ClustersIn(old(client.s), read.status.namespace) :: c in order) ==>
                client.Did(ClustersPlan(old(client.s), k, read.status.namespace, order))
      ensures client.calm && client.faultless ==> r == Ok(!NoClusters(old(client.s), read.status.namespace))
    {
      hide Server.Valid, Inv, IsRun, OwnOf, Rely, Undisturbed, Held, Evolves, ClustersIn, ClusterListing, NoClusters,
           DrainPlan;
      ghost var s0 := client.s;
      var listed := ListRemaining(k, read, order);
      if !listed.Ok? {
        return Failed;
      }
      if listed.value == [] {
        return Ok(false);
      }
      ghost var s1 := client.s;
      r := DeleteClusters(k, read, read.status.namespace, listed.value);
    }

    /** helpers/capi.go, lines 22-29: without the Cluster kind there are none. */
    method ListRemaining(k: string, read: Reservation, order: seq<string>) returns (r: Reply<seq<Cluster>>)
      requires client.Serves(ReservationWorker) && Held(client.s, k, read)
      modifies client
      ensures client.Continues() && Held(client.s, k, read) && (r.Ok? || r.Failed?)
      ensures r == Ok([]) ==> client.OwnDid([OnRes(ObserveDrained(k))]) && read.uid in client.s.drained
      ensures r.Ok? && r.value != [] ==> client.OwnDid([OnRes(ObserveClusters(k))])
      ensures r.Failed? ==> client.OwnDid([])
      ensures client.calm ==> client.Undisturbing() && client.s.reservations == old(client.s).reservations
      ensures client.calm && r.Ok? ==> forall c | c in r.value :: c.name in ClustersIn(client.s, read.status.namespace)
      ensures client.calm && client.faultless
              && (forall c | c in ClustersIn(old(client.s), read.status.namespace) :: c in order) ==>
                var none := NoClusters(old(client.s), read.status.namespace);
                && r == Ok(if none then [] else ClusterListing(ClustersIn(old(client.s), read.status.namespace), order))
                && client.Did([OnRes(if none then ObserveDrained(k) else ObserveClusters(k))])
      ensures client.calm && client.faultless ==>
                r.Ok? && (r.value == [] <==> NoClusters(old(client.s), read.status.namespace))
    {
      hide Server.Valid, Inv, IsRun, OwnOf, Rely, ResApply, ResEnabled, Undisturbed, Held, Evolves, ClustersIn,
           ClusterListing, NoClusters, ListsClusters;
      QuietSteps();
      ghost var s0 := client.s;
      client.Interfere(ReservationWorker);
      HeldKept(s0, client.s, k, read);
      HeldReady(client.s, k, read);
      ghost var s1 := client.s;
      var listed := client.ListClusters(k, order);
      ObservationKeeps(s1, k, read);
      ListedExactly(s1, read.status.namespace, listed);
      r := if listed.NotFound? then Ok([]) else listed;
    }

    /** The loop over the clusters listed. */
    method DeleteClusters(k: string, read: Reservation, n: string, clusters: seq<Cluster>) returns (r: Reply<bool>)
      requires client.Serves(ReservationWorker) && Held(client.s, k, read)
      modifies client
      ensures client.Continues()
      ensures Cleanup(Steps(), k)
      ensures Held(client.s, k, read) && (r.Ok? ==> r.value)
      ensures client.calm ==> client.Undisturbing() && client.s.reservations == old(client.s).reservations
      ensures client.calm && client.faultless && (forall c | c in clusters :: c.name in ClustersIn(old(client.s), n)) ==>
                r.Ok? && client.Did(DrainPlan(n, clusters))
    {
      hide Longer, QuietFrom, Enabled, Apply, Server.Valid, Inv, IsRun, OwnOf, Rely, Undisturbed, Held, Evolves,
           ClustersIn, Cleanup, DrainPlan;
      ghost var acts0, own0, run0 := client.acts, client.own, client.run;
      NoCleanup(k);
      assert own0[|own0|..] == [];
      NoDrain(n);
      Here(client);
      ghost var there := ClustersIn(client.s, n);
      ghost var all := forall i | 0 <= i < |clusters| :: clusters[i].name in there;
      for i := 0 to |clusters|
        invariant own0 <= client.own && Cleanup(client.own[|own0|..], k)
        invariant client.Continues() && Held(client.s, k, read)
        invariant client.calm ==> client.Undisturbing() && client.s.reservations == old(client.s).reservations
        invariant client.calm ==> ClustersIn(client.s, n).Keys == there.Keys
        invariant client.calm && client.faultless && all ==> client.Did(DrainPlan(n, clusters[..i]))
      {
        ghost var acts1, own1, run1 := client.acts, client.own, client.run;
        var ok := DeleteUnlessGoing(k, read, n, clusters[i]);
        DrainPlanSnoc(n, clusters, i);
        Onwards(client, acts0, run0, own0, acts1, run1, own1);
        CleanupOn(own0, own1, client.own, n, clusters[i].name, k);
        if client.calm {
          QuietOn(run1, acts1, client.run, client.acts, |acts0|);
        }
        if !ok {
          return Failed;
        }
      }
      assert clusters[..|clusters|] == clusters;
      r := Ok(true);
    }

    method DeleteUnlessGoing(k: string, read: Reservation, n: string, c: Cluster) returns (ok: bool)
      requires client.Serves(ReservationWorker) && Held(client.s, k, read)
      modifies client
      ensures client.Continues() && client.OwnPrefix([OnWorld(WorldAction.DeleteCluster(n, c.name))])
      ensures Held(client.s, k, read)
      ensures client.calm ==>
                && client.Undisturbing() && client.s.reservations == old(client.s).reservations
                && ClustersIn(client.s, n).Keys == ClustersIn(old(client.s), n).Keys
      ensures client.calm && client.faultless && c.name in ClustersIn(old(client.s), n) ==>
                ok && client.Did(if c.terminating then [] else [OnWorld(WorldAction.DeleteCluster(n, c.name))])
    {
      hide Longer, Enabled, Apply, Server.Valid, Inv, IsRun, OwnOf, Rely, Undisturbed, Held, Evolves, ClustersIn;
      Here(client);
      ok := true;
      if !c.terminating {
        ok := DeleteOneCluster(k, read, n, c.name);
      }
    }

    method DeleteOneCluster(k: string, read: Reservation, n: string, c: string) returns (ok: bool)
      requires client.Serves(ReservationWorker) && Held(client.s, k, read)
      modifies client
      ensures client.Continues() && client.OwnPrefix([OnWorld(WorldAction.DeleteCluster(n, c))])
      ensures Held(client.s, k, read)
      ensures client.calm ==>
                && (client.Nothing() || client.Made(OnWorld(WorldAction.DeleteCluster(n, c))))
                && client.s.reservations == old(client.s).reservations
                && ClustersIn(client.s, n).Keys == ClustersIn(old(client.s), n).Keys
                && client.Undisturbing()
      ensures client.calm && client.faultless && c in ClustersIn(old(client.s), n) ==>
                ok && client.Made(OnWorld(WorldAction.DeleteCluster(n, c)))
    {
      hide Server.Valid, Inv, IsRun, OwnOf, Rely, WorldApply, Held, Evolves, ClustersIn;
      ghost var s0 := client.s;
      client.Interfere(ReservationWorker);
      HeldKept(s0, client.s, k, read);
      DeletionKeeps(client.s, k, read, n, c);
      QuietSteps();
      var r := client.DeleteCluster(n, c);
      ok := !r.Failed?;
    }
  }

  lemma HeldReady(s: State, k: string, read: Reservation)
    requires Held(s, k, read)
    ensures k in s.reservations && s.reservations[k].marked && s.reservations[k].status.namespace != ""
    ensures s.reservations[k].status.namespace == read.status.namespace
  {
  }

  /** Looking at the clusters changes nothing but what is known of them. */
  lemma ObservationKeeps(s: State, k: string, read: Reservation)
    requires Held(s, k, read)
    ensures forall a | (a == ObserveDrained(k) || a == ObserveClusters(k)) && ResEnabled(s, a) ::
              var t := ResApply(s, a);
              && Held(t, k, read) && t.reservations == s.reservations
              && ClustersIn(t, read.status.namespace) == ClustersIn(s, read.status.namespace)
              && (a.ObserveDrained? ==> read.uid in t.drained)
  {
  }

  /** An empty listing, or none for want of the kind, is what NoClusters says. */
  lemma ListedExactly(s: State, n: string, listed: Reply<seq<Cluster>>)
    requires listed.NotFound? ==> !s.clusterCrd
    requires listed.Ok? ==> s.clusterCrd && ListsClusters(ClustersIn(s, n), listed.value)
    ensures listed.NotFound? || listed == Ok([]) ==> NoClusters(s, n)
    ensures listed.Ok? && listed.value != [] ==> !NoClusters(s, n)
    ensures listed.Ok? ==> forall c | c in listed.value :: c.name in ClustersIn(s, n)
  {
    if listed == Ok([]) {
      NoneListed(s, n);
    } else if listed.Ok? {
      assert listed.value[0] in listed.value;
    }
  }

  lemma NoCleanup(k: string)
    ensures Cleanup([], k)
  {
  }

  lemma CleanupOn(before: seq<Action>, between: seq<Action>, after: seq<Action>, n: string, c: string, k: string)
    requires before <= between <= after <= between + [OnWorld(WorldAction.DeleteCluster(n, c))]
    requires Cleanup(between[|before|..], k)
    ensures Cleanup(after[|before|..], k)
  {
    forall a | a in after[|before|..] ensures CleansUp(a, k) {
      assert a in between[|before|..] || a == OnWorld(WorldAction.DeleteCluster(n, c));
    }
  }

  lemma ReleaseCleansUp(before: seq<Action>, after: seq<Action>, k: string)
    requires before <= after <= before + [OnRes(ObserveDrained(k)), OnRes(ReleaseFinalizer(k))]
    ensures Cleanup(after[|before|..], k)
  {
    assert after[|before|..] <= [OnRes(ObserveDrained(k)), OnRes(ReleaseFinalizer(k))];
  }

  lemma NoDrain(n: string)
    ensures DrainPlan(n, []) == []
  {
  }

  lemma DrainPlanSnoc(n: string, clusters: seq<Cluster>, i: nat)
    requires i < |clusters|
    ensures DrainPlan(n, clusters[..i + 1])
            == DrainPlan(n, clusters[..i])
               + if clusters[i].terminating then [] else [OnWorld(WorldAction.DeleteCluster(n, clusters[i].name))]
  {
    assert clusters[..i + 1][..i] == clusters[..i];
  }

  lemma DeletionKeeps(s: State, k: string, read: Reservation, n: string, c: string)
    requires Held(s, k, read)
    ensures var a := WorldAction.DeleteCluster(n, c);
            WorldEnabled(s, a) ==>
              var t := WorldApply(s, a);
              Held(t, k, read) && t.reservations == s.reservations && ClustersIn(t, n).Keys == ClustersIn(s, n).Keys
  {
  }

  lemma MarkKeepsClusters(s: State, k: string, n: string, order: seq<string>)
    ensures var a := MarkDraining(k);
            ResEnabled(s, a) ==>
              var t := ResApply(s, a);
              && t.clusterCrd == s.clusterCrd && t.clusters == s.clusters
              && NoClusters(t, n) == NoClusters(s, n) && ClustersIn(t, n) == ClustersIn(s, n)
              && ClustersPlan(t, k, n, order) == ClustersPlan(s, k, n, order)
  {
    hide NewRes, NewReservations, DrainPlan, ClusterListing;
  }

  lemma DrainingStep(s: State, k: string, read: Reservation)
    requires Inv(s) && Knows(s, k, read) && Held(s, k, read)
    ensures k in s.reservations
    ensures var a := MarkDraining(k); var obj := read.(status := read.status.(state := Draining));
            s.reservations[k].version == obj.version ==>
              && ResEnabled(s, a) && Writes(s, a) && NewRes(s, a) == StatusWritten(s.reservations[k], obj)
              && var t := ResApply(s, a);
                 && k in t.reservations && Knows(t, k, t.reservations[k]) && Held(t, k, t.reservations[k])
                 && t.reservations[k].status.namespace == read.status.namespace
                 && t.reservations[k].finalizer && t.reservations[k].status.state == Draining
  {
    hide ResApply, Inv, Knows;
    var a := MarkDraining(k);
    KnownObject(s, k, read);
    if s.reservations[k].version == read.version {
      ResKeepsInv(s, a);
      ResAfter(s, a);
      KnowsRead(ResApply(s, a), k);
      UidBound(s, k);
    }
  }

  lemma UidBound(s: State, k: string)
    requires Inv(s) && k in s.reservations
    ensures s.reservations[k].uid < s.nextUid
  {
  }

  lemma ReleaseKeepsDrained(s: State, k: string)
    ensures ResEnabled(s, ReleaseFinalizer(k)) ==> ResApply(s, ReleaseFinalizer(k)).drained == s.drained
  {
    hide NewReservations;
  }

  lemma ReleaseStep(s: State, k: string, read: Reservation)
    requires Held(s, k, read) && read.uid in s.drained
    ensures k in s.reservations && ResEnabled(s, ReleaseFinalizer(k)) && s.reservations[k].marked
    ensures k !in ResApply(s, ReleaseFinalizer(k)).reservations
  {
  }

  lemma ReadLifecycle(s: State, k: string)
    requires Inv(s) && k in s.reservations
    ensures var r := s.reservations[k];
            && (r.finalizer && r.marked ==> Held(s, k, r))
            && (r.status.state == Active ==> r.status.namespace != "")
            && (!r.marked && r.status.state != Active ==>
                  r.status.state in {Unset, Waiting} && !r.finalizer && r.uid !in s.named)
            && (r.marked ==> r.finalizer)
  {
    assert LifecycleOf(s.ledger, k, s.reservations[k]);
  }

  /** An expiry computed earlier and passed by now lets the reservation go. */
  lemma ExpiredMayGo(s: State, t: State, k: string, read: Reservation)
    requires Knows(s, k, read) && s.now <= t.now
    requires ExpirationTime(read, s.now).Some? && Expired(ExpirationTime(read, s.now).value, t.now)
    ensures MayDelete(ReservationWorker, read, t.now)
  {
    assert Persist(read.created) == read.created;
  }

  lemma DeletionAllowed(s: State, t: State, k: string, read: Reservation)
    requires MayDelete(ReservationWorker, read, s.now) && s.now <= t.now && Knows(t, k, read)
    ensures k in t.reservations ==> ResEnabled(t, OpDelete(ReservationWorker, k))
  {
  }

  lemma ExpiryComputed(s: State, k: string, read: Reservation)
    requires Knows(s, k, read)
    ensures var e := ExpirationTime(read, s.now); e.Some? ==> ExpiryOf(read, e.value)
  {
  }

  lemma WaitStep(s: State, k: string, read: Reservation, pool: string, e: Time)
    requires Knows(s, k, read) && !read.marked && read.status.state == Unset && pool == HomePool(read.spec)
    ensures var a := SetWaiting(k, pool, e); var obj := read.(status := ResStatus(Waiting, read.status.namespace, pool, e));
            k in s.reservations && s.reservations[k].version == obj.version ==>
              ResEnabled(s, a) && Writes(s, a) && NewRes(s, a) == StatusWritten(s.reservations[k], obj)
  {
  }

  /** The first item of a ready list is a ready namespace a pool owns. */
  lemma FirstReady(s: State, p: string, ready: seq<Item>)
    requires Inv(s) && ready != []
    requires exists items :: Lists(s.namespaces, p, items) && ready == ReadyItems(items)
    ensures Takeable(s, ready[0].name, p)
  {
    hide ReadyItems, Inv;
    InvParts(s);
    var items :| Lists(s.namespaces, p, items) && ready == ReadyItems(items);
    ReadyItemsMembers(items);
    assert ready[0] in ready;
    OneOwner(s, ready[0].name);
  }

  lemma AnnotationsDisturbNothing(s: State, w: Actor, n: string, patch: Annotations)
    ensures forall t :: Undisturbed(t, OnNs(Annotate(w, n, patch)))
  {
  }

  lemma MarkKeepsReservations(s: State, n: string)
    ensures var a := OnNs(Annotate(ReservationWorker, n, StatusPatch(Error)));
            Enabled(s, a) ==> Apply(s, a).reservations == s.reservations
  {
    hide NsApply, NsEnabled;
    if NsEnabled(s, Annotate(ReservationWorker, n, StatusPatch(Error))) {
      NsAfter(s, Annotate(ReservationWorker, n, StatusPatch(Error)));
    }
  }

  lemma SoundClaim(s: State, n: string, k: string, uid: nat)
    requires n in s.namespaces && HasStatus(s.namespaces[n], Ready)
    ensures Undisturbed(s, OnNs(Claim(n, k, uid)))
  {
  }

  /** Steps on reservations, clusters and the index touch no namespace. */
  lemma QuietSteps()
    ensures forall s, a :: Undisturbed(s, OnIndex(a))
    ensures forall s, a :: Undisturbed(s, OnRes(a))
    ensures forall s, a :: Undisturbed(s, OnWorld(a))
  {
  }

  lemma ClaimKeepsReservations(s: State, n: string, k: string, uid: nat)
    ensures var a := OnNs(Claim(n, k, uid)); Enabled(s, a) ==> Apply(s, a).reservations == s.reservations
  {
  }

  lemma RegisterStep(s: State, k: string, read: Reservation, e: Time)
    requires Inv(s) && Knows(s, k, read) && ExpiryOf(read, e)
    ensures IndexEnabled(s, Register(ReservationWorker, k, e))
    ensures var t := IndexApply(s, Register(ReservationWorker, k, e)); Indexed(t, k) && t.ledger == s.ledger
  {
  }

  lemma ActivateStep(s: State, k: string, read: Reservation, n: string, pool: string, e: Time)
    requires Inv(s) && Knows(s, k, read) && !read.marked && read.status.state in {Unset, Waiting}
    requires n in s.ledger && n != "" && s.ledger[n] == Owner(ReservationKind, k, read.uid)
    requires ExpiryOf(read, e) && Indexed(s, k) && pool == HomePool(read.spec)
    ensures var a := Activate(k, n, pool, e); var obj := read.(status := ResStatus(Active, n, pool, e));
            k in s.reservations && s.reservations[k].version == obj.version ==>
              ResEnabled(s, a) && Writes(s, a) && NewRes(s, a) == StatusWritten(s.reservations[k], obj)
  {
  }

  lemma ActivateDone(s: State, k: string, n: string, pool: string, e: Time)
    requires Inv(s) && n != ""
    ensures var a := Activate(k, n, pool, e);
            ResEnabled(s, a) ==>
              var t := ResApply(s, a);
              Inv(t) && k in t.reservations && Knows(t, k, t.reservations[k])
              && !t.reservations[k].marked && t.reservations[k].status.namespace == n
              && t.reservations[k].finalizer == s.reservations[k].finalizer
  {
    hide ResApply, Inv, Knows;
    var a := Activate(k, n, pool, e);
    if ResEnabled(s, a) {
      ResKeepsInv(s, a);
      ResAfter(s, a);
      KnowsRead(ResApply(s, a), k);
    }
  }

  lemma FinalizerStep(s: State, k: string, read: Reservation)
    requires Inv(s) && Knows(s, k, read) && !read.marked && read.status.namespace != ""
    ensures var a := AddFinalizer(k);
            k in s.reservations && s.reservations[k].version == read.version ==>
              && ResEnabled(s, a) && Writes(s, a) && !s.reservations[k].marked
              && NewRes(s, a) == MetaWritten(s.reservations[k], read.(finalizer := true))
              && var t := ResApply(s, a);
                 Inv(t) && k in t.reservations && Knows(t, k, t.reservations[k])
                 && t.reservations[k].(version := read.version, finalizer := false) == read.(finalizer := false)
                 && t.now == s.now
  {
    hide ResApply, Inv, Knows;
    var a := AddFinalizer(k);
    KnownObject(s, k, read);
    if k in s.reservations && s.reservations[k].version == read.version {
      FinalizerAllowed(s, k, read);
      ResKeepsInv(s, a);
      ResAfter(s, a);
      KnowsRead(ResApply(s, a), k);
    }
  }

  lemma KnownObject(s: State, k: string, read: Reservation)
    requires Knows(s, k, read)
    ensures k in s.reservations && s.reservations[k].version == read.version ==> s.reservations[k] == read
  {
  }

  lemma FinalizerAllowed(s: State, k: string, read: Reservation)
    requires k in s.reservations && s.reservations[k] == read && !read.marked && read.status.namespace != ""
    ensures var a := AddFinalizer(k);
            && ResEnabled(s, a) && Writes(s, a)
            && NewRes(s, a) == MetaWritten(s.reservations[k], read.(finalizer := true))
  {
  }

  lemma RefreshStep(s: State, k: string, read: Reservation, pool: string, e: Time)
    requires Knows(s, k, read) && !read.marked && read.status.state == Active && ExpiryOf(read, e)
    requires pool == HomePool(read.spec)
    ensures var a := Refresh(k, pool, e); var obj := read.(status := ResStatus(Active, read.status.namespace, pool, e));
            k in s.reservations && s.reservations[k].version == obj.version ==>
              ResEnabled(s, a) && Writes(s, a) && NewRes(s, a) == StatusWritten(s.reservations[k], obj)
  {
  }

  /** A reservation write takes no time. */
  lemma TimeStands(s: State, k: string)
    ensures var a := AddFinalizer(k); ResEnabled(s, a) ==> ResApply(s, a).now == s.now
  {
    if ResEnabled(s, AddFinalizer(k)) {
      ResAfter(s, AddFinalizer(k));
    }
  }

  lemma ClaimStep(s: State, t: State, n: string, k: string, read: Reservation)
    requires Inv(s) && Rely(ReservationWorker, s, t)
    requires n in s.ledger && s.ledger[n].kind == PoolKind
    requires read.uid !in s.named && DrawsOf(s.filed, k, read) && Labelled(s, n, HomePool(read.spec))
    ensures n in t.namespaces ==>
              var uid := read.uid; var a := Claim(n, k, uid);
              && NsEnabled(t, a) && NewNs(t, a) == Claimed(t.namespaces[n], k, uid)
              && n in NsApply(t, a).ledger && NsApply(t, a).ledger[n] == Owner(ReservationKind, k, uid)
  {
    hide Inv, Labelled, VersionsEvolve, NsApply, HomePool;
    LabelKept(s, t, n, HomePool(read.spec));
    ClaimAllowed(s, t, n, k, read);
    if n in t.namespaces {
      NsAfter(t, Claim(n, k, read.uid));
    }
  }

  lemma ClaimAllowed(s: State, t: State, n: string, k: string, read: Reservation)
    requires Rely(ReservationWorker, s, t)
    requires n in s.ledger && s.ledger[n].kind == PoolKind
    requires read.uid !in s.named && DrawsOf(s.filed, k, read) && Labelled(t, n, HomePool(read.spec))
    ensures n in t.namespaces ==>
              NsEnabled(t, Claim(n, k, read.uid)) && NewNs(t, Claim(n, k, read.uid)) == Claimed(t.namespaces[n], k, read.uid)
  {
    hide VersionsEvolve, NamespacesEvolve, HomePool, Indexed;
  }

  lemma LedgerKept(s: State, t: State, n: string)
    requires Rely(ReservationWorker, s, t) && n in s.ledger
    ensures n in t.ledger && t.ledger[n] == s.ledger[n]
  {
    hide Evolves;
  }
}
