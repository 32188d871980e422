/** namespacepool_controller.go: Reconcile and the loops below it. */
module PoolController {
  import opened Objects
  import opened Protocol
  import opened Invariant
  import opened Interference
  import opened Execution
  import opened ApiServer
  import opened Namespaces
  import opened ReadyLists
  import opened PoolPlans
  import opened PoolLoop
  import opened PoolSteps
  import opened PoolOutcomes

  class NamespacePoolReconciler {
    const client: Server
    const pick: set<string> -> string      // the random suffix: a name never used before

    constructor (client: Server, pick: set<string> -> string)
      ensures this.client == client && this.pick == pick
    {
      this.client, this.pick := client, pick;
    }

    // -------------------------------------------------------- getPoolStatus

    /** The counting loops: namespaces outside, their owners inside. */
    method CountOwners(items: seq<Item>, uid: nat) returns (st: PoolStatus, errs: seq<string>)
      requires NoDup(Names(items))
      requires forall i | 0 <= i < |items| :: |items[i].ns.owners| == 1
      ensures st == PoolStatus(|InRole(items, uid, Readied)|, |InRole(items, uid, BeingCreated)|, |InRole(items, uid,
              Taken)|)
      ensures errs == ErrorNames(items, uid)
      ensures Scanned(items, uid, st, errs)
    {
      hide RoleOf, OwnedInStatus;
      var ready, creating, reserved := 0, 0, 0;
      errs := [];
      for i := 0 to |items|
        invariant ready == |InRole(items[..i], uid, Readied)| && creating == |InRole(items[..i], uid, BeingCreated)|
        invariant reserved == |InRole(items[..i], uid, Taken)| && errs == ErrorNames(items[..i], uid)
      {
        var ns := items[i].ns;
        OneMore(items, i, uid);
        SingleOwner(ns, uid);
        ghost var r0, c0, t0, e0 := ready, creating, reserved, errs;
        for j := 0 to |ns.owners|
          invariant ready == r0 + if j == 1 && RoleOf(ns, uid) == Readied then 1 else 0
          invariant creating == c0 + if j == 1 && RoleOf(ns, uid) == BeingCreated then 1 else 0
          invariant reserved == t0 + if j == 1 && RoleOf(ns, uid) == Taken then 1 else 0
          invariant errs == e0 + if j == 1 && RoleOf(ns, uid) == Faulty then [items[i].name] else []
        {
          var owner := ns.owners[j];
          if owner.kind == PoolKind && owner.uid == uid {
            if HasStatus(ns, Ready) {
              ready := ready + 1;
            } else if HasStatus(ns, Creating) {
              creating := creating + 1;
            } else if HasStatus(ns, Error) {
              errs := errs + [items[i].name];
            }
          } else if owner.kind == ReservationKind {
            reserved := reserved + 1;
          }
        }
      }
      assert items[..|items|] == items;
      st := PoolStatus(ready, creating, reserved);
      ScanRight(items, uid);
    }

    /** The counters are the sizes of the sets they are meant to count. From here on the size limit is held against
        this count. */
    method GetPoolStatus(p: string, uid: nat, order: seq<string>) returns (r: Reply<(PoolStatus, seq<string>)>)
      requires client.Serves(PoolWorker) && NoDup(order)
      modifies client
      ensures client.Continues() && client.calm == old(client.calm)
      ensures (r.Ok? || r.Failed?) && client.faultless == (old(client.faultless) && !r.Failed?)
      ensures if r.Ok? && p in client.s.pools && client.s.pools[p].uid == uid then client.Made(OnPool(CountPool(p)))
              else client.Nothing()
      ensures r.Ok? ==> r.value.0 == StatusOf(client.s, p, uid)
      ensures r.Ok? ==> exists items :: Lists(client.s.namespaces, p, items) && r.value.1 == ErrorNames(items, uid)
      ensures r.Ok? && Covers(order, client.s.namespaces) ==>
                r.value.1 == ErrorNames(Listing(client.s.namespaces, p, order), uid)
      ensures r.Ok? ==> CountsRight(client.s.namespaces, p, uid, r.value.0)
      ensures r.Ok? ==>
                forall n :: n in r.value.1 <==> n in client.s.namespaces && InStatus(client.s.namespaces[n], p, uid, Error)
    {
      hide Server.Valid, Inv, IsRun, OwnOf, ErrorNames, Covers, Listing, RoleOf, StatusOf, PoolApply, CountsRight,
           InStatus, Scanned, Lists, InRole;
      var listed := client.ListNamespaces(p, order);
      if !listed.Ok? {
        return Failed;
      }
      var items := listed.value;
      OwnersOnce(client.s);
      ListedOnce(client.s.namespaces, p, items);
      var st, errs := CountOwners(items, uid);
      ListedRoles(client.s, p, uid, items);
      StatusRight(client.s, p, uid);
      ErrorsRight(client.s.namespaces, p, uid, items);
      if p in client.s.pools && client.s.pools[p].uid == uid {
        CountKeeps(client.s, p, uid);
        client.Commit(OnPool(CountPool(p)));
      }
      r := Ok((st, errs));
    }

    // -------------------------------------------------------------- deletion

    /** Deletes them in order, and stops at the first failure. */
    method DeleteErrorNamespaces(names: seq<string>) returns (ok: bool)
      requires client.Serves(PoolWorker)
      modifies client
      ensures client.OwnPrefix(DeletionPlan(names)) && (ok ==> client.OwnDid(DeletionPlan(names)))
      ensures client.Continues() && PoolRely(old(client.s), client.s)
      ensures client.calm && Unreserved(old(client.s).namespaces, names) ==> client.Undisturbing()
      ensures client.calm ==> client.acts <= old(client.acts) + DeletionPlan(names)
      ensures client.calm && ok ==> client.Did(DeletionPlan(names))
      ensures client.calm && client.faultless && (forall n | n in names :: n in old(client.s).namespaces) ==> ok
    {
      hide Longer, QuietFrom, Server.Valid, Inv, IsRun, OwnOf, Rely, PoolRely, DeletionPlan, DeleteOnePlan, Undisturbed,
           OwnersKept, Unreserved;
      ghost var acts0, own0, run0 := client.acts, client.own, client.run;
      Here(client);
      DeletionPlanSnoc(names);
      SelfPoolRely(client.s);
      ghost var before := client.s.namespaces;
      OwnersSame(before);
      for i := 0 to |names|
        invariant client.OwnDid(DeletionPlan(names[..i]))
        invariant client.Continues() && PoolRely(old(client.s), client.s)
        invariant client.calm ==> OwnersKept(before, client.s.namespaces) && client.Did(DeletionPlan(names[..i]))
        invariant client.calm && Unreserved(before, names) ==> client.Undisturbing()
      {
        ghost var mid, acts1, own1, run1 := client.s, client.acts, client.own, client.run;
        if client.calm {
          OwnersKeptOn(before, before, mid.namespaces, names);
        }
        EachUnreserved(mid.namespaces, names, i);
        PlanPrefix(names, i);
        var deleted := DeleteNamespace(names[i]);
        PoolRelyTransitive(old(client.s), mid, client.s);
        Onwards(client, acts0, run0, own0, acts1, run1, own1);
        if client.calm {
          OwnersKeptOn(before, mid.namespaces, client.s.namespaces, names);
          if Unreserved(before, names) {
            QuietOn(run1, acts1, client.run, client.acts, |acts0|);
          }
        }
        if !deleted {
          return false;
        }
      }
      ok := true;
    }

    /** helpers.DeleteNamespace */
    method DeleteNamespace(n: string) returns (ok: bool)
      requires client.Serves(PoolWorker)
      modifies client
      ensures client.OwnPrefix(DeleteOnePlan(n)) && (ok ==> client.OwnDid(DeleteOnePlan(n)))
      ensures client.Continues() && PoolRely(old(client.s), client.s)
      ensures client.calm ==> OwnersKept(old(client.s).namespaces, client.s.namespaces)
      ensures client.calm && Unreserved(old(client.s).namespaces, [n]) ==> client.Undisturbing()
      ensures client.calm ==> client.acts <= old(client.acts) + DeleteOnePlan(n)
      ensures client.calm && ok ==> client.Did(DeleteOnePlan(n))
      ensures client.calm && client.faultless && n in old(client.s).namespaces ==> ok
    {
      hide Longer, QuietFrom, Server.Valid, Inv, IsRun, OwnOf, Rely, PoolRely, NsApply, NsEnabled, Undisturbed, OwnersKept,
           Unreserved;
      ghost var s0, acts0, own0, run0 := client.s, client.acts, client.own, client.run;
      var marked := MarkDeleting(n);
      if !marked {
        return false;
      }
      ghost var s1, acts1, own1, run1 := client.s, client.acts, client.own, client.run;
      ok := ReadAndDelete(n);
      PoolRelyTransitive(s0, s1, client.s);
      Onwards(client, acts0, run0, own0, acts1, run1, own1);
      if client.calm {
        OwnersKeptOn(s0.namespaces, s1.namespaces, client.s.namespaces, [n]);
        if Unreserved(s0.namespaces, [n]) {
          QuietOn(run1, acts1, client.run, client.acts, |acts0|);
        }
      }
    }

    /** helpers/namespaces.go, lines 366-369 */
    method MarkDeleting(n: string) returns (ok: bool)
      requires client.Serves(PoolWorker)
      modifies client
      ensures client.OwnPrefix([OnNs(Annotate(PoolWorker, n, StatusPatch(Deleting)))])
      ensures ok ==> client.OwnDid([OnNs(Annotate(PoolWorker, n, StatusPatch(Deleting)))])
      ensures client.Continues() && PoolRely(old(client.s), client.s)
      ensures client.calm ==>
                && client.Undisturbing() && OwnersKept(old(client.s).namespaces, client.s.namespaces)
                && client.acts <= old(client.acts) + [OnNs(Annotate(PoolWorker, n, StatusPatch(Deleting)))]
                && (ok ==> client.Did([OnNs(Annotate(PoolWorker, n, StatusPatch(Deleting)))]))
      ensures client.calm && client.faultless && n in old(client.s).namespaces ==> ok && n in client.s.namespaces
    {
      hide QuietFrom, Server.Valid, Inv, IsRun, OwnOf, Rely, PoolRely, NsApply, NsEnabled, Undisturbed, OwnersKept,
           OnlyPatched;
      OwnersSame(client.s.namespaces);
      MarkingKeepsOwners(client.s, n);
      ok := UpdateAnnotations(client, PoolWorker, n, StatusPatch(Deleting));
      if client.calm {
        client.QuietStep(OnNs(Annotate(PoolWorker, n, StatusPatch(Deleting))));
      }
    }

    /** helpers/namespaces.go, lines 371-378 */
    method ReadAndDelete(n: string) returns (ok: bool)
      requires client.Serves(PoolWorker)
      modifies client
      ensures client.OwnPrefix([OnNs(DeleteNs(n))]) && (ok ==> client.OwnDid([OnNs(DeleteNs(n))]))
      ensures client.Continues() && PoolRely(old(client.s), client.s)
      ensures client.calm ==> client.Nothing() || client.Made(OnNs(DeleteNs(n)))
      ensures client.calm ==> OwnersKept(old(client.s).namespaces, client.s.namespaces)
      ensures client.calm && Unreserved(old(client.s).namespaces, [n]) ==> client.Undisturbing()
      ensures client.calm && ok ==> client.Made(OnNs(DeleteNs(n)))
      ensures client.calm && client.faultless && n in old(client.s).namespaces ==> ok
    {
      hide Server.Valid, Inv, IsRun, OwnOf, Rely, PoolRely, NsApply, NsEnabled, Undisturbed, OwnersKept, Unreserved;
      ghost var s0 := client.s;
      OwnersSame(s0.namespaces);
      var got := GetNamespace(client, PoolWorker, n);
      ghost var s1 := client.s;
      PoolRelyOf(s0, s1);
      if got.None? {
        return false;
      }
      ok := DeleteByName(n, "", 0);
      PoolRelyTransitive(s0, s1, client.s);
    }

    /** The delete call, by name. The namespace goes on counting, for any pool `p`. */
    method DeleteByName(n: string, ghost p: string, ghost uid: nat) returns (ok: bool)
      requires client.Serves(PoolWorker)
      modifies client
      ensures client.OwnPrefix([OnNs(DeleteNs(n))]) && (ok ==> client.OwnDid([OnNs(DeleteNs(n))]))
      ensures client.Continues() && PoolRely(old(client.s), client.s)
      ensures client.calm ==> client.Nothing() || client.Made(OnNs(DeleteNs(n)))
      ensures client.calm ==> OwnersKept(old(client.s).namespaces, client.s.namespaces)
      ensures client.calm ==> Grew(old(client.s), client.s, p, uid, 0)
      ensures client.calm && Unreserved(old(client.s).namespaces, [n]) ==> client.Undisturbing()
      ensures client.calm && ok ==> client.Made(OnNs(DeleteNs(n)))
      ensures client.calm && client.faultless && n in old(client.s).namespaces ==> ok
      ensures ok ==> n != ""
    {
      hide Inv, IsRun, OwnOf, Rely, PoolRely, NsApply, NsEnabled, Undisturbed, Unreserved, Grew, OwnersKept;
      ghost var s0 := client.s;
      client.Interfere(PoolWorker);
      PoolRelyOf(s0, client.s);
      ghost var s1 := client.s;
      OwnersSame(s1.namespaces);
      DeletionFacts(s1, n);
      NamesNotEmpty(s1);
      DeletionCounts(s1, n, p, uid);
      GrewNot(s1, p, uid);
      SelfPoolRely(s1);
      var r := client.DeleteNamespace(n);
      PoolRelyTransitive(s0, s1, client.s);
      ok := r.Ok?;
    }

    // -------------------------------------------------------------- creation

    /** The compare-and-swap loop of UpdateNamespaceResources. `name` is what is left in the returned object: the
        name, or nothing if the namespace could not be read. */
    method AdoptNamespace(n: string, p: string, pool: Pool, ghost k: int) returns (ok: bool, name: string)
      requires client.Serves(PoolWorker) && Room(client.s, p, pool, k) && 1 <= k && n !in client.s.ledger
      modifies client
      ensures client.OwnPrefix([OnNs(Adopt(n, p, pool.uid))]) && (ok ==> client.OwnDid([OnNs(Adopt(n, p, pool.uid))]))
      ensures client.Continues() && Room(client.s, p, pool, k - 1) && client.s.created == old(client.s.created)
      ensures (name == n || name == "") && (ok ==> n in client.s.created)
      ensures client.calm ==> Unclaimed(client.s, n) && Grew(old(client.s), client.s, p, pool.uid, 1)
      ensures client.calm && ok ==> PartOf(client.s.namespaces, p, pool.uid, n) == BeingCreated
      ensures client.calm && Fits(old(client.s), p, pool.uid, 1) ==> client.Undisturbing()
      ensures client.calm ==> client.Nothing() || client.Made(OnNs(Adopt(n, p, pool.uid)))
      ensures client.calm && client.faultless && n in old(client.s).namespaces ==>
                ok && client.Made(OnNs(Adopt(n, p, pool.uid))) && client.s.envs == old(client.s).envs
                && n in client.s.namespaces
    {
      hide Server.Valid, Inv, IsRun, OwnOf, NsApply, NsEnabled, Room, Grew, Fits, Undisturbed, PartOf;
      ok, name := false, "";
      GrewNot(client.s, p, pool.uid);
      GrewLess(client.s, client.s, p, pool.uid, 0, 1);
      for attempt := 0 to STEPS
        invariant client.OwnDid([]) && client.Continues() && Room(client.s, p, pool, k)
        invariant client.s.created == old(client.s.created)
        invariant n !in client.s.ledger && !ok && (name == n || name == "")
        invariant client.calm ==> attempt == 0 && client.Nothing()
      {
        var r, got := TryAdopt(n, p, pool, k);
        name := if got then n else "";
        if !r.Conflict? {
          ok := r.Ok?;
          return;
        }
      }
      LessRoom(client.s, p, pool, k);
    }

    /** One round: read, label and annotate, write. */
    method TryAdopt(n: string, p: string, pool: Pool, ghost k: int) returns (r: Reply<()>, got: bool)
      requires client.Serves(PoolWorker) && Room(client.s, p, pool, k) && 1 <= k && n !in client.s.ledger
      modifies client
      ensures client.OwnPrefix([OnNs(Adopt(n, p, pool.uid))]) && (r.Ok? ==> client.OwnDid([OnNs(Adopt(n, p, pool.uid))]))
      ensures r.Conflict? ==> client.OwnDid([])
      ensures client.Continues() && client.s.created == old(client.s.created)
      ensures if r.Conflict? then Room(client.s, p, pool, k) && n !in client.s.ledger else Room(client.s, p, pool, k - 1)
      ensures r.Ok? ==> n in client.s.created
      ensures client.calm ==> Unclaimed(client.s, n) && !r.Conflict? && Grew(old(client.s), client.s, p, pool.uid, 1)
      ensures client.calm && r.Ok? ==> PartOf(client.s.namespaces, p, pool.uid, n) == BeingCreated
      ensures client.calm && Fits(old(client.s), p, pool.uid, 1) ==> client.Undisturbing()
      ensures client.calm ==> client.Nothing() || client.Made(OnNs(Adopt(n, p, pool.uid)))
      ensures client.calm && client.faultless && n in old(client.s).namespaces ==>
                r.Ok? && client.Made(OnNs(Adopt(n, p, pool.uid))) && client.s.envs == old(client.s).envs
                && n in client.s.namespaces
    {
      hide Inv, IsRun, OwnOf, NsApply, NsEnabled, NewNs, Room, Rely, Grew, Fits, Undisturbed, PartOf;
      ghost var s0 := client.s;
      GrewNot(s0, p, pool.uid);
      GrewLess(s0, s0, p, pool.uid, 0, 1);
      var read := ReadForWrite(client, PoolWorker, n);
      PoolRelyOf(s0, client.s);
      RoomKept(s0, client.s, p, pool, k);
      LessRoom(client.s, p, pool, k);
      got := read.Some?;
      if !got {
        r := NotFound;
        return;
      }
      AdoptStep(client.s, n, p, pool, k);
      r := client.UpdateNamespace(n, Adopted(read.value, p, pool.uid), Adopt(n, p, pool.uid));
    }

    /** helpers.CreateClowdEnv */
    method CreateClowdEnv(n: string, mode: Option<string>) returns (ok: bool)
      requires client.Serves(PoolWorker) && n in client.s.created
      modifies client
      ensures if mode.None? then client.OwnDid([])
              else client.OwnPrefix([OnWorld(SetEnv(PoolWorker, n, NewEnv(mode.value)))])
      ensures client.Continues() && PoolRely(old(client.s), client.s)
      ensures client.calm ==> client.s.ledger == old(client.s).ledger && client.s.pools == old(client.s).pools
      ensures client.calm ==> client.s.namespaces == old(client.s).namespaces
      ensures client.calm ==>
                client.Nothing() || (mode.Some? && client.Made(OnWorld(SetEnv(PoolWorker, n, NewEnv(mode.value)))))
      ensures client.calm && client.faultless && n in old(client.s).namespaces && n !in old(client.s).envs ==>
                && ok
                && if mode.None? then client.Nothing()
                   else client.Made(OnWorld(SetEnv(PoolWorker, n, NewEnv(mode.value))))
      ensures ok && mode.Some? ==> client.OwnDid([OnWorld(SetEnv(PoolWorker, n, NewEnv(mode.value)))])
    {
      hide Server.Valid, Inv, IsRun, OwnOf, Rely, PoolRely, WorldApply;
      SelfPoolRely(client.s);
      if mode.None? {
        return true;
      }
      ghost var s0 := client.s;
      var ns := GetNamespace(client, PoolWorker, n);
      ghost var s1 := client.s;
      PoolRelyOf(s0, s1);
      CreatedKept(s0, s1);
      if ns.None? {
        return false;
      }
      ok := SubmitEnv(n, NewEnv(mode.value));
      PoolRelyTransitive(s0, s1, client.s);
    }

    /** The create call. */
    method SubmitEnv(n: string, env: ClowdEnv) returns (ok: bool)
      requires client.Serves(PoolWorker) && n in client.s.created
      modifies client
      ensures client.OwnPrefix([OnWorld(SetEnv(PoolWorker, n, env))])
      ensures client.Continues() && PoolRely(old(client.s), client.s)
      ensures client.calm ==>
                && client.s.ledger == old(client.s).ledger && client.s.pools == old(client.s).pools
                && client.s.namespaces == old(client.s).namespaces
                && (client.Nothing() || client.Made(OnWorld(SetEnv(PoolWorker, n, env))))
      ensures client.calm && client.faultless && n !in old(client.s).envs ==>
                ok && client.Made(OnWorld(SetEnv(PoolWorker, n, env)))
      ensures ok ==> client.OwnDid([OnWorld(SetEnv(PoolWorker, n, env))])
    {
      hide Server.Valid, Inv, IsRun, OwnOf, Rely, PoolRely, WorldApply;
      ghost var s0 := client.s;
      client.Interfere(PoolWorker);
      ghost var s1 := client.s;
      PoolRelyOf(s0, s1);
      CreatedKept(s0, s1);
      EnvStep(s1, n, env);
      SelfPoolRely(s1);
      var r := client.CreateEnv(n, env);
      PoolRelyTransitive(s0, s1, client.s);
      ok := r.Ok?;
    }

    /** UpdateNamespaceResources: adopt, create the environment, limits, quotas and secrets, then mark it ready if
        no environment will. */
    method UpdateNamespaceResources(n: string, p: string, pool: Pool, ghost k: int) returns (ok: bool, name: string)
      requires client.Serves(PoolWorker) && Room(client.s, p, pool, k) && 1 <= k && n !in client.s.ledger
      modifies client
      ensures client.OwnPrefix(EquipPlan(n, p, pool.uid, pool.spec.clowder))
      ensures client.Continues() && Room(client.s, p, pool, k - 1) && client.s.created == old(client.s.created)
      ensures name == n || name == ""
      ensures client.calm ==> Unclaimed(client.s, n) && Grew(old(client.s), client.s, p, pool.uid, 1)
      ensures client.calm && Fits(old(client.s), p, pool.uid, 1) ==> client.Undisturbing()
      ensures client.calm && client.faultless && n in old(client.s).namespaces && n !in old(client.s).envs ==>
                ok && client.Did(EquipPlan(n, p, pool.uid, pool.spec.clowder))
      ensures ok ==> client.OwnDid(EquipPlan(n, p, pool.uid, pool.spec.clowder))
    {
      hide Server.Valid, Inv, IsRun, OwnOf, NsApply, WorldApply, NsEnabled, Room, PoolRely, Undisturbed, Grew, Fits,
           PartOf;
      ghost var s0 := client.s;
      var adopted, left := AdoptNamespace(n, p, pool, k);
      name := left;
      if !adopted {
        ok := false;
        return;
      }
      ghost var s1 := client.s;
      ok := Equip(n, pool, p);
      RoomKept(s1, client.s, p, pool, k - 1);
      CreatedKept(s1, client.s);
      if client.calm {
        GrewOn(s0, s1, client.s, p, pool.uid, 1, 0);
      }
    }

    /** helpers/namespaces.go, lines 65-104 */
    method Equip(n: string, pool: Pool, ghost p: string) returns (ok: bool)
      requires client.Serves(PoolWorker) && n in client.s.created
      modifies client
      ensures client.OwnPrefix([EquipPlan(n, "", 0, pool.spec.clowder)[1]])
      ensures client.Continues() && PoolRely(old(client.s), client.s)
      ensures client.calm ==> client.s.ledger == old(client.s).ledger
      ensures client.calm && PartOf(old(client.s).namespaces, p, pool.uid, n) == BeingCreated ==>
                Grew(old(client.s), client.s, p, pool.uid, 0)
      ensures client.calm ==> client.Undisturbing()
      ensures client.calm && client.faultless && n in old(client.s).namespaces && n !in old(client.s).envs ==>
                ok && client.Did([EquipPlan(n, "", 0, pool.spec.clowder)[1]])
      ensures ok ==> client.OwnDid([EquipPlan(n, "", 0, pool.spec.clowder)[1]])
    {
      hide Server.Valid, Inv, IsRun, OwnOf, NsApply, WorldApply, NsEnabled, PoolRely, Undisturbed, Grew, PartOf;
      EquipDisturbsNothing(n);
      ghost var s0 := client.s;
      ok := CreateClowdEnv(n, pool.spec.clowder);
      ghost var s1 := client.s;
      if client.calm {
        EnvKeepsCounts(s0, s1, p, pool.uid, n);
      }
      if !ok {
        return;
      }
      ok := CreateContents(pool.spec.quotas);
      if ok && pool.spec.clowder.None? {
        ok := MarkReady(n, p, pool.uid);
        PoolRelyTransitive(s0, s1, client.s);
      }
    }

    /** helpers/namespaces.go, lines 97-104 */
    method MarkReady(n: string, ghost p: string, ghost uid: nat) returns (ok: bool)
      requires client.Serves(PoolWorker)
      modifies client
      ensures client.OwnPrefix([OnNs(Annotate(PoolWorker, n, StatusPatch(Ready)))])
      ensures client.Continues() && PoolRely(old(client.s), client.s)
      ensures client.calm ==> client.s.ledger == old(client.s).ledger
      ensures client.calm ==> client.Nothing() || client.Made(OnNs(Annotate(PoolWorker, n, StatusPatch(Ready))))
      ensures client.calm && PartOf(old(client.s).namespaces, p, uid, n) == BeingCreated ==>
                Grew(old(client.s), client.s, p, uid, 0)
      ensures client.calm && client.faultless && n in old(client.s).namespaces ==>
                ok && client.Made(OnNs(Annotate(PoolWorker, n, StatusPatch(Ready))))
      ensures ok ==> client.OwnDid([OnNs(Annotate(PoolWorker, n, StatusPatch(Ready)))])
    {
      hide Server.Valid, Inv, IsRun, OwnOf, NsApply, NsEnabled, PoolRely, OnlyPatched, Grew, PartOf;
      ReadyStep(client.s, n, p, uid);
      GrewNot(client.s, p, uid);
      ok := UpdateAnnotations(client, PoolWorker, n, StatusPatch(Ready));
    }

    /** helpers/namespaces.go, lines 70-95: objects inside the namespace, which no controller reads. */
    method CreateContents(quotas: nat) returns (ok: bool)
      modifies client`faultless
      ensures client.faultless == (old(client.faultless) && ok)
    {
      var limited := client.Fails();             // the LimitRange
      if limited {
        return false;
      }
      for quota := 0 to quotas
        invariant client.faultless == old(client.faultless)
      {
        var refused := client.Fails();           // a ResourceQuota
        if refused {
          return false;
        }
      }
      var uncopied := client.Fails();            // CopySecretsFrom
      ok := !uncopied;
    }

    /** One round of increaseReadyNamespacesQueue. A failed creation is logged and ignored; a namespace that could
        not be equipped is deleted, and only if that fails does the loop stop. */
    method FillOne(p: string, pool: Pool, ghost k: int) returns (ok: bool)
      requires client.Serves(PoolWorker) && Fresh(pick) && Room(client.s, p, pool, k) && 1 <= k
      modifies client
      ensures client.Continues() && Room(client.s, p, pool, k - 1)
      ensures client.calm ==> Grew(old(client.s), client.s, p, pool.uid, 1)
      ensures client.calm && Fits(old(client.s), p, pool.uid, 1) ==> client.Undisturbing()
      ensures client.calm && client.faultless ==>
                var n := pick(old(client.s).created);
                && ok && client.Did(FillPlan(n, p, pool.uid, pool.spec.clowder))
                && client.s.created == old(client.s).created + {n}
    {
      hide Server.Valid, Inv, IsRun, OwnOf, NsApply, NsEnabled, Room, Undisturbed, Rely, EquipPlan, Grew, Fits;
      ghost var s0 := client.s;
      var n := CreateNamespace(p, pool, k);
      ghost var s1 := client.s;
      if client.calm && Fits(s0, p, pool.uid, 1) {
        FitsStill(s0, s1, p, pool.uid, 1, 0);
      }
      ok := EquipOrDelete(n, p, pool, k);
      if client.calm {
        GrewOn(s0, s1, client.s, p, pool.uid, 0, 1);
      }
    }

    /** namespacepool_controller.go, lines 218-227 */
    method EquipOrDelete(n: string, p: string, pool: Pool, ghost k: int) returns (ok: bool)
      requires client.Serves(PoolWorker) && Room(client.s, p, pool, k) && 1 <= k && n !in client.s.ledger
      modifies client
      ensures client.Continues() && Room(client.s, p, pool, k - 1)
      ensures client.calm && client.faultless && n in old(client.s).namespaces && n !in old(client.s).envs ==>
                && ok && client.Did(EquipPlan(n, p, pool.uid, pool.spec.clowder))
                && client.s.created == old(client.s).created
      ensures client.calm ==> Grew(old(client.s), client.s, p, pool.uid, 1)
      ensures client.calm && Fits(old(client.s), p, pool.uid, 1) ==> client.Undisturbing()
      ensures ok ==>
                && old(client.own) <= client.own
                && EquippedOrDeleted(client.own[|old(client.own)|..], n, EquipPlan(n, p, pool.uid, pool.spec.clowder))
    {
      hide Longer, QuietFrom, Server.Valid, Inv, IsRun, OwnOf, NsApply, NsEnabled, Room, PoolRely, Undisturbed, Rely,
           EquipPlan, Unreserved, Unclaimed, Grew, Fits, OwnersKept, EquippedOrDeleted;
      ghost var s1, acts0, own0, run0 := client.s, client.acts, client.own, client.run;
      var equipped, name := UpdateNamespaceResources(n, p, pool, k);
      ghost var s2, acts1, own1, run1 := client.s, client.acts, client.own, client.run;
      if client.calm {
        UnclaimedIsUnreserved(s2, n);
      }
      EquipEnds(own0, own1, client.own, n, EquipPlan(n, p, pool.uid, pool.spec.clowder));
      if equipped {
        return true;
      }
      ok := DeleteByName(name, p, pool.uid);
      EquipEnds(own0, own1, client.own, n, EquipPlan(n, p, pool.uid, pool.spec.clowder));
      RoomKept(s2, client.s, p, pool, k - 1);
      Onwards(client, acts0, run0, own0, acts1, run1, own1);
      if client.calm {
        GrewOn(s1, s2, client.s, p, pool.uid, 1, 0);
        if Fits(s1, p, pool.uid, 1) {
          QuietOn(run1, acts1, client.run, client.acts, |acts0|);
        }
      }
    }

    /** helpers.CreateNamespace, under a fresh name; the caller does not look at its error. */
    method CreateNamespace(p: string, pool: Pool, ghost k: int) returns (n: string)
      requires client.Serves(PoolWorker) && Fresh(pick) && Room(client.s, p, pool, k)
      modifies client
      ensures client.OwnPrefix([OnNs(CreateNs(n))])
      ensures client.Continues() && Room(client.s, p, pool, k) && n !in client.s.ledger
      ensures client.calm ==> client.Undisturbing() && Grew(old(client.s), client.s, p, pool.uid, 0)
      ensures client.calm && client.faultless ==>
                && n == pick(old(client.s).created) && client.Made(OnNs(CreateNs(n)))
                && client.s.created == old(client.s).created + {n}
                && n in client.s.namespaces && n !in client.s.envs
    {
      hide Server.Valid, Inv, IsRun, OwnOf, NsApply, NsEnabled, Room, PoolRely, Undisturbed, Rely, Grew;
      ghost var s0 := client.s;
      GrewNot(s0, p, pool.uid);
      n := pick(client.s.created);
      client.Interfere(PoolWorker);
      PoolRelyOf(s0, client.s);
      CreatedKept(s0, client.s);
      RoomKept(s0, client.s, p, pool, k);
      CreateStep(client.s, n, p, pool, k);
      CreationDisturbsNothing(n);
      var made := client.CreateNamespace(n);
    }

    method IncreaseReadyNamespacesQueue(p: string, pool: Pool, increase: nat) returns (ok: bool)
      requires client.Serves(PoolWorker) && Fresh(pick) && Room(client.s, p, pool, increase)
      modifies client
      ensures client.Continues()
      ensures client.calm ==> Grew(old(client.s), client.s, p, pool.uid, increase)
      ensures client.calm && Fits(old(client.s), p, pool.uid, increase) ==> client.Undisturbing()
      ensures client.calm && client.faultless ==>
                ok && client.Did(GrowPlan(NewNames(pick, old(client.s).created, increase), p, pool.uid, pool.spec.clowder))
    {
      hide Server.Valid, Inv, IsRun, OwnOf, Room, Undisturbed, FillPlan, NewNames, Fresh, GrowPlan, Grew, Fits;
      ghost var used := client.s.created;
      ghost var s0 := client.s;
      GrewNot(s0, p, pool.uid);
      NoNames(pick, used);
      NothingGrown(p, pool.uid, pool.spec.clowder);
      for i := 0 to increase
        invariant client.Continues() && Room(client.s, p, pool, increase - i)
        invariant client.calm ==> Grew(s0, client.s, p, pool.uid, i)
        invariant client.calm && Fits(s0, p, pool.uid, increase) ==> client.Undisturbing()
        invariant client.calm && client.faultless ==>
                    var names := NewNames(pick, used, i);
                    && client.Did(GrowPlan(names, p, pool.uid, pool.spec.clowder))
                    && client.s.created == used + set n | n in names
      {
        NextName(pick, used, i + 1);
        ghost var names := NewNames(pick, used, i);
        GrowPlanSnoc(names, pick(used + set n | n in names), p, pool.uid, pool.spec.clowder);
        ghost var mid := client.s;
        if client.calm && Fits(s0, p, pool.uid, increase) {
          FitsStill(s0, mid, p, pool.uid, increase, i);
          FitsLess(mid, p, pool.uid, increase - i);
        }
        var filled := FillOne(p, pool, increase - i);
        if client.calm {
          GrewOn(s0, mid, client.s, p, pool.uid, i, 1);
          GrewLess(s0, client.s, p, pool.uid, i + 1, increase);
        }
        if !filled {
          return false;
        }
      }
      ok := true;
    }

    // -------------------------------------------------------------- shrinking

    /** decreaseReadyNamespacesQueue: the outer loop scans the same snapshot every time. */
    method DecreaseReadyNamespacesQueue(p: string, decrease: int, order: seq<string>) returns (ok: bool)
      requires client.Serves(PoolWorker) && decrease < 0 && NoDup(order)
      modifies client
      ensures client.Continues()
      ensures client.calm ==> client.Undisturbing()
      ensures client.calm && p in old(client.s).pools && DeltaOf(old(client.s), p) < 0 ==>
                client.s.pools == old(client.s).pools && Approaches(old(client.s), client.s, p)
      ensures client.calm && client.faultless && Covers(order, old(client.s).namespaces) ==>
                ok && client.Did(ShrinkPlan(ReadyOf(old(client.s), p, order), -decrease))
      ensures client.calm && client.faultless ==>
                ok && Shrunk(old(client.s).namespaces, client.s.namespaces, p) && client.s.pools == old(client.s).pools
    {
      hide Server.Valid, Inv, IsRun, OwnOf, Rely, Undisturbed, ReadyItems, Listing, Covers, Lists, ShrinkPlan,
           StatusOf, Exec, Shrunk;
      client.Interfere(PoolWorker);
      ghost var s0 := client.s;
      var ready := GetReadyNamespaces(client, p, order);
      if !ready.Ok? {
        return false;
      }
      SnapshotMarkable(s0, p, ready.value);
      ok := MarkFirstRepeatedly(ready.value, decrease);
      if client.calm && client.faultless {
        client.Executed(ShrinkPlan(ready.value, -decrease));
        ShrunkFrom(s0, ready.value, -decrease, p, client.s);
      }
      if client.calm && p in s0.pools && DeltaOf(s0, p) < 0 {
        ghost var done := client.acts[|old(client.acts)|..];
        client.Executed(done);
        MarkedCloser(s0, p, ready.value, done, -decrease);
      }
    }

    /** The outer loop, over a snapshot that does not change: it marks the head of it, again and again. */
    method MarkFirstRepeatedly(items: seq<Item>, decrease: int) returns (ok: bool)
      requires client.Serves(PoolWorker) && decrease < 0 && forall i | 0 <= i < |items| :: Markable(items[i].ns)
      modifies client
      ensures client.OwnPrefix(ShrinkPlan(items, -decrease)) && (ok ==> client.OwnDid(ShrinkPlan(items, -decrease)))
      ensures client.Continues()
      ensures client.calm ==> client.Undisturbing()
      ensures client.calm ==> client.acts <= old(client.acts) + ShrinkPlan(items, -decrease)
      ensures client.calm && ok ==> client.Did(ShrinkPlan(items, -decrease))
      ensures client.calm && client.faultless
              && (forall i | 0 <= i < |items| :: items[i].name in old(client.s).namespaces) ==>
                ok
    {
      hide Longer, QuietFrom, Server.Valid, Inv, IsRun, OwnOf, Undisturbed, ShrinkPlan, Markable;
      ghost var s0, acts0, own0, run0 := client.s, client.acts, client.own, client.run;
      Here(client);
      AllMarked(items);
      ShrinkPlanSnoc(items, 0);
      for i := decrease to 0
        invariant client.Continues() && client.OwnDid(ShrinkPlan(items, i - decrease))
        invariant client.calm ==> client.Undisturbing() && client.s.namespaces.Keys == s0.namespaces.Keys
        invariant client.calm ==> client.Did(ShrinkPlan(items, i - decrease))
      {
        ShrinkPlanSnoc(items, i - decrease);
        ShrinkPlanGrows(items, i - decrease + 1, -decrease);
        ghost var acts1, own1, run1 := client.acts, client.own, client.run;
        var marked := MarkFirst(items);
        Onwards(client, acts0, run0, own0, acts1, run1, own1);
        if client.calm {
          QuietOn(run1, acts1, client.run, client.acts, |acts0|);
        }
        if !marked {
          return false;
        }
      }
      ok := true;
    }

    /** The inner loop: the first item that is ready and not reserved gets the error status. */
    method MarkFirst(items: seq<Item>) returns (ok: bool)
      requires client.Serves(PoolWorker) && forall i | 0 <= i < |items| :: Reserved in items[i].ns.annotations
      modifies client
      ensures (items != [] ==> Markable(items[0].ns)) ==>
                client.OwnPrefix(ShrinkPlan(items, 1)) && (ok ==> client.OwnDid(ShrinkPlan(items, 1)))
      ensures client.Continues()
      ensures client.calm ==> client.Undisturbing() && client.s.namespaces.Keys == old(client.s).namespaces.Keys
      ensures client.calm && (items != [] ==> Markable(items[0].ns)) ==>
                && client.acts <= old(client.acts) + ShrinkPlan(items, 1)
                && (ok ==> client.Did(ShrinkPlan(items, 1)))
                && (client.faultless && (items != [] ==> items[0].name in old(client.s).namespaces) ==> ok)
      ensures ok && items != [] && Markable(items[0].ns) ==>
                client.OwnDid([OnNs(Annotate(PoolWorker, items[0].name, map[EnvStatus := Error]))])
    {
      hide Server.Valid, Inv, IsRun, OwnOf, Undisturbed, NsApply, NsEnabled, OnlyPatched;
      for j := 0 to |items|
        invariant client.Continues() && client.Nothing() && client.calm == old(client.calm)
        invariant client.faultless == old(client.faultless)
        invariant 0 < j ==> !Markable(items[0].ns)
      {
        if HasStatus(items[j].ns, Ready) && items[j].ns.annotations[Reserved] == False {
          MarkErrorFacts(client.s, items[j].name);
          ok := UpdateAnnotations(client, PoolWorker, items[j].name, StatusPatch(Error));
          return;
        }
      }
      ok := true;
    }

    // ------------------------------------------------------------- Reconcile

    /** One pass over pool `p`: whatever runs against it and wherever calls fail, each write is a legal step of the
        protocol. If nothing comes in between, no adoption goes over the size limit, and the difference to the size
        wanted comes closer to zero or stays, and never changes its sign, wherever calls fail; without failures
        the pass is exactly the plan. */
    method Reconcile(p: string, order: seq<string>) returns (out: Outcome)
      requires client.Serves(PoolWorker) && Fresh(pick) && NoDup(order)
      modifies client
      ensures client.Continues()
      ensures client.calm ==> client.Undisturbing() && Approaches(old(client.s), client.s, p)
      ensures client.calm && client.faultless && Covers(order, old(client.s).namespaces) ==>
                out == Done && client.Did(PoolPlan(old(client.s), p, order, pick))
      ensures client.calm && client.faultless && p in old(client.s).pools ==>
                var pool := old(client.s).pools[p];
                && out == Done && PassRight(old(client.s), client.s, p, pool.uid, pool.spec.clowder)
                && p in client.s.pools && CountsRight(old(client.s).namespaces, p, pool.uid, client.s.pools[p].status)
    {
      hide Server.Valid, Inv, IsRun, OwnOf, Rely, PoolRely, Undisturbed, Covers, CountedPlan, KnowsPool, StatusOf,
           Fresh, PassRight, CountsRight;
      ApproachesSelf(client.s, p);
      client.Interfere(PoolWorker);
      var got := client.GetPool(p);
      if !got.Ok? {
        return if got.NotFound? then Done else Failure;
      }
      var pool := got.value;
      KnowsPoolRead(client.s, p);
      ghost var s0 := client.s;
      client.Interfere(PoolWorker);
      PoolRelyOf(s0, client.s);
      KnowsPoolKept(s0, client.s, p, pool);
      out := CountAndAdjust(p, pool, order);
    }

    /** namespacepool_controller.go, lines 66-109 */
    method CountAndAdjust(p: string, pool: Pool, order: seq<string>) returns (out: Outcome)
      requires client.Serves(PoolWorker) && Fresh(pick) && NoDup(order) && KnowsPool(client.s, p, pool)
      modifies client
      ensures client.Continues()
      ensures client.calm && client.faultless && Covers(order, old(client.s).namespaces)
              && p in old(client.s).pools && old(client.s).pools[p] == pool ==>
                out == Done && client.Did([OnPool(CountPool(p))] + CountedPlan(old(client.s), p, order, pick))
      ensures client.calm && p in old(client.s).pools && old(client.s).pools[p] == pool ==>
                client.Undisturbing() && Approaches(old(client.s), client.s, p)
      ensures client.calm && client.faultless && p in old(client.s).pools && old(client.s).pools[p] == pool ==>
                && out == Done && PassRight(old(client.s), client.s, p, pool.uid, pool.spec.clowder)
                && p in client.s.pools && CountsRight(old(client.s).namespaces, p, pool.uid, client.s.pools[p].status)
    {
      hide Server.Valid, Inv, IsRun, OwnOf, Rely, PoolRely, Undisturbed, Covers, Listing, ErrorNames, CountedPlan,
           KnowsPool, StatusOf, Lists, Fresh, PoolApply, PassRight, CountsRight, InStatus;
      ghost var s0 := client.s;
      ReportsDisturbNothing();
      ApproachesSelf(s0, p);
      CountFacts(s0, p, pool, order, pick);
      var counted := GetPoolStatus(p, pool.uid, order);
      if !counted.Ok? {
        return Failure;
      }
      ghost var s1 := client.s;
      out := DeleteAndAdjust(p, pool, counted.value.0, counted.value.1, order);
      if client.calm && p in s0.pools && s0.pools[p] == pool {
        ApproachesOn(s0, s1, client.s, p);
        PassFrom(s0, s1, client.s, p, pool.uid, pool.spec.clowder);
      }
    }

    /** namespacepool_controller.go, lines 72-109 */
    method DeleteAndAdjust(p: string, pool: Pool, st: PoolStatus, errs: seq<string>, order: seq<string>)
      returns (out: Outcome)
      requires client.Serves(PoolWorker) && Fresh(pick) && NoDup(order)
      requires KnowsPool(client.s, p, pool) && st == StatusOf(client.s, p, pool.uid)
      requires exists items :: Lists(client.s.namespaces, p, items) && errs == ErrorNames(items, pool.uid)
      requires forall n :: n in errs <==>
                             n in client.s.namespaces && InStatus(client.s.namespaces[n], p, pool.uid, Error)
      modifies client
      ensures client.Continues()
      ensures client.calm && p in old(client.s).pools && old(client.s).pools[p] == pool ==>
                client.Undisturbing() && Approaches(old(client.s), client.s, p)
      ensures client.calm && client.faultless && Covers(order, old(client.s).namespaces)
              && p in old(client.s).pools && old(client.s).pools[p] == pool
              && errs == ErrorNames(Listing(old(client.s).namespaces, p, order), pool.uid) ==>
                out == Done && client.Did(CountedPlan(old(client.s), p, order, pick))
      ensures client.calm && client.faultless && p in old(client.s).pools && old(client.s).pools[p] == pool ==>
                && out == Done && PassRight(old(client.s), client.s, p, pool.uid, pool.spec.clowder)
                && p in client.s.pools && client.s.pools[p].status == st
    {
      hide Server.Valid, Inv, IsRun, OwnOf, Rely, PoolRely, Undisturbed, Covers, Listing, ErrorNames, DeletionPlan,
           AdjustPlan, Exec, Room, KnowsPool, StatusOf, Lists, Unreserved, Fresh, Approaches, Idle, Unmoved, InStatus,
           PassRight, Gone, Leaves;
      ghost var s1 := client.s;
      ErrorsUnreserved(s1, p, pool.uid, errs);
      DeltaFits(s1, p, pool, st);
      var deleted := DeleteErrorNamespaces(errs);
      ghost var s2 := client.s;
      if client.calm && p in s1.pools && s1.pools[p] == pool {
        ghost var done := client.acts[|old(client.acts)|..];
        client.Executed(done);
        PartialDeletions(s1, done, errs, pool.uid);
        UnmovedApproaches(s1, s2, p);
      }
      if !deleted {
        return Failure;
      }
      if client.calm {
        client.Executed(DeletionPlan(errs));
        DeletionsDone(s1, errs, s2);
      }
      RoomKept(s1, s2, p, pool, Delta(pool.spec, st));
      if client.calm && client.faultless && Covers(order, s1.namespaces) && p in s1.pools && s1.pools[p] == pool
         && errs == ErrorNames(Listing(s1.namespaces, p, order), pool.uid) {
        client.Executed(DeletionPlan(errs));
        AfterDeletions(s1, s2, p, order, pick);
      }
      out := AdjustAndReport(p, pool, st, order);
      if client.calm && p in s1.pools && s1.pools[p] == pool {
        if client.faultless {
          PassDone(s1, s2, client.s, p, pool.uid, pool.spec.clowder, errs);
        }
        ApproachesOn(s1, s2, client.s, p);
      }
    }

    method AdjustAndReport(p: string, pool: Pool, st: PoolStatus, order: seq<string>) returns (out: Outcome)
      requires client.Serves(PoolWorker) && Fresh(pick) && NoDup(order) && Room(client.s, p, pool, Delta(pool.spec, st))
      modifies client
      ensures client.Continues()
      ensures client.calm && client.faultless && Covers(order, old(client.s).namespaces)
              && p in old(client.s).pools && old(client.s).pools[p] == pool
              && st == StatusOf(old(client.s), p, pool.uid) ==>
                out == Done && client.Did(AdjustPlan(old(client.s), p, order, pick) + [OnPool(SetPoolStatus(p, st))])
      ensures client.calm && p in old(client.s).pools && old(client.s).pools[p] == pool
              && st == StatusOf(old(client.s), p, pool.uid) ==>
                client.Undisturbing() && Approaches(old(client.s), client.s, p)
      ensures client.calm && client.faultless && p in old(client.s).pools && old(client.s).pools[p] == pool ==>
                && out == Done && Leaves(old(client.s), client.s, p, pool.uid, pool.spec.clowder)
                && p in client.s.pools && client.s.pools[p].status == st
    {
      hide Server.Valid, Inv, IsRun, OwnOf, Rely, Undisturbed, Covers, AdjustPlan, Room, StatusOf, Fresh, Approaches,
           Leaves;
      ghost var s0 := client.s;
      var adjusted := Adjust(p, pool, st, order);
      if !adjusted {
        return Failure;
      }
      ghost var s1 := client.s;
      out := Report(p, pool, st);
      if client.calm && client.faultless && p in s0.pools && s0.pools[p] == pool {
        LeavesOn(s0, s1, client.s, p, pool.uid, pool.spec.clowder);
      }
      if client.calm && p in s0.pools && s0.pools[p] == pool && st == StatusOf(s0, p, pool.uid) {
        ApproachesOn(s0, s1, client.s, p);
      }
    }

    /** namespacepool_controller.go, lines 86-102 */
    method Adjust(p: string, pool: Pool, st: PoolStatus, order: seq<string>) returns (ok: bool)
      requires client.Serves(PoolWorker) && Fresh(pick) && NoDup(order) && Room(client.s, p, pool, Delta(pool.spec, st))
      modifies client
      ensures client.Continues()
      ensures client.calm && p in old(client.s).pools && old(client.s).pools[p] == pool
              && st == StatusOf(old(client.s), p, pool.uid) ==>
                && client.Undisturbing() && Approaches(old(client.s), client.s, p)
                && client.s.pools == old(client.s).pools
      ensures client.calm && client.faultless && Covers(order, old(client.s).namespaces)
              && p in old(client.s).pools && old(client.s).pools[p] == pool
              && st == StatusOf(old(client.s), p, pool.uid) ==>
                ok && client.Did(AdjustPlan(old(client.s), p, order, pick))
      ensures client.calm && client.faultless ==>
                && ok && Leaves(old(client.s), client.s, p, pool.uid, pool.spec.clowder)
                && client.s.pools == old(client.s).pools
    {
      hide Server.Valid, Inv, IsRun, OwnOf, Rely, Undisturbed, Covers, GrowPlan, ShrinkPlan, NewNames, Exec, Room,
           StatusOf, ReadyOf, Fresh, Approaches, Grew, Fits, Leaves, Spares, Shrunk;
      LeavesAll(client.s, client.s, p, pool.uid, pool.spec.clowder);
      ghost var s0 := client.s;
      ApproachesSelf(s0, p);
      var d := Delta(pool.spec, st);
      ok := true;
      if d > 0 {
        if p in s0.pools && s0.pools[p] == pool && st == StatusOf(s0, p, pool.uid) {
          DeltaFitsExactly(s0, p, pool, st);
        }
        ok := IncreaseReadyNamespacesQueue(p, pool, d);
        if client.calm && p in s0.pools && s0.pools[p] == pool && st == StatusOf(s0, p, pool.uid) {
          GrewApproaches(s0, client.s, p);
        }
        if client.calm && client.faultless {
          client.Executed(GrowPlan(NewNames(pick, s0.created, d), p, pool.uid, pool.spec.clowder));
          GrowthDone(s0, p, pool.uid, pool.spec.clowder, pick, d, client.s);
        }
      } else if d < 0 {
        ok := DecreaseReadyNamespacesQueue(p, d, order);
        if client.calm && client.faultless {
          ShrunkSpares(s0.namespaces, client.s.namespaces, p);
          SparesLeaves(s0, client.s, p, pool.uid, pool.spec.clowder);
        }
      }
    }

    /** namespacepool_controller.go, lines 104-107 */
    method Report(p: string, pool: Pool, st: PoolStatus) returns (out: Outcome)
      requires client.Serves(PoolWorker)
      modifies client
      ensures client.OwnPrefix([OnPool(SetPoolStatus(p, st))])
      ensures client.Continues()
      ensures client.calm ==> client.Undisturbing() && Approaches(old(client.s), client.s, p)
      ensures client.calm && client.faultless && p in old(client.s).pools && old(client.s).pools[p] == pool ==>
                out == Done && client.Made(OnPool(SetPoolStatus(p, st)))
      ensures client.calm && client.faultless && p in old(client.s).pools && old(client.s).pools[p] == pool ==>
                && client.s.namespaces == old(client.s).namespaces && client.s.envs == old(client.s).envs
                && p in client.s.pools && client.s.pools[p].status == st
    {
      hide Server.Valid, Inv, IsRun, OwnOf, Rely, Undisturbed, PoolApply, StatusOf;
      ReportsDisturbNothing();
      ApproachesSelf(client.s, p);
      ReportKeepsDelta(client.s, p, st);
      Reported(client.s, p, st);
      client.Interfere(PoolWorker);
      var u := client.UpdatePoolStatus(p, pool.(status := st));
      out := if u.Ok? then Done else Failure;
    }
  }
}
