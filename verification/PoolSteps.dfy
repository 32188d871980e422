/** What the steps of the pool controller do to the counts of a pool. */
module PoolSteps {
  import opened Objects
  import opened Protocol
  import opened Invariant
  import opened Evolution
  import opened Interference
  import opened Execution
  import opened ApiServer
  import opened Namespaces
  import opened ReadyLists
  import opened PoolPlans
  import opened PoolLoop

  // ------------------------------------------------------------------ room

  /** `k` more namespaces fit under the limit of the pool that was read, if it is still that pool. */
  ghost predicate Room(s: State, p: string, pool: Pool, k: int) {
    && pool.uid < s.nextUid
    && (p in s.pools && s.pools[p].uid == pool.uid ==>
          && s.pools[p].spec.sizeLimit == pool.spec.sizeLimit
          && (pool.spec.sizeLimit.Some? ==> Total(s, p) + k <= pool.spec.sizeLimit.value + Revived(s, p)))
  }

  lemma RoomKept(s: State, t: State, p: string, pool: Pool, k: int)
    requires Room(s, p, pool, k) && PoolRely(s, t)
    ensures Room(t, p, pool, k)
  {
    hide Total, Revived;
  }

  lemma RoomInside(s: State, p: string, pool: Pool, k: int)
    requires Room(s, p, pool, k) && 1 <= k
    ensures p in s.pools && s.pools[p].uid == pool.uid ==> UnderLimit(s, p)
  {
    hide Total, Revived;
  }

  /** A pool that was read, however long ago. */
  ghost predicate KnowsPool(s: State, p: string, pool: Pool) {
    && pool.uid < s.nextUid
    && (p in s.pools && s.pools[p].uid == pool.uid ==> s.pools[p].spec.sizeLimit == pool.spec.sizeLimit)
  }

  lemma KnowsPoolRead(s: State, p: string)
    requires Inv(s) && p in s.pools
    ensures KnowsPool(s, p, s.pools[p])
  {
  }

  lemma KnowsPoolKept(s: State, t: State, p: string, pool: Pool)
    requires KnowsPool(s, p, pool) && PoolRely(s, t)
    ensures KnowsPool(t, p, pool)
  {
    hide Total, Revived;
  }

  /** What was counted leaves room for the difference computed from it. */
  lemma DeltaFits(s: State, p: string, pool: Pool, st: PoolStatus)
    requires KnowsPool(s, p, pool) && st == StatusOf(s, p, pool.uid)
    ensures Room(s, p, pool, Delta(pool.spec, st))
  {
    hide Total, StatusOf;
    if p in s.pools && s.pools[p].uid == pool.uid {
      TotalIsSum(s, p);
    }
  }

  // ------------------------------------------- what deletions leave alone

  /** None of these namespaces belongs to a reservation. */
  ghost predicate Unreserved(namespaces: map<string, Namespace>, names: seq<string>) {
    forall n | n in names :: n in namespaces ==> !HeldBy(namespaces[n], ReservationKind)
  }

  /** The same namespaces with the same owners. */
  ghost predicate OwnersKept(m: map<string, Namespace>, m': map<string, Namespace>) {
    m.Keys == m'.Keys && forall n | n in m :: m'[n].owners == m[n].owners
  }

  lemma OwnersSame(m: map<string, Namespace>)
    ensures OwnersKept(m, m)
  {
  }

  lemma OwnersKeptOn(m: map<string, Namespace>, m': map<string, Namespace>, m'': map<string, Namespace>, names: seq<string>)
    requires OwnersKept(m, m') && OwnersKept(m', m'')
    ensures OwnersKept(m, m'') && m.Keys == m'.Keys == m''.Keys
    ensures Unreserved(m, names) ==> Unreserved(m', names) && Unreserved(m'', names)
  {
  }

  lemma DeletionPlanSnoc(names: seq<string>)
    ensures DeletionPlan(names[..0]) == [] && DeletionPlan(names[..|names|]) == DeletionPlan(names)
    ensures forall i | 0 <= i < |names| :: DeletionPlan(names[..i + 1]) == DeletionPlan(names[..i]) + DeleteOnePlan(names[i])
  {
    hide DeleteOnePlan;
    assert names[..|names|] == names;
    forall i | 0 <= i < |names| ensures DeletionPlan(names[..i + 1]) == DeletionPlan(names[..i]) + DeleteOnePlan(names[i]) {
      assert names[..i + 1][..i] == names[..i];
    }
  }

  lemma PlanPrefix(names: seq<string>, i: nat)
    requires i < |names|
    ensures DeletionPlan(names[..i]) + DeleteOnePlan(names[i]) <= DeletionPlan(names)
  {
    hide DeleteOnePlan;
    DeletionPlanSnoc(names);
    PlanGrows(names, i + 1);
  }

  lemma {:induction false} PlanGrows(names: seq<string>, i: nat)
    requires i <= |names|
    ensures DeletionPlan(names[..i]) <= DeletionPlan(names)
    decreases |names| - i
  {
    hide DeletionPlan;
    DeletionPlanSnoc(names);
    if i < |names| {
      PlanGrows(names, i + 1);
    } else {
      assert names[..i] == names;
    }
  }

  /** Counting changes nothing that is counted. */
  lemma CountKeeps(s: State, p: string, uid: nat)
    requires p in s.pools
    ensures var t := PoolApply(s, CountPool(p));
            && t.namespaces == s.namespaces && t.pools == s.pools && t.created == s.created && t.nextUid == s.nextUid
            && StatusOf(t, p, uid) == StatusOf(s, p, uid)
  {
    hide PoolApply;
    PoolAfter(s, CountPool(p));
    SameStatus(s, PoolApply(s, CountPool(p)), p, uid);
  }

  lemma EachUnreserved(m: map<string, Namespace>, names: seq<string>, i: nat)
    requires i < |names|
    ensures Unreserved(m, names) ==> Unreserved(m, [names[i]])
  {
  }

  lemma WriteKeepsOwners(s: State, a: NsAction)
    requires NsEnabled(s, a) && (a.Annotate? || a.DeleteNs?)
    ensures OwnersKept(s.namespaces, NsApply(s, a).namespaces)
  {
    hide NsApply, NsVersion, Charged, AllowedPatch;
    NsAfter(s, a);
  }

  lemma MarkingKeepsOwners(s: State, n: string)
    ensures var a := Annotate(PoolWorker, n, StatusPatch(Deleting));
            NsEnabled(s, a) ==> OwnersKept(s.namespaces, NsApply(s, a).namespaces)
    ensures forall t :: Undisturbed(t, OnNs(Annotate(PoolWorker, n, StatusPatch(Deleting))))
  {
    hide NsApply, OwnersKept;
    var a := Annotate(PoolWorker, n, StatusPatch(Deleting));
    if NsEnabled(s, a) {
      WriteKeepsOwners(s, a);
    }
  }

  lemma DeletionFacts(s: State, n: string)
    requires Inv(s)
    ensures var a := DeleteNs(n);
            NsEnabled(s, a) ==> PoolRely(s, NsApply(s, a)) && OwnersKept(s.namespaces, NsApply(s, a).namespaces)
    ensures Unreserved(s.namespaces, [n]) ==> Undisturbed(s, OnNs(DeleteNs(n)))
  {
    hide PoolRely, NsApply, OwnersKept, Inv;
    InvParts(s);
    if n in s.namespaces {
      NamespaceStepRely(s, DeleteNs(n));
      WriteKeepsOwners(s, DeleteNs(n));
      assert n in [n];
    }
  }

  // ------------------------------------------------------------- room lemmas

  lemma AdoptStep(s: State, n: string, p: string, pool: Pool, k: int)
    requires Inv(s) && Room(s, p, pool, k) && 1 <= k && n !in s.ledger
    ensures NsEnabled(s, Adopt(n, p, pool.uid)) ==> n in s.namespaces
    ensures n in s.namespaces ==>
              var a := Adopt(n, p, pool.uid);
              && NsEnabled(s, a) && NewNs(s, a) == Adopted(s.namespaces[n], p, pool.uid)
              && var t := NsApply(s, a);
                 && Room(t, p, pool, k - 1) && t.created == s.created && n in t.created && t.envs == s.envs
                 && n in t.ledger && t.ledger[n].kind == PoolKind && n in t.namespaces
                 && Grew(s, t, p, pool.uid, 1) && PartOf(t.namespaces, p, pool.uid, n) == BeingCreated
    ensures Fits(s, p, pool.uid, 1) ==> Undisturbed(s, OnNs(Adopt(n, p, pool.uid)))
  {
    hide NsApply, UnderLimit, LimitInv, LifecycleInv, ExpiryInv, IndexInv, VersionsInv, OwnershipOf, Counts, Total,
         Grew;
    if n in s.namespaces {
      var a := Adopt(n, p, pool.uid);
      RoomInside(s, p, pool, k);
      NsAfter(s, a);
      CountChange(s, NsApply(s, a), p, n);
      SlackGrows(s, a, p);
      AdoptionGrows(s, a);
    }
  }

  lemma AdoptionGrows(s: State, a: NsAction)
    requires Inv(s) && NsEnabled(s, a) && a.Adopt?
    ensures Grew(s, NsApply(s, a), a.p, a.uid, 1) && PartOf(NsApply(s, a).namespaces, a.p, a.uid, a.n) == BeingCreated
  {
    hide NsApply, UnderLimit, NewNs, StatusOf, PartOf, Inv;
    NsAfter(s, a);
    StatusChange(s, NsApply(s, a), a.p, a.uid, a.n);
    AdoptedPart(s, a, NsApply(s, a));
  }

  lemma AdoptedPart(s: State, a: NsAction, t: State)
    requires Inv(s) && NsEnabled(s, a) && a.Adopt? && t.namespaces == PutNs(s, a.n, NewNs(s, a))
    ensures PartOf(s.namespaces, a.p, a.uid, a.n) == Other && PartOf(t.namespaces, a.p, a.uid, a.n) == BeingCreated
  {
    hide UnderLimit, NsVersion, LimitInv, LifecycleInv, ExpiryInv, IndexInv, VersionsInv;
    assert OwnershipOf(s.ledger, a.n, s.namespaces[a.n]);
  }

  lemma CreateStep(s: State, n: string, p: string, pool: Pool, k: int)
    requires Inv(s) && Room(s, p, pool, k) && n !in s.created && n != ""
    ensures var a := CreateNs(n);
            && NsEnabled(s, a)
            && var t := NsApply(s, a);
               && Room(t, p, pool, k) && t.created == s.created + {n} && t.ledger == s.ledger
               && n in t.namespaces && t.envs == s.envs && Grew(s, t, p, pool.uid, 0)
    ensures n !in s.ledger && n !in s.envs && n !in s.namespaces
  {
    hide NsApply, LimitInv, LifecycleInv, ExpiryInv, IndexInv, VersionsInv, OwnershipOf, Total, StatusOf;
    var a := CreateNs(n);
    NsAfter(s, a);
    CountChange(s, NsApply(s, a), p, n);
    SlackGrows(s, a, p);
    StatusChange(s, NsApply(s, a), p, pool.uid, n);
  }

  // ------------------------------- what a quiet pass does to the counts, failures or not

  /** The queue of the pool has grown by at most `k`, and nothing else that counts has changed. */
  ghost predicate Grew(s: State, t: State, p: string, uid: nat, k: int) {
    && t.pools == s.pools
    && var st, st' := StatusOf(s, p, uid), StatusOf(t, p, uid);
       && st.ready + st.creating <= st'.ready + st'.creating <= st.ready + st.creating + k
       && st'.reserved == st.reserved
  }

  /** `k` more fit under the limit itself. */
  ghost predicate Fits(s: State, p: string, uid: nat, k: int) {
    p in s.pools && s.pools[p].uid == uid && s.pools[p].spec.sizeLimit.Some? ==>
      Total(s, p) + k <= s.pools[p].spec.sizeLimit.value
  }

  lemma GrewNot(s: State, p: string, uid: nat)
    ensures Grew(s, s, p, uid, 0)
  {
  }

  lemma GrewOn(s: State, t: State, u: State, p: string, uid: nat, j: int, k: int)
    requires Grew(s, t, p, uid, j) && Grew(t, u, p, uid, k)
    ensures Grew(s, u, p, uid, j + k)
  {
    hide StatusOf;
  }

  lemma GrewLess(s: State, t: State, p: string, uid: nat, j: int, k: int)
    requires Grew(s, t, p, uid, j) && j <= k
    ensures Grew(s, t, p, uid, k)
  {
    hide StatusOf;
  }

  lemma FitsStill(s: State, t: State, p: string, uid: nat, k: int, j: int)
    requires Fits(s, p, uid, k) && Grew(s, t, p, uid, j)
    ensures Fits(t, p, uid, k - j)
  {
    hide Total, StatusOf;
    if p in s.pools && s.pools[p].uid == uid {
      TotalIsSum(s, p);
      TotalIsSum(t, p);
    }
  }

  lemma FitsLess(s: State, p: string, uid: nat, k: int)
    requires Fits(s, p, uid, k) && 1 <= k
    ensures Fits(s, p, uid, 1)
  {
    hide Total;
  }

  lemma EnvKeepsCounts(s: State, t: State, p: string, uid: nat, n: string)
    requires t.namespaces == s.namespaces && t.pools == s.pools
    ensures Grew(s, t, p, uid, 0) && PartOf(t.namespaces, p, uid, n) == PartOf(s.namespaces, p, uid, n)
  {
    hide StatusOf, PartOf;
    SameStatus(s, t, p, uid);
    SamePart(s, t, p, uid, n);
  }

  lemma SamePart(s: State, t: State, p: string, uid: nat, n: string)
    requires t.namespaces == s.namespaces
    ensures PartOf(t.namespaces, p, uid, n) == PartOf(s.namespaces, p, uid, n)
  {
  }

  /** The difference computed from a count fits under the limit itself. */
  lemma DeltaFitsExactly(s: State, p: string, pool: Pool, st: PoolStatus)
    requires p in s.pools && s.pools[p] == pool && st == StatusOf(s, p, pool.uid)
    ensures Fits(s, p, pool.uid, Delta(pool.spec, st))
  {
    hide Total, StatusOf;
    TotalIsSum(s, p);
  }

  /** Marking a namespace of the pool ready leaves it in the queue. */
  lemma ReadyStep(s: State, n: string, p: string, uid: nat)
    ensures var a := Annotate(PoolWorker, n, StatusPatch(Ready));
            NsEnabled(s, a) ==>
              && NsApply(s, a).ledger == s.ledger
              && (PartOf(s.namespaces, p, uid, n) == BeingCreated ==> Grew(s, NsApply(s, a), p, uid, 0))
  {
    hide NsApply, StatusOf, NewNs, PartOf, NsVersion;
    var a := Annotate(PoolWorker, n, StatusPatch(Ready));
    if NsEnabled(s, a) {
      NsAfter(s, a);
      StatusChange(s, NsApply(s, a), p, uid, n);
      ReadiedPart(s, a, NsApply(s, a), p, uid);
    }
  }

  lemma ReadiedPart(s: State, a: NsAction, t: State, p: string, uid: nat)
    requires NsEnabled(s, a) && a == Annotate(PoolWorker, a.n, StatusPatch(Ready))
    requires t.namespaces == PutNs(s, a.n, NewNs(s, a))
    ensures PartOf(s.namespaces, p, uid, a.n) == BeingCreated ==> PartOf(t.namespaces, p, uid, a.n) == Readied
  {
    hide NsVersion;
  }

  /** A namespace under deletion still counts. */
  lemma DeletionCounts(s: State, n: string, p: string, uid: nat)
    ensures NsEnabled(s, DeleteNs(n)) ==> Grew(s, NsApply(s, DeleteNs(n)), p, uid, 0)
  {
    hide NsApply, StatusOf;
    if n in s.namespaces {
      NsAfter(s, DeleteNs(n));
      StatusChange(s, NsApply(s, DeleteNs(n)), p, uid, n);
    }
  }

  /** Any part of the deletions, in order, leaves alone all that counts. */
  lemma {:induction false} PartialDeletions(s: State, acts: seq<Action>, names: seq<string>, uid: nat)
    requires acts <= DeletionPlan(names) && forall n | n in names :: n in s.namespaces && Idle(s.namespaces[n], uid)
    ensures var t := Exec(s, acts); t.Some? && Unmoved(s.namespaces, t.value.namespaces, uid) && t.value.pools == s.pools
    decreases |names|
  {
    hide Exec, Idle, DeleteOnePlan;
    if names == [] {
      NothingExec(s);
    } else {
      var init, n := names[..|names| - 1], names[|names| - 1];
      var earlier := DeletionPlan(init);
      if |acts| <= |earlier| {
        PartialDeletions(s, acts, init, uid);
      } else {
        DeletionsExec(s, init, uid);
        var t, rest := Exec(s, earlier).value, acts[|earlier|..];
        assert acts == earlier + rest;
        PartialDeletion(t, rest, n, uid);
        ExecAppend(s, earlier, rest);
      }
    }
  }

  lemma PartialDeletion(s: State, acts: seq<Action>, n: string, uid: nat)
    requires acts <= DeleteOnePlan(n) && acts != [] && n in s.namespaces && Idle(s.namespaces[n], uid)
    ensures var t := Exec(s, acts); t.Some? && Unmoved(s.namespaces, t.value.namespaces, uid) && t.value.pools == s.pools
  {
    hide Exec, Step, Idle;
    if |acts| == 2 {
      assert acts == DeleteOnePlan(n);
      DeleteOneExec(s, n, uid);
    } else {
      var a := Annotate(PoolWorker, n, StatusPatch(Deleting));
      assert acts == [OnNs(a)];
      ExecOne(s, OnNs(a));
      WriteExec(s, a);
      IdleDeleted(s.namespaces[n], Step(s, OnNs(a)).value.namespaces[n], uid);
      UnmovedBut(s, Step(s, OnNs(a)).value, n, uid);
    }
  }

  /** The difference has come closer to zero, or is where it was. */
  predicate Closer(d: int, d': int) {
    (d >= 0 ==> 0 <= d' <= d) && (d <= 0 ==> d <= d' <= 0)
  }

  /** The pool, if it is there, is still the same, and its difference has come closer to zero or stayed. */
  ghost predicate Approaches(s: State, t: State, p: string) {
    p in s.pools ==>
      && p in t.pools && t.pools[p].uid == s.pools[p].uid && t.pools[p].spec == s.pools[p].spec
      && Closer(DeltaOf(s, p), DeltaOf(t, p))
  }

  lemma ApproachesSelf(s: State, p: string)
    ensures Approaches(s, s, p)
  {
  }

  lemma ApproachesOn(s: State, t: State, u: State, p: string)
    requires Approaches(s, t, p) && Approaches(t, u, p)
    ensures Approaches(s, u, p)
  {
    hide DeltaOf;
  }

  lemma GrewApproaches(s: State, t: State, p: string)
    requires p in s.pools && DeltaOf(s, p) >= 0 && Grew(s, t, p, s.pools[p].uid, DeltaOf(s, p))
    ensures t.pools == s.pools && Approaches(s, t, p)
  {
    hide StatusOf;
  }

  lemma UnmovedApproaches(s: State, t: State, p: string)
    requires p in s.pools && t.pools == s.pools && Unmoved(s.namespaces, t.namespaces, s.pools[p].uid)
    ensures Approaches(s, t, p) && StatusOf(t, p, s.pools[p].uid) == StatusOf(s, p, s.pools[p].uid)
  {
    hide StatusOf, Unmoved;
    UnmovedKeeps(s, t, p, s.pools[p].uid, []);
  }

  /** Marking the first of a ready list, any number of times, closes the gap by one at most. */
  lemma MarkedCloser(s: State, p: string, ready: seq<Item>, acts: seq<Action>, m: nat)
    requires p in s.pools && DeltaOf(s, p) < 0 && acts <= ShrinkPlan(ready, m)
    requires exists items :: Lists(s.namespaces, p, items) && ready == ReadyItems(items)
    ensures var t := Exec(s, acts);
            t.Some? && t.value.pools == s.pools && Approaches(s, t.value, p)
  {
    hide Exec, StatusOf, ReadyItems, RoleOf;
    NothingExec(s);
    if acts != [] {
      var items :| Lists(s.namespaces, p, items) && ready == ReadyItems(items);
      ReadyItemsMembers(items);
      assert ready[0] in ready;
      var n, uid := ready[0].name, s.pools[p].uid;
      assert acts == seq(|acts|, _ => OnNs(Annotate(PoolWorker, n, StatusPatch(Error))));
      MarkExec(s, n, |acts|);
      var t := Exec(s, acts).value;
      StatusChange(s, t, p, uid, n);
      MarkedRole(s.namespaces[n], t.namespaces[n], uid);
    }
  }

  lemma ReportKeepsDelta(s: State, p: string, st: PoolStatus)
    ensures PoolEnabled(s, SetPoolStatus(p, st)) ==> Approaches(s, PoolApply(s, SetPoolStatus(p, st)), p)
  {
    hide StatusOf, PoolApply;
    if p in s.pools {
      PoolAfter(s, SetPoolStatus(p, st));
      SameStatus(s, PoolApply(s, SetPoolStatus(p, st)), p, s.pools[p].uid);
    }
  }

  /** Counting changes nothing the rest of the pass looks at. */
  lemma CountFacts(s: State, p: string, pool: Pool, order: seq<string>, pick: set<string> -> string)
    requires KnowsPool(s, p, pool)
    ensures p in s.pools ==>
              var t := PoolApply(s, CountPool(p));
              && KnowsPool(t, p, pool) && t.namespaces == s.namespaces && t.pools == s.pools && Approaches(s, t, p)
              && CountedPlan(t, p, order, pick) == CountedPlan(s, p, order, pick)
  {
    hide StatusOf, PoolApply, ReadyOf, AdjustPlan;
    if p in s.pools {
      var t := PoolApply(s, CountPool(p));
      CountKeeps(s, p, s.pools[p].uid);
      SameListing(s, t, p, order);
      SamePlan(s, t, p, order, pick);
    }
  }

  lemma ReportsDisturbNothing()
    ensures forall t, a :: Undisturbed(t, OnPool(a))
  {
  }

  /** Only namespaces of the pool itself are found in error. */
  lemma ErrorsUnreserved(s: State, p: string, uid: nat, errs: seq<string>)
    requires exists items :: Lists(s.namespaces, p, items) && errs == ErrorNames(items, uid)
    ensures Unreserved(s.namespaces, errs)
    ensures forall n | n in errs :: n in s.namespaces && Idle(s.namespaces[n], uid)
  {
    var items :| Lists(s.namespaces, p, items) && errs == ErrorNames(items, uid);
    ErrorNamesMembers(items, uid);
  }

  /** Deleting what was in error changes nothing the rest of the pass looks at. */
  lemma AfterDeletions(s: State, t: State, p: string, order: seq<string>, pick: set<string> -> string)
    requires Inv(s) && p in s.pools && Covers(order, s.namespaces)
    requires Exec(s, DeletionPlan(ErrorNames(Listing(s.namespaces, p, order), s.pools[p].uid))) == Some(t)
    ensures t.pools == s.pools && Covers(order, t.namespaces)
    ensures AdjustPlan(t, p, order, pick) == AdjustPlan(s, p, order, pick)
    ensures StatusOf(t, p, s.pools[p].uid) == StatusOf(s, p, s.pools[p].uid)
  {
    hide Inv, Exec, StatusOf, AdjustPlan, ReadyOf, Unmoved, Listing, ErrorNames, DeletionPlan;
    var uid := s.pools[p].uid;
    ErrorNamesIdle(s, p, uid, order);
    DeletionsExec(s, ErrorNames(Listing(s.namespaces, p, order), uid), uid);
    UnmovedKeeps(s, t, p, uid, order);
    UnmovedKeys(s, t, uid);
    SamePlan(s, t, p, order, pick);
  }

  predicate Markable(ns: Namespace) {
    HasStatus(ns, Ready) && Reserved in ns.annotations && ns.annotations[Reserved] == False
  }

  /** Every namespace of a ready list is there, and is marked as not reserved. */
  lemma SnapshotMarkable(s: State, p: string, ready: seq<Item>)
    requires Inv(s)
    requires exists items :: Lists(s.namespaces, p, items) && ready == ReadyItems(items)
    ensures forall i | 0 <= i < |ready| :: Markable(ready[i].ns) && ready[i].name in s.namespaces
                                            && s.namespaces[ready[i].name] == ready[i].ns
  {
    hide ReadyItems, Inv;
    var items :| Lists(s.namespaces, p, items) && ready == ReadyItems(items);
    ReadyItemsMembers(items);
    forall i | 0 <= i < |ready|
      ensures Markable(ready[i].ns) && ready[i].name in s.namespaces && s.namespaces[ready[i].name] == ready[i].ns
    {
      assert ready[i] in ready;
      OneOwner(s, ready[i].name);
    }
  }

  lemma ShrinkPlanGrows(ready: seq<Item>, k: nat, m: nat)
    requires k <= m
    ensures ShrinkPlan(ready, k) <= ShrinkPlan(ready, m)
  {
  }

  lemma ShrinkPlanSnoc(ready: seq<Item>, m: nat)
    ensures ShrinkPlan(ready, m + 1) == ShrinkPlan(ready, m) + ShrinkPlan(ready, 1)
    ensures ShrinkPlan(ready, 0) == []
  {
  }

  lemma NamesNotEmpty(s: State)
    requires Inv(s)
    ensures "" !in s.namespaces && !NsEnabled(s, DeleteNs(""))
  {
  }

  lemma AllMarked(items: seq<Item>)
    requires forall i | 0 <= i < |items| :: Markable(items[i].ns)
    ensures forall i | 0 <= i < |items| :: Reserved in items[i].ns.annotations
  {
  }

  lemma MarkErrorFacts(s: State, n: string)
    ensures forall t :: Undisturbed(t, OnNs(Annotate(PoolWorker, n, StatusPatch(Error))))
    ensures var a := Annotate(PoolWorker, n, StatusPatch(Error));
            NsEnabled(s, a) ==> NsApply(s, a).namespaces.Keys == s.namespaces.Keys
  {
    hide NsApply, NewNs;
    var a := Annotate(PoolWorker, n, StatusPatch(Error));
    if NsEnabled(s, a) {
      NsAfter(s, a);
    }
  }

  lemma EquipDisturbsNothing(n: string)
    ensures forall t :: Undisturbed(t, OnNs(Annotate(PoolWorker, n, StatusPatch(Ready))))
    ensures forall t, a :: Undisturbed(t, OnWorld(a))
  {
  }

  lemma CreationDisturbsNothing(n: string)
    ensures forall t :: Undisturbed(t, OnNs(CreateNs(n)))
  {
  }

  lemma NothingGrown(p: string, uid: nat, mode: Option<string>)
    ensures GrowPlan([], p, uid, mode) == []
  {
  }

  lemma CreatedKept(s: State, t: State)
    requires PoolRely(s, t)
    ensures t.created == s.created && t.ledger.Keys == s.ledger.Keys
  {
  }

  lemma LessRoom(s: State, p: string, pool: Pool, k: int)
    requires Room(s, p, pool, k)
    ensures Room(s, p, pool, k - 1)
  {
    hide Total, Revived;
  }

  lemma EnvStep(s: State, n: string, env: ClowdEnv)
    ensures var a := SetEnv(PoolWorker, n, env);
            WorldEnabled(s, a) ==>
              && PoolRely(s, WorldApply(s, a)) && WorldApply(s, a).ledger == s.ledger
              && WorldApply(s, a).namespaces == s.namespaces && WorldApply(s, a).pools == s.pools
  {
    hide PoolRely, WorldApply;
    var a := SetEnv(PoolWorker, n, env);
    if WorldEnabled(s, a) {
      WorldAfter(s, a);
      SameCountsRely(s, WorldApply(s, a));
    }
  }

  /** The ledger gives it to no reservation. */
  predicate Unclaimed(s: State, n: string) {
    n in s.ledger ==> s.ledger[n].kind == PoolKind
  }

  lemma UnclaimedIsUnreserved(s: State, n: string)
    requires Inv(s) && Unclaimed(s, n)
    ensures Unreserved(s.namespaces, [n]) && Unreserved(s.namespaces, [""])
  {
  }

  // ---------------------------------------------------------- counting lemmas

  /** The names of the items in a role. */
  function InRole(items: seq<Item>, uid: nat, role: Role): set<string> {
    set x | x in items && RoleOf(x.ns, uid) == role :: x.name
  }

  lemma OneMore(items: seq<Item>, i: nat, uid: nat)
    requires i < |items| && NoDup(Names(items))
    ensures forall role ::
              |InRole(items[..i + 1], uid, role)|
              == |InRole(items[..i], uid, role)| + if RoleOf(items[i].ns, uid) == role then 1 else 0
    ensures ErrorNames(items[..i + 1], uid)
            == ErrorNames(items[..i], uid) + if RoleOf(items[i].ns, uid) == Faulty then [items[i].name] else []
  {
    hide RoleOf;
    var init, next := items[..i], items[..i + 1];
    assert next[..i] == init && next == init + [items[i]];
    assert Names(next) == Names(items)[..i + 1];
    NewName(next);
    forall role
      ensures |InRole(next, uid, role)| == |InRole(init, uid, role)| + if RoleOf(items[i].ns, uid) == role then 1 else 0
    {
      if RoleOf(items[i].ns, uid) == role {
        assert InRole(next, uid, role) == InRole(init, uid, role) + {items[i].name};
      } else {
        assert InRole(next, uid, role) == InRole(init, uid, role);
      }
    }
  }

  lemma SingleOwner(ns: Namespace, uid: nat)
    requires |ns.owners| == 1
    ensures RoleOf(ns, uid) == OwnerRole(ns.owners[0], ns, uid)
  {
  }

  lemma ListedRoles(s: State, p: string, uid: nat, items: seq<Item>)
    requires Lists(s.namespaces, p, items)
    ensures StatusOf(s, p, uid) == PoolStatus(|InRole(items, uid, Readied)|, |InRole(items, uid, BeingCreated)|,
            |InRole(items, uid, Taken)|)
  {
    hide RoleOf;
    forall role ensures InRole(items, uid, role) == Members(s.namespaces, p, uid, role) {
      forall n | n in Members(s.namespaces, p, uid, role) ensures n in InRole(items, uid, role) {
        assert Item(n, s.namespaces[n]) in items;
      }
    }
  }
}
