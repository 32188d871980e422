/** What a pass of the pool controller finds and leaves behind, in terms of the labels, owners and annotations of the
    namespaces alone. */
module PoolOutcomes {
  import opened Objects
  import opened Protocol
  import opened Invariant
  import opened Execution
  import opened ApiServer
  import opened Namespaces
  import opened ReadyLists
  import opened PoolPlans
  import opened PoolSteps
  import PoolLoop

  // ------------------------------------------------------ what is counted

  /** Labelled `p`, owned by the pool object `uid`, and of this status. */
  predicate InStatus(ns: Namespace, p: string, uid: nat, v: Value) {
    && ns.pool == Some(p)
    && (exists i :: 0 <= i < |ns.owners| && ns.owners[i].kind == PoolKind && ns.owners[i].uid == uid)
    && EnvStatus in ns.annotations && ns.annotations[EnvStatus] == v
  }

  /** Labelled `p` and owned by a reservation. */
  predicate Reserving(ns: Namespace, p: string) {
    ns.pool == Some(p) && exists i :: 0 <= i < |ns.owners| && ns.owners[i].kind == ReservationKind
  }

  /** The counters say how many namespaces there are of each sort. */
  ghost predicate CountsRight(m: map<string, Namespace>, p: string, uid: nat, st: PoolStatus) {
    && st.ready == |set n | n in m && InStatus(m[n], p, uid, Ready)|
    && st.creating == |set n | n in m && InStatus(m[n], p, uid, Creating)|
    && st.reserved == |set n | n in m && Reserving(m[n], p)|
  }

  lemma RoleMeans(ns: Namespace, p: string, uid: nat)
    requires |ns.owners| == 1 && ns.pool == Some(p)
    ensures InStatus(ns, p, uid, Ready) <==> RoleOf(ns, uid) == Readied
    ensures InStatus(ns, p, uid, Creating) <==> RoleOf(ns, uid) == BeingCreated
    ensures InStatus(ns, p, uid, Error) <==> RoleOf(ns, uid) == Faulty
    ensures Reserving(ns, p) <==> RoleOf(ns, uid) == Taken
  {
    assert ns.owners[0] == ns.owners[0];
    if ns.owners[0].kind == PoolKind && ns.owners[0].uid == uid {
      assert 0 <= 0 < |ns.owners| && ns.owners[0].kind == PoolKind && ns.owners[0].uid == uid;
    }
  }

  /** Owned by the pool object `uid`, and of this status. */
  predicate OwnedInStatus(ns: Namespace, uid: nat, v: Value) {
    && |ns.owners| == 1 && ns.owners[0].kind == PoolKind && ns.owners[0].uid == uid
    && EnvStatus in ns.annotations && ns.annotations[EnvStatus] == v
  }

  /** What the scan over a listing finds: how many there are of each sort, and the names of those in error. */
  ghost predicate Scanned(items: seq<Item>, uid: nat, st: PoolStatus, errs: seq<string>)
    requires forall i | 0 <= i < |items| :: |items[i].ns.owners| == 1
  {
    && st.ready == |set x | x in items && OwnedInStatus(x.ns, uid, Ready) :: x.name|
    && st.creating == |set x | x in items && OwnedInStatus(x.ns, uid, Creating) :: x.name|
    && st.reserved == |set x | x in items && x.ns.owners[0].kind == ReservationKind :: x.name|
    && forall n :: n in errs <==>
                     exists i :: 0 <= i < |items| && items[i].name == n && OwnedInStatus(items[i].ns, uid, Error)
  }

  lemma ScanRight(items: seq<Item>, uid: nat)
    requires forall i | 0 <= i < |items| :: |items[i].ns.owners| == 1
    ensures Scanned(items, uid, PoolStatus(|InRole(items, uid, Readied)|, |InRole(items, uid, BeingCreated)|,
                                           |InRole(items, uid, Taken)|), ErrorNames(items, uid))
  {
    hide RoleOf, OwnedInStatus;
    forall i | 0 <= i < |items|
      ensures RoleOf(items[i].ns, uid) == Readied <==> OwnedInStatus(items[i].ns, uid, Ready)
      ensures RoleOf(items[i].ns, uid) == BeingCreated <==> OwnedInStatus(items[i].ns, uid, Creating)
      ensures RoleOf(items[i].ns, uid) == Faulty <==> OwnedInStatus(items[i].ns, uid, Error)
      ensures RoleOf(items[i].ns, uid) == Taken <==> items[i].ns.owners[0].kind == ReservationKind
    {
      OwnedMeans(items[i].ns, uid);
    }
    assert InRole(items, uid, Readied) == set x | x in items && OwnedInStatus(x.ns, uid, Ready) :: x.name;
    assert InRole(items, uid, BeingCreated) == set x | x in items && OwnedInStatus(x.ns, uid, Creating) :: x.name;
    assert InRole(items, uid, Taken) == set x | x in items && x.ns.owners[0].kind == ReservationKind :: x.name;
    forall n ensures n in ErrorNames(items, uid) <==>
                       exists i :: 0 <= i < |items| && items[i].name == n && OwnedInStatus(items[i].ns, uid, Error)
    {
      ErrorNamesExactly(items, uid, n);
    }
  }

  lemma OwnedMeans(ns: Namespace, uid: nat)
    requires |ns.owners| == 1
    ensures RoleOf(ns, uid) == Readied <==> OwnedInStatus(ns, uid, Ready)
    ensures RoleOf(ns, uid) == BeingCreated <==> OwnedInStatus(ns, uid, Creating)
    ensures RoleOf(ns, uid) == Faulty <==> OwnedInStatus(ns, uid, Error)
    ensures RoleOf(ns, uid) == Taken <==> ns.owners[0].kind == ReservationKind
  {
  }

  /** Every labelled namespace has one owner. */
  ghost predicate OneOwnerPer(m: map<string, Namespace>) {
    forall n | n in m && m[n].pool.Some? :: |m[n].owners| == 1
  }

  lemma OwnersOnce(s: State)
    requires Inv(s)
    ensures OneOwnerPer(s.namespaces)
  {
  }

  lemma StatusRight(s: State, p: string, uid: nat)
    requires OneOwnerPer(s.namespaces)
    ensures CountsRight(s.namespaces, p, uid, StatusOf(s, p, uid))
  {
    hide RoleOf, InStatus, Reserving;
    var m := s.namespaces;
    forall n | n in m && m[n].pool == Some(p)
      ensures InStatus(m[n], p, uid, Ready) <==> RoleOf(m[n], uid) == Readied
      ensures InStatus(m[n], p, uid, Creating) <==> RoleOf(m[n], uid) == BeingCreated
      ensures Reserving(m[n], p) <==> RoleOf(m[n], uid) == Taken
    {
      RoleMeans(m[n], p, uid);
    }
    OnlyLabelled(m, p, uid);
    assert (set n | n in m && InStatus(m[n], p, uid, Ready)) == Members(m, p, uid, Readied);
    assert (set n | n in m && InStatus(m[n], p, uid, Creating)) == Members(m, p, uid, BeingCreated);
    assert (set n | n in m && Reserving(m[n], p)) == Members(m, p, uid, Taken);
  }

  lemma OnlyLabelled(m: map<string, Namespace>, p: string, uid: nat)
    ensures forall n, v | n in m && InStatus(m[n], p, uid, v) :: m[n].pool == Some(p)
    ensures forall n | n in m && Reserving(m[n], p) :: m[n].pool == Some(p)
  {
  }

  /** The names collected are exactly those of the pool's namespaces in error. */
  lemma ErrorsRight(m: map<string, Namespace>, p: string, uid: nat, items: seq<Item>)
    requires OneOwnerPer(m) && Lists(m, p, items)
    ensures forall n :: n in ErrorNames(items, uid) <==> n in m && InStatus(m[n], p, uid, Error)
  {
    forall n ensures n in ErrorNames(items, uid) <==> n in m && InStatus(m[n], p, uid, Error) {
      ErrorRight(m, p, uid, items, n);
    }
  }

  lemma ListedOnce(m: map<string, Namespace>, p: string, items: seq<Item>)
    requires OneOwnerPer(m) && Lists(m, p, items)
    ensures NoDup(Names(items)) && forall i | 0 <= i < |items| :: |items[i].ns.owners| == 1
  {
  }

  lemma ErrorRight(m: map<string, Namespace>, p: string, uid: nat, items: seq<Item>, n: string)
    requires OneOwnerPer(m) && Lists(m, p, items)
    ensures n in ErrorNames(items, uid) <==> n in m && InStatus(m[n], p, uid, Error)
  {
    hide RoleOf, InStatus;
    ErrorNamesExactly(items, uid, n);
    OnlyLabelled(m, p, uid);
    if n in ErrorNames(items, uid) {
      var i :| 0 <= i < |items| && items[i].name == n && RoleOf(items[i].ns, uid) == Faulty;
      RoleMeans(items[i].ns, p, uid);
    }
    if n in m && InStatus(m[n], p, uid, Error) {
      RoleMeans(m[n], p, uid);
      assert Item(n, m[n]) in items;
      var i :| 0 <= i < |items| && items[i] == Item(n, m[n]);
      assert items[i].name == n && RoleOf(items[i].ns, uid) == Faulty;
    }
  }

  lemma {:induction false} ErrorNamesExactly(items: seq<Item>, uid: nat, n: string)
    ensures n in ErrorNames(items, uid) <==>
              exists i :: 0 <= i < |items| && items[i].name == n && RoleOf(items[i].ns, uid) == Faulty
  {
    hide RoleOf;
    if items != [] {
      var k := |items| - 1;
      var init, last := items[..k], items[k];
      ErrorNamesExactly(init, uid, n);
      assert n in ErrorNames(items, uid) <==>
               n in ErrorNames(init, uid) || (last.name == n && RoleOf(last.ns, uid) == Faulty);
      assert forall i | 0 <= i < k :: init[i] == items[i];
      if i :| 0 <= i < k && init[i].name == n && RoleOf(init[i].ns, uid) == Faulty {
        assert items[i].name == n && RoleOf(items[i].ns, uid) == Faulty;
      }
    }
  }

  // ------------------------------------------------- what the steps leave

  /** These are being deleted, and all else is as before. */
  ghost predicate Gone(m: map<string, Namespace>, m': map<string, Namespace>, names: seq<string>) {
    && m'.Keys == m.Keys
    && forall n | n in m :: if n in names then BeingDeleted(m'[n]) else m'[n] == m[n]
  }

  predicate BeingDeleted(ns: Namespace) {
    ns.terminating && EnvStatus in ns.annotations && ns.annotations[EnvStatus] == Deleting
  }

  lemma {:induction false} DeletionsDone(s: State, names: seq<string>, t: State)
    requires Exec(s, DeletionPlan(names)) == Some(t) && forall n | n in names :: n in s.namespaces
    ensures Gone(s.namespaces, t.namespaces, names) && t.pools == s.pools
    decreases |names|
  {
    hide Exec, DeleteOnePlan, BeingDeleted;
    if names == [] {
      NothingExec(s);
    } else {
      var init, n := names[..|names| - 1], names[|names| - 1];
      ExecAppend(s, DeletionPlan(init), DeleteOnePlan(n));
      var u := Exec(s, DeletionPlan(init)).value;
      DeletionsDone(s, init, u);
      DeletionDone(u, n, t);
      assert names == init + [n];
    }
  }

  lemma DeletionDone(s: State, n: string, t: State)
    requires Exec(s, DeleteOnePlan(n)) == Some(t) && n in s.namespaces
    ensures SameBut(s.namespaces, t.namespaces, n) && n in t.namespaces && BeingDeleted(t.namespaces[n])
    ensures t.pools == s.pools
  {
    hide Exec, Step;
    var a, b := Annotate(PoolWorker, n, map[EnvStatus := Deleting]), DeleteNs(n);
    ExecTwo(s, OnNs(a), OnNs(b));
    WriteExec(s, a);
    WriteExec(Step(s, OnNs(a)).value, b);
  }

  /** It was ready and is in error now, and all else is as before. */
  ghost predicate Demoted(ns: Namespace, ns': Namespace) {
    EnvStatus in ns.annotations && ns.annotations[EnvStatus] == Ready && InErrorNow(ns, ns')
  }

  /** No namespace is lost, and at most one has changed, from ready to error. */
  ghost predicate Spares(m: map<string, Namespace>, m': map<string, Namespace>) {
    && (forall n | n in m :: n in m' && (m'[n] == m[n] || Demoted(m[n], m'[n])))
    && forall n, x | n in m && x in m && n in m' && x in m' && m'[n] != m[n] && m'[x] != m[x] :: n == x
  }

  /** A namespace as the pool controller hands it out: ready if it needs no environment, and otherwise waiting for the one
      that was created for it. */
  predicate Equipped(t: State, n: string, p: string, uid: nat, mode: Option<string>) {
    && n in t.namespaces && t.namespaces[n].pool == Some(p) && t.namespaces[n].owners == [Owner(PoolKind, p, uid)]
    && !t.namespaces[n].terminating
    && Reserved in t.namespaces[n].annotations && t.namespaces[n].annotations[Reserved] == False
    && EnvStatus in t.namespaces[n].annotations
    && t.namespaces[n].annotations[EnvStatus] == (if mode == None then Ready else Creating)
    && (mode.Some? ==> n in t.envs && t.envs[n] == ClowdEnv(mode.value, "", []))
  }

  /** All the steps of the plan, or the first few of them and then the deletion. */
  ghost predicate EquippedOrDeleted(steps: seq<Action>, n: string, plan: seq<Action>) {
    steps == plan || exists done :: done <= plan && steps == done + [OnNs(DeleteNs(n))]
  }

  lemma EquipEnds(before: seq<Action>, between: seq<Action>, after: seq<Action>, n: string, plan: seq<Action>)
    requires before <= between <= before + plan && between <= after
    ensures after == before + plan ==> EquippedOrDeleted(after[|before|..], n, plan)
    ensures after == between + [OnNs(DeleteNs(n))] ==> EquippedOrDeleted(after[|before|..], n, plan)
  {
    var done := between[|before|..];
    if after == between + [OnNs(DeleteNs(n))] {
      assert done <= plan && after[|before|..] == done + [OnNs(DeleteNs(n))];
    } else if after == before + plan {
      assert after[|before|..] == plan;
    }
  }

  /** Whatever is new is equipped, and what was there is spared. */
  ghost predicate Leaves(s: State, t: State, p: string, uid: nat, mode: Option<string>) {
    && Spares(s.namespaces, t.namespaces)
    && forall n | n in t.namespaces && n !in s.namespaces :: Equipped(t, n, p, uid, mode)
  }

  lemma LeavesAll(s: State, t: State, p: string, uid: nat, mode: Option<string>)
    requires t.namespaces == s.namespaces
    ensures Leaves(s, t, p, uid, mode)
  {
  }

  /** Only namespace `n` and its environment may differ. */
  ghost predicate OnlyOne(s: State, t: State, n: string) {
    && SameBut(s.namespaces, t.namespaces, n)
    && forall x | x != n && x in s.envs :: x in t.envs && t.envs[x] == s.envs[x]
  }

  lemma FillDone(s: State, n: string, p: string, uid: nat, mode: Option<string>, t: State)
    requires Exec(s, FillPlan(n, p, uid, mode)) == Some(t)
    ensures OnlyOne(s, t, n) && Equipped(t, n, p, uid, mode) && t.created == s.created + {n} && t.pools == s.pools
  {
    hide Exec, Step, OnlyOne, Adoptee, Equipped;
    var a, b, c := OnNs(CreateNs(n)), OnNs(Adopt(n, p, uid)), EquipPlan(n, p, uid, mode)[1];
    ExecAppend(s, [a], EquipPlan(n, p, uid, mode));
    ExecOne(s, a);
    var s1 := Step(s, a).value;
    assert EquipPlan(n, p, uid, mode) == [b, c];
    ExecTwo(s1, b, c);
    var s2 := Step(s1, b).value;
    CreateDone(s, n, s1);
    AdoptDone(s1, n, p, uid, s2);
    LastDone(s2, n, p, uid, mode, t);
    OnlyOneOn(s, s1, s2, n);
    OnlyOneOn(s, s2, t, n);
  }

  lemma OnlyOneOn(s: State, u: State, t: State, n: string)
    requires OnlyOne(s, u, n) && OnlyOne(u, t, n)
    ensures OnlyOne(s, t, n)
  {
  }

  lemma CreateDone(s: State, n: string, t: State)
    requires Step(s, OnNs(CreateNs(n))) == Some(t)
    ensures OnlyOne(s, t, n) && n in t.namespaces && !t.namespaces[n].terminating
    ensures t.created == s.created + {n} && t.pools == s.pools
  {
    hide Step, NsApply, NsVersion;
    StepEnabled(s, OnNs(CreateNs(n)));
    WriteExec(s, CreateNs(n));
  }

  lemma AdoptDone(s: State, n: string, p: string, uid: nat, t: State)
    requires Step(s, OnNs(Adopt(n, p, uid))) == Some(t) && n in s.namespaces && !s.namespaces[n].terminating
    ensures OnlyOne(s, t, n) && n in t.namespaces && Adoptee(t.namespaces[n], p, uid) && HasStatus(t.namespaces[n], Creating)
    ensures t.created == s.created && t.pools == s.pools
  {
    hide Step, NsApply, NsVersion, UnderLimit;
    StepEnabled(s, OnNs(Adopt(n, p, uid)));
    WriteExec(s, Adopt(n, p, uid));
  }

  lemma StepEnabled(s: State, a: Action)
    ensures Step(s, a).Some? ==> Enabled(s, a)
  {
    hide Enabled, Apply;
  }

  lemma LastDone(s: State, n: string, p: string, uid: nat, mode: Option<string>, t: State)
    requires Step(s, EquipPlan(n, p, uid, mode)[1]) == Some(t) && n in s.namespaces && Adoptee(s.namespaces[n], p, uid)
    requires HasStatus(s.namespaces[n], Creating)
    ensures OnlyOne(s, t, n) && Equipped(t, n, p, uid, mode) && t.created == s.created && t.pools == s.pools
  {
    hide Step;
    if mode.Some? {
      EnvDone(s, n, p, uid, mode.value, t);
    } else {
      ReadyDone(s, n, p, uid, t);
    }
  }

  /** What adopting makes of a namespace. */
  predicate Adoptee(ns: Namespace, p: string, uid: nat) {
    && !ns.terminating && ns.pool == Some(p) && ns.owners == [Owner(PoolKind, p, uid)]
    && Reserved in ns.annotations && ns.annotations[Reserved] == False
  }

  lemma ReadyDone(s: State, n: string, p: string, uid: nat, t: State)
    requires Step(s, OnNs(Annotate(PoolWorker, n, StatusPatch(Ready)))) == Some(t)
    requires n in s.namespaces && Adoptee(s.namespaces[n], p, uid)
    ensures OnlyOne(s, t, n) && Equipped(t, n, p, uid, None) && t.created == s.created && t.pools == s.pools
  {
    hide Step, AllowedPatch, NsApply;
    var a := Annotate(PoolWorker, n, StatusPatch(Ready));
    StepEnabled(s, OnNs(a));
    WriteExec(s, a);
  }

  lemma EnvDone(s: State, n: string, p: string, uid: nat, web: string, t: State)
    requires Step(s, OnWorld(SetEnv(PoolWorker, n, NewEnv(web)))) == Some(t)
    requires n in s.namespaces && Adoptee(s.namespaces[n], p, uid) && HasStatus(s.namespaces[n], Creating)
    ensures OnlyOne(s, t, n) && Equipped(t, n, p, uid, Some(web)) && t.created == s.created && t.pools == s.pools
  {
  }

  lemma {:induction false} GrowthDone(s: State, p: string, uid: nat, mode: Option<string>, pick: set<string> -> string,
      m: nat, t: State)
    requires Inv(s) && Fresh(pick) && Exec(s, GrowPlan(NewNames(pick, s.created, m), p, uid, mode)) == Some(t)
    ensures Leaves(s, t, p, uid, mode) && t.pools == s.pools
    ensures var names := NewNames(pick, s.created, m);
            && t.created == s.created + (set n | n in names)
            && forall n | n in t.namespaces && n !in s.namespaces :: n in names
    decreases m
  {
    hide Inv, FillPlan, Exec, NewNames, Fresh, Equipped, BeingDeleted;
    if m == 0 {
      PoolLoop.NoNames(pick, s.created);
      NothingExec(s);
    } else {
      var earlier := NewNames(pick, s.created, m - 1);
      var n := pick(s.created + set x | x in earlier);
      PoolLoop.NextName(pick, s.created, m);
      PoolLoop.GrowPlanSnoc(earlier, n, p, uid, mode);
      ExecAppend(s, GrowPlan(earlier, p, uid, mode), FillPlan(n, p, uid, mode));
      var u := Exec(s, GrowPlan(earlier, p, uid, mode)).value;
      GrowthDone(s, p, uid, mode, pick, m - 1, u);
      FillDone(u, n, p, uid, mode, t);
      ExecInv(s, GrowPlan(earlier, p, uid, mode));
      NotThere(u, n);
      OneMoreEquipped(s, u, t, n, p, uid, mode);
    }
  }

  lemma NotThere(s: State, n: string)
    requires Inv(s) && n !in s.created
    ensures n !in s.namespaces
  {
  }

  lemma OneMoreEquipped(s: State, u: State, t: State, n: string, p: string, uid: nat, mode: Option<string>)
    requires Leaves(s, u, p, uid, mode) && OnlyOne(u, t, n) && n !in u.namespaces && Equipped(t, n, p, uid, mode)
    ensures Leaves(s, t, p, uid, mode)
  {
    hide BeingDeleted;
  }

  lemma {:induction false} ShrinkDone(s: State, items: seq<Item>, m: nat, t: State)
    requires Exec(s, ShrinkPlan(items, m)) == Some(t)
    requires items != [] ==> items[0].name in s.namespaces && HasStatus(s.namespaces[items[0].name], Ready)
    ensures t.pools == s.pools
    ensures if items == [] || m == 0 then t.namespaces == s.namespaces
            else
              var n := items[0].name;
              n in t.namespaces && SameBut(s.namespaces, t.namespaces, n) && Demoted(s.namespaces[n], t.namespaces[n])
    decreases m
  {
    hide Exec, Step, ShrinkPlan, Demoted;
    ShrinkPlanSnoc(items, if m == 0 then 0 else m - 1);
    NoShrinking(items, m);
    if items == [] || m == 0 {
      NothingExec(s);
    } else {
      var n := items[0].name;
      ExecAppend(s, ShrinkPlan(items, m - 1), ShrinkPlan(items, 1));
      var u := Exec(s, ShrinkPlan(items, m - 1)).value;
      ShrinkDone(s, items, m - 1, u);
      ExecOne(u, OnNs(Annotate(PoolWorker, n, StatusPatch(Error))));
      ErrorDone(u, n, t);
      DemotedOn(s.namespaces[n], u.namespaces[n], t.namespaces[n]);
    }
  }

  lemma ErrorDone(s: State, n: string, t: State)
    requires Step(s, OnNs(Annotate(PoolWorker, n, StatusPatch(Error)))) == Some(t)
    ensures n in s.namespaces && n in t.namespaces && SameBut(s.namespaces, t.namespaces, n)
    ensures InErrorNow(s.namespaces[n], t.namespaces[n]) && t.pools == s.pools
  {
    hide Step, AllowedPatch, NsApply;
    var a := Annotate(PoolWorker, n, StatusPatch(Error));
    StepEnabled(s, OnNs(a));
    WriteExec(s, a);
  }

  lemma DemotedOn(ns: Namespace, ns': Namespace, ns'': Namespace)
    requires HasStatus(ns, Ready) && (ns' == ns || Demoted(ns, ns')) && InErrorNow(ns', ns'')
    ensures Demoted(ns, ns'')
  {
  }

  /** The surplus goes down by the first ready namespace there is, and by no other. */
  ghost predicate Shrunk(m: map<string, Namespace>, m': map<string, Namespace>, p: string) {
    if NoneFree(m, p) then m' == m
    else exists n :: n in m && n in m' && Free(m[n], p) && Demoted(m[n], m'[n]) && SameBut(m, m', n)
  }

  lemma ShrunkFrom(s: State, items: seq<Item>, m: nat, p: string, t: State)
    requires Exec(s, ShrinkPlan(items, m)) == Some(t) && 0 < m
    requires exists listed :: Lists(s.namespaces, p, listed) && items == ReadyItems(listed)
    ensures Shrunk(s.namespaces, t.namespaces, p) && t.pools == s.pools
  {
    hide Exec, ShrinkPlan, ReadyItems, Lists, Demoted, SameBut, NoneFree;
    ReadyIsFree(s, p, items);
    ShrinkDone(s, items, m, t);
    if items != [] {
      assert items[0].name in s.namespaces && Free(s.namespaces[items[0].name], p);
    }
  }

  lemma ShrunkSpares(m: map<string, Namespace>, m': map<string, Namespace>, p: string)
    requires Shrunk(m, m', p)
    ensures Spares(m, m') && m'.Keys == m.Keys
  {
    hide Demoted, Free, NoneFree;
    if m' != m {
      var n :| n in m && n in m' && Demoted(m[n], m'[n]) && SameBut(m, m', n);
      assert forall x | x != n :: x in m <==> x in m';
    }
  }

  lemma NoShrinking(items: seq<Item>, m: nat)
    ensures items == [] || m == 0 ==> ShrinkPlan(items, m) == []
    ensures items != [] ==> ShrinkPlan(items, 1) == [OnNs(Annotate(PoolWorker, items[0].name, StatusPatch(Error)))]
  {
  }

  // ---------------------------------------------------------- a whole pass

  /** Exactly the pool's namespaces in error are being deleted now, besides those that were; of the others at most one
      has changed, from ready to error; and whatever is new is equipped. */
  ghost predicate PassRight(s: State, t: State, p: string, uid: nat, mode: Option<string>) {
    && (forall n | n in s.namespaces && InStatus(s.namespaces[n], p, uid, Error) ::
          n in t.namespaces && BeingDeleted(t.namespaces[n]))
    && (forall n | n in t.namespaces && t.namespaces[n].terminating ::
          n in s.namespaces && (s.namespaces[n].terminating || InStatus(s.namespaces[n], p, uid, Error)))
    && (forall n | n in s.namespaces && !InStatus(s.namespaces[n], p, uid, Error) ::
          n in t.namespaces && (t.namespaces[n] == s.namespaces[n] || Demoted(s.namespaces[n], t.namespaces[n])))
    && (forall n, x | n in s.namespaces && x in s.namespaces && n in t.namespaces && x in t.namespaces
                      && !InStatus(s.namespaces[n], p, uid, Error) && !InStatus(s.namespaces[x], p, uid, Error)
                      && t.namespaces[n] != s.namespaces[n] && t.namespaces[x] != s.namespaces[x] :: n == x)
    && forall n | n in t.namespaces && n !in s.namespaces :: Equipped(t, n, p, uid, mode)
  }

  lemma PassDone(s: State, u: State, t: State, p: string, uid: nat, mode: Option<string>, errs: seq<string>)
    requires forall n :: n in errs <==> n in s.namespaces && InStatus(s.namespaces[n], p, uid, Error)
    requires Gone(s.namespaces, u.namespaces, errs) && Leaves(u, t, p, uid, mode)
    ensures PassRight(s, t, p, uid, mode)
  {
    hide InStatus;
  }

  lemma LeavesOn(s: State, u: State, t: State, p: string, uid: nat, mode: Option<string>)
    requires Leaves(s, u, p, uid, mode) && t.namespaces == u.namespaces && t.envs == u.envs
    ensures Leaves(s, t, p, uid, mode)
  {
  }

  lemma SparesLeaves(s: State, t: State, p: string, uid: nat, mode: Option<string>)
    requires Spares(s.namespaces, t.namespaces) && t.namespaces.Keys == s.namespaces.Keys
    ensures Leaves(s, t, p, uid, mode)
  {
  }

  lemma PassFrom(s: State, s': State, t: State, p: string, uid: nat, mode: Option<string>)
    requires s'.namespaces == s.namespaces
    ensures PassRight(s', t, p, uid, mode) ==> PassRight(s, t, p, uid, mode)
  {
  }

  /** The status is written, and nothing else. */
  lemma Reported(s: State, p: string, st: PoolStatus)
    ensures PoolEnabled(s, SetPoolStatus(p, st)) ==>
              var t := PoolApply(s, SetPoolStatus(p, st));
              t.namespaces == s.namespaces && t.envs == s.envs && p in t.pools && t.pools[p].status == st
  {
    if PoolEnabled(s, SetPoolStatus(p, st)) {
      PoolAfter(s, SetPoolStatus(p, st));
    }
  }
}
