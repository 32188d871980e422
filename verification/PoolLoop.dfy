/** Where passes of the pool controller take the pool when nothing runs against them and no call fails. */
module PoolLoop {
  import opened Objects
  import opened Protocol
  import opened Invariant
  import opened Execution
  import opened ApiServer
  import opened Namespaces
  import opened ReadyLists
  import opened PoolPlans

  // ------------------------------------------------- one namespace write

  /** How one namespace counts. */
  function PartOf(m: map<string, Namespace>, p: string, uid: nat, n: string): Role {
    if n in m && m[n].pool == Some(p) then RoleOf(m[n], uid) else Other
  }

  function Recount(st: PoolStatus, from: Role, to: Role): PoolStatus {
    PoolStatus(st.ready + (if to == Readied then 1 else 0) - (if from == Readied then 1 else 0),
               st.creating + (if to == BeingCreated then 1 else 0) - (if from == BeingCreated then 1 else 0),
               st.reserved + (if to == Taken then 1 else 0) - (if from == Taken then 1 else 0))
  }

  lemma StatusChange(s: State, t: State, p: string, uid: nat, n: string)
    requires SameBut(s.namespaces, t.namespaces, n)
    ensures StatusOf(t, p, uid) == Recount(StatusOf(s, p, uid), PartOf(s.namespaces, p, uid, n), PartOf(t.namespaces,
            p, uid, n))
  {
    hide RoleOf, Members;
    MembersChange(s.namespaces, t.namespaces, p, uid, Readied, n);
    MembersChange(s.namespaces, t.namespaces, p, uid, BeingCreated, n);
    MembersChange(s.namespaces, t.namespaces, p, uid, Taken, n);
  }

  // ------------------------------------------------------------ deletions

  lemma DeleteOneExec(s: State, n: string, uid: nat)
    requires n in s.namespaces && Idle(s.namespaces[n], uid)
    ensures var t := Exec(s, DeleteOnePlan(n));
            t.Some? && Unmoved(s.namespaces, t.value.namespaces, uid) && t.value.pools == s.pools
                && t.value.created == s.created
  {
    hide Step, Exec, Idle;
    var a, b := Annotate(PoolWorker, n, StatusPatch(Deleting)), DeleteNs(n);
    WriteExec(s, a);
    var s1 := Step(s, OnNs(a)).value;
    WriteExec(s1, b);
    var s2 := Step(s1, OnNs(b)).value;
    ExecTwo(s, OnNs(a), OnNs(b));
    IdleDeleted(s.namespaces[n], s2.namespaces[n], uid);
    UnmovedBut(s, s2, n, uid);
  }

  lemma UnmovedBut(s: State, t: State, n: string, uid: nat)
    requires SameBut(s.namespaces, t.namespaces, n) && n in s.namespaces && n in t.namespaces
    requires t.namespaces[n].pool == s.namespaces[n].pool && Idle(s.namespaces[n], uid) && Idle(t.namespaces[n], uid)
    ensures Unmoved(s.namespaces, t.namespaces, uid)
  {
    hide Idle;
  }

  lemma IdleDeleted(ns: Namespace, ns': Namespace, uid: nat)
    requires Idle(ns, uid)
    requires ns' == Annotated(ns, StatusPatch(Deleting)).(version := ns'.version, terminating := ns'.terminating)
    ensures Idle(ns', uid) && ns'.pool == ns.pool
  {
  }

  lemma {:induction false} DeletionsExec(s: State, names: seq<string>, uid: nat)
    requires forall n | n in names :: n in s.namespaces && Idle(s.namespaces[n], uid)
    ensures var t := Exec(s, DeletionPlan(names));
            t.Some? && Unmoved(s.namespaces, t.value.namespaces, uid) && t.value.pools == s.pools
                && t.value.created == s.created
    decreases |names|
  {
    hide Exec, Idle, DeleteOnePlan;
    if names == [] {
      NothingExec(s);
    } else {
      var init, n := names[..|names| - 1], names[|names| - 1];
      DeletionsExec(s, init, uid);
      var t := Exec(s, DeletionPlan(init)).value;
      DeleteOneExec(t, n, uid);
      ExecAppend(s, DeletionPlan(init), DeleteOnePlan(n));
    }
  }

  lemma ErrorNamesIdle(s: State, p: string, uid: nat, order: seq<string>)
    ensures forall n | n in ErrorNames(Listing(s.namespaces, p, order), uid) ::
              n in s.namespaces && Idle(s.namespaces[n], uid)
  {
    hide RoleOf, Idle, Listing;
    forall n | n in ErrorNames(Listing(s.namespaces, p, order), uid) ensures n in s.namespaces
        && Idle(s.namespaces[n], uid) {
      ErrorNameIdle(s, p, uid, order, n);
    }
  }

  lemma ErrorNameIdle(s: State, p: string, uid: nat, order: seq<string>, n: string)
    requires n in ErrorNames(Listing(s.namespaces, p, order), uid)
    ensures n in s.namespaces && Idle(s.namespaces[n], uid)
  {
    hide RoleOf, Idle;
    var items := Listing(s.namespaces, p, order);
    ErrorNamesMembers(items, uid);
    ListingPointwise(s.namespaces, s.namespaces, p, order);
    var i :| 0 <= i < |items| && items[i].name == n && RoleOf(items[i].ns, uid) == Faulty;
    assert items[i] == Item(n, s.namespaces[n]);
    FaultyIdle(items[i].ns, uid);
  }

  lemma FaultyIdle(ns: Namespace, uid: nat)
    requires RoleOf(ns, uid) == Faulty
    ensures Idle(ns, uid)
  {
  }

  // --------------------------------------------------------------- growth

  lemma FillExec(s: State, n: string, p: string, uid: nat, mode: Option<string>)
    requires Inv(s) && n !in s.created && n != "" && p in s.pools && s.pools[p].uid == uid
    requires s.pools[p].spec.sizeLimit.Some? ==> Total(s, p) < s.pools[p].spec.sizeLimit.value
    ensures var t := Exec(s, FillPlan(n, p, uid, mode));
            && t.Some? && Inv(t.value) && t.value.pools == s.pools && t.value.created == s.created + {n}
            && var st, st' := StatusOf(s, p, uid), StatusOf(t.value, p, uid);
               st'.ready + st'.creating == st.ready + st.creating + 1 && st'.reserved == st.reserved
  {
    hide Step, Exec, Inv, StatusOf, NsEnabled, UnderLimit;
    var a, b := CreateNs(n), Adopt(n, p, uid);
    FreshNamespace(s, n);
    WriteExec(s, a);
    var s1 := Step(s, OnNs(a)).value;
    StatusChange(s, s1, p, uid, n);
    AdoptionAllowed(s, s1, n, p, uid);
    WriteExec(s1, b);
    var s2 := Step(s1, OnNs(b)).value;
    StatusChange(s1, s2, p, uid, n);
    ReadyOrEnv(s2, n, p, uid, mode);
    ExecOne(s, OnNs(a));
    ExecTwo(s1, OnNs(b), EquipPlan(n, p, uid, mode)[1]);
    ExecAppend(s, [OnNs(a)], EquipPlan(n, p, uid, mode));
    ExecInv(s, FillPlan(n, p, uid, mode));
  }

  lemma FreshNamespace(s: State, n: string)
    requires Inv(s) && n !in s.created && n != ""
    ensures n !in s.namespaces && n !in s.ledger && NsEnabled(s, CreateNs(n))
  {
  }

  /** The new namespace is not counted yet, so there is still room for it. */
  lemma AdoptionAllowed(s: State, s1: State, n: string, p: string, uid: nat)
    requires n !in s.namespaces && n !in s.ledger && p in s.pools && s.pools[p].uid == uid && s1.pools == s.pools
    requires SameBut(s.namespaces, s1.namespaces, n) && n in s1.namespaces && s1.namespaces[n].pool == None
    requires s1.ledger == s.ledger
    requires s.pools[p].spec.sizeLimit.Some? ==> Total(s, p) < s.pools[p].spec.sizeLimit.value
    ensures NsEnabled(s1, Adopt(n, p, uid))
  {
    hide Total, RoleOf;
    TotalIsSum(s, p);
    TotalIsSum(s1, p);
    StatusChange(s, s1, p, uid, n);
  }

  /** Either way the namespace goes on counting. */
  lemma ReadyOrEnv(s: State, n: string, p: string, uid: nat, mode: Option<string>)
    requires n in s.namespaces && n in s.created && s.namespaces[n].pool == Some(p)
    requires s.namespaces[n].owners == [Owner(PoolKind, p, uid)] && HasStatus(s.namespaces[n], Creating)
    ensures var t := Step(s, EquipPlan(n, p, uid, mode)[1]);
            && t.Some? && t.value.pools == s.pools && t.value.created == s.created
            && var st, st' := StatusOf(s, p, uid), StatusOf(t.value, p, uid);
               st'.ready + st'.creating == st.ready + st.creating && st'.reserved == st.reserved
  {
    hide StatusOf;
    match mode
    case None =>
      hide Step;
      var a := Annotate(PoolWorker, n, StatusPatch(Ready));
      WriteExec(s, a);
      StatusChange(s, Step(s, OnNs(a)).value, p, uid, n);
    case Some(web) =>
      var a := SetEnv(PoolWorker, n, NewEnv(web));
      WorldAfter(s, a);
      SameStatus(s, WorldApply(s, a), p, uid);
  }

  lemma SameStatus(s: State, t: State, p: string, uid: nat)
    requires t.namespaces == s.namespaces
    ensures StatusOf(t, p, uid) == StatusOf(s, p, uid)
  {
  }

  lemma {:induction false} GrowExec(s: State, p: string, uid: nat, mode: Option<string>, pick: set<string> -> string, m: nat)
    requires Inv(s) && Fresh(pick) && p in s.pools && s.pools[p].uid == uid
    requires s.pools[p].spec.sizeLimit.Some? ==> Total(s, p) + m <= s.pools[p].spec.sizeLimit.value
    ensures var names := NewNames(pick, s.created, m); var t := Exec(s, GrowPlan(names, p, uid, mode));
            && t.Some? && Inv(t.value) && t.value.pools == s.pools && t.value.created == s.created + (set n | n in names)
            && var st, st' := StatusOf(s, p, uid), StatusOf(t.value, p, uid);
               st'.ready + st'.creating == st.ready + st.creating + m && st'.reserved == st.reserved
  {
    hide Inv, StatusOf, Total, FillPlan, Exec, NewNames, Fresh;
    if m == 0 {
      assert NewNames(pick, s.created, 0) == [] by { NoNames(pick, s.created); }
      NothingExec(s);
    } else {
      GrowExec(s, p, uid, mode, pick, m - 1);
      var earlier := NewNames(pick, s.created, m - 1);
      var t := Exec(s, GrowPlan(earlier, p, uid, mode)).value;
      var n := pick(s.created + set x | x in earlier);
      NextName(pick, s.created, m);
      TotalIsSum(s, p);
      TotalIsSum(t, p);
      FillExec(t, n, p, uid, mode);
      GrowPlanSnoc(earlier, n, p, uid, mode);
      ExecAppend(s, GrowPlan(earlier, p, uid, mode), FillPlan(n, p, uid, mode));
    }
  }

  lemma NoNames(pick: set<string> -> string, used: set<string>)
    ensures NewNames(pick, used, 0) == []
  {
  }

  lemma NextName(pick: set<string> -> string, used: set<string>, m: nat)
    requires Fresh(pick) && m > 0
    ensures var earlier := NewNames(pick, used, m - 1); var n := pick(used + set x | x in earlier);
            && NewNames(pick, used, m) == earlier + [n] && n != "" && n !in used + (set x | x in earlier)
            && used + (set x | x in earlier + [n]) == used + (set x | x in earlier) + {n}
  {
  }

  lemma GrowPlanSnoc(earlier: seq<string>, n: string, p: string, uid: nat, mode: Option<string>)
    ensures GrowPlan(earlier + [n], p, uid, mode) == GrowPlan(earlier, p, uid, mode) + FillPlan(n, p, uid, mode)
  {
    hide FillPlan;
    assert (earlier + [n])[..|earlier|] == earlier;
  }

  // ------------------------------------------------------------ shrinking

  /** Marking once or many times is the same. */
  lemma {:induction false} MarkExec(s: State, n: string, m: nat)
    requires n in s.namespaces && m > 0
    ensures var t := Exec(s, seq(m, _ => OnNs(Annotate(PoolWorker, n, StatusPatch(Error)))));
            && t.Some? && SameBut(s.namespaces, t.value.namespaces, n) && t.value.pools == s.pools
            && n in t.value.namespaces
            && t.value.namespaces[n] == Annotated(s.namespaces[n],
                StatusPatch(Error)).(version := t.value.namespaces[n].version)
  {
    hide Exec, Step;
    var a := Annotate(PoolWorker, n, StatusPatch(Error));
    var steps := seq(m, _ => OnNs(a));
    if m == 1 {
      assert steps == [OnNs(a)];
      ExecOne(s, OnNs(a));
      WriteExec(s, a);
    } else {
      MarkExec(s, n, m - 1);
      var earlier := seq(m - 1, _ => OnNs(a));
      assert steps == earlier + [OnNs(a)];
      ExecSnoc(s, earlier, OnNs(a));
      WriteExec(Exec(s, earlier).value, a);
    }
  }

  function IfOwn(x: Item, uid: nat): int {
    if RoleOf(x.ns, uid) == Readied then 1 else 0
  }

  /** Marking the first ready namespace takes it off the ready list, and off the count if it is of this pool object. */
  lemma ShrinkExec(s: State, p: string, uid: nat, order: seq<string>, m: nat)
    requires Inv(s) && Covers(order, s.namespaces) && m > 0 && ReadyOf(s, p, order) != []
    ensures var r := ReadyOf(s, p, order); var t := Exec(s, ShrinkPlan(r, m));
            && t.Some? && t.value.pools == s.pools && t.value.namespaces.Keys == s.namespaces.Keys
            && ReadyOf(t.value, p, order) == r[1..]
            && StatusOf(t.value, p, uid) == StatusOf(s, p, uid).(ready := StatusOf(s, p, uid).ready - IfOwn(r[0], uid))
  {
    hide Inv, Exec, StatusOf, RoleOf, ReadyOf, IsReady, Covers;
    var r := ReadyOf(s, p, order);
    FirstOfReady(s, p, order);
    var n := r[0].name;
    MarkExec(s, n, m);
    var t := Exec(s, ShrinkPlan(r, m)).value;
    StatusChange(s, t, p, uid, n);
    MarkedRole(s.namespaces[n], t.namespaces[n], uid);
    HeadMarked(s, t, p, order);
  }

  lemma MarkedRole(ns: Namespace, ns': Namespace, uid: nat)
    requires IsReady(ns) && ns' == Annotated(ns, StatusPatch(Error)).(version := ns'.version)
    ensures RoleOf(ns, uid) in {Readied, Other} && RoleOf(ns', uid) in {Faulty, Other} && !IsReady(ns')
  {
  }

  // ------------------------------------------------------------- the pass

  lemma ReportExec(s: State, p: string, status: PoolStatus)
    requires p in s.pools
    ensures var t := Step(s, OnPool(SetPoolStatus(p, status)));
            && t.Some? && t.value.namespaces == s.namespaces && p in t.value.pools
            && t.value.pools[p].spec == s.pools[p].spec && t.value.pools[p].uid == s.pools[p].uid
  {
    PoolAfter(s, SetPoolStatus(p, status));
  }

  /** The state after the middle part of a pass: grown to the mark, or the first ready namespace marked. */
  lemma AdjustExec(s: State, p: string, order: seq<string>, pick: set<string> -> string)
    requires Inv(s) && p in s.pools && Covers(order, s.namespaces) && Fresh(pick)
    ensures var t := Exec(s, AdjustPlan(s, p, order, pick));
            && t.Some? && t.value.pools == s.pools
            && var d, d' := DeltaOf(s, p), DeltaOf(t.value, p); var r, r' := ReadyOf(s, p, order), ReadyOf(t.value, p,
                order);
               && (d >= 0 ==> d' == 0)
               && (d < 0 ==> t.value.namespaces.Keys == s.namespaces.Keys)
               && (d < 0 && r == [] ==> d' == d && r' == [])
               && (d < 0 && r != [] ==> d' == d + IfOwn(r[0], s.pools[p].uid) && r' == r[1..])
               && (d == 0 ==> t.value == s)
  {
    hide Inv, Exec, StatusOf, RoleOf, ReadyOf, Covers, IfOwn, NewNames, GrowPlan;
    var pool := s.pools[p];
    var d := DeltaOf(s, p);
    NothingExec(s);
    if d > 0 {
      TotalIsSum(s, p);
      GrowExec(s, p, pool.uid, pool.spec.clowder, pick, d);
    } else if d < 0 && ReadyOf(s, p, order) != [] {
      ShrinkExec(s, p, pool.uid, order, -d);
    }
  }

  /** One pass closes a shortage entirely, and a surplus by at most one namespace: it marks the first ready one,
      which counts if it belongs to this pool object. The sign of the difference never flips. */
  lemma PassMovesDelta(s: State, p: string, order: seq<string>, pick: set<string> -> string)
    requires Inv(s) && p in s.pools && Covers(order, s.namespaces) && Fresh(pick)
    ensures var t := Exec(s, PoolPlan(s, p, order, pick));
            && t.Some? && Inv(t.value) && p in t.value.pools
            && t.value.pools[p].spec == s.pools[p].spec && t.value.pools[p].uid == s.pools[p].uid
            && var d, d' := DeltaOf(s, p), DeltaOf(t.value, p); var r, r' := ReadyOf(s, p, order), ReadyOf(t.value, p,
                order);
               && (d >= 0 ==> d' == 0)
               && (d <= 0 ==> Covers(order, t.value.namespaces))
               && (d < 0 && r == [] ==> d' == d && r' == [])
               && (d < 0 && r != [] ==> d' == d + IfOwn(r[0], s.pools[p].uid) && r' == r[1..])
               && (d == 0 ==> r' == r)
  {
    hide Inv, Exec, StatusOf, RoleOf, AdjustPlan, ReadyOf, IfOwn, DeletionPlan, Step, Unmoved;
    var count := OnPool(CountPool(p));
    CountExec(s, p, order, pick);
    var s0 := Step(s, count).value;
    var names := ErrorNames(Listing(s.namespaces, p, order), s.pools[p].uid);
    CountedPass(s0, p, order, pick, StatusOf(s, p, s.pools[p].uid));
    var rest := CountedPlan(s, p, order, pick);
    ExecOne(s, count);
    ExecAppend(s, [count], rest);
    assert PoolPlan(s, p, order, pick) == [count] + rest;
    ExecInv(s, PoolPlan(s, p, order, pick));
  }

  /** Counting changes nothing the pass looks at. */
  lemma CountExec(s: State, p: string, order: seq<string>, pick: set<string> -> string)
    requires Inv(s) && p in s.pools
    ensures var t := Step(s, OnPool(CountPool(p)));
            && t.Some? && Inv(t.value) && t.value.namespaces == s.namespaces && t.value.pools == s.pools
            && t.value.created == s.created
            && StatusOf(t.value, p, s.pools[p].uid) == StatusOf(s, p, s.pools[p].uid)
            && ReadyOf(t.value, p, order) == ReadyOf(s, p, order)
            && AdjustPlan(t.value, p, order, pick) == AdjustPlan(s, p, order, pick) && DeltaOf(t.value, p) == DeltaOf(s, p)
  {
    hide Inv, StatusOf, ReadyOf, AdjustPlan, PoolApply;
    var a := CountPool(p);
    PoolAfter(s, a);
    StepKeepsInv(s, OnPool(a));
    SameStatus(s, PoolApply(s, a), p, s.pools[p].uid);
    SameListing(s, PoolApply(s, a), p, order);
    SamePlan(s, PoolApply(s, a), p, order, pick);
  }

  /** The pass after the count. */
  lemma CountedPass(s: State, p: string, order: seq<string>, pick: set<string> -> string, st: PoolStatus)
    requires Inv(s) && p in s.pools && Covers(order, s.namespaces) && Fresh(pick)
    ensures var t := Exec(s, DeletionPlan(ErrorNames(Listing(s.namespaces, p, order), s.pools[p].uid))
                             + AdjustPlan(s, p, order, pick) + [OnPool(SetPoolStatus(p, st))]);
            && t.Some? && p in t.value.pools
            && t.value.pools[p].spec == s.pools[p].spec && t.value.pools[p].uid == s.pools[p].uid
            && var d, d' := DeltaOf(s, p), DeltaOf(t.value, p); var r, r' := ReadyOf(s, p, order), ReadyOf(t.value, p, order);
               && (d >= 0 ==> d' == 0)
               && (d <= 0 ==> Covers(order, t.value.namespaces))
               && (d < 0 && r == [] ==> d' == d && r' == [])
               && (d < 0 && r != [] ==> d' == d + IfOwn(r[0], s.pools[p].uid) && r' == r[1..])
               && (d == 0 ==> r' == r)
  {
    hide Inv, Exec, StatusOf, RoleOf, AdjustPlan, ReadyOf, IfOwn, DeletionPlan, Step, Unmoved;
    var uid := s.pools[p].uid;
    var names := ErrorNames(Listing(s.namespaces, p, order), uid);
    ErrorNamesIdle(s, p, uid, order);
    DeletionsExec(s, names, uid);
    var s1 := Exec(s, DeletionPlan(names)).value;
    ExecInv(s, DeletionPlan(names));
    UnmovedKeeps(s, s1, p, uid, order);
    UnmovedKeys(s, s1, uid);
    SamePlan(s, s1, p, order, pick);
    AdjustExec(s1, p, order, pick);
    var s2 := Exec(s1, AdjustPlan(s1, p, order, pick)).value;
    ReportExec(s2, p, st);
    var report := OnPool(SetPoolStatus(p, st));
    var t := Step(s2, report).value;
    SameStatus(s2, t, p, uid);
    SameListing(s2, t, p, order);
    ExecAppend(s, DeletionPlan(names), AdjustPlan(s, p, order, pick));
    ExecSnoc(s, DeletionPlan(names) + AdjustPlan(s, p, order, pick), report);
  }

  lemma SameListing(s: State, t: State, p: string, order: seq<string>)
    requires t.namespaces == s.namespaces
    ensures ReadyOf(t, p, order) == ReadyOf(s, p, order)
  {
  }

  lemma UnmovedKeys(s: State, t: State, uid: nat)
    requires Unmoved(s.namespaces, t.namespaces, uid)
    ensures t.namespaces.Keys == s.namespaces.Keys
  {
  }

  lemma SamePlan(s: State, t: State, p: string, order: seq<string>, pick: set<string> -> string)
    requires p in s.pools && t.pools == s.pools && t.created == s.created
    requires StatusOf(t, p, s.pools[p].uid) == StatusOf(s, p, s.pools[p].uid)
    requires ReadyOf(t, p, order) == ReadyOf(s, p, order)
    ensures AdjustPlan(t, p, order, pick) == AdjustPlan(s, p, order, pick)
    ensures DeltaOf(t, p) == DeltaOf(s, p)
  {
    hide StatusOf, ReadyOf, GrowPlan, NewNames, ShrinkPlan;
  }

  // ------------------------------------------------------------- the loop

  /** The state after `m` passes. */
  function Passes(s: State, p: string, order: seq<string>, pick: set<string> -> string, m: nat): Option<State> {
    if m == 0 then Some(s)
    else
      match Passes(s, p, order, pick, m - 1)
      case None => None
      case Some(t) => Exec(t, PoolPlan(t, p, order, pick))
  }

  /** How many of these belong to this pool object. */
  function Own(items: seq<Item>, uid: nat): nat {
    if items == [] then 0 else Own(items[..|items| - 1], uid) + IfOwn(items[|items| - 1], uid)
  }

  function Min(a: int, b: int): int {
    if a < b then a else b
  }

  /** A surplus goes down by exactly one with every pass that finds a ready namespace of this pool first, until it
      is gone or no ready namespace is left; that takes no more passes than there are ready namespaces. */
  lemma {:induction false} SurplusShrinks(s: State, p: string, order: seq<string>, pick: set<string> -> string, m: nat)
    requires Inv(s) && p in s.pools && Covers(order, s.namespaces) && Fresh(pick) && DeltaOf(s, p) <= 0
    ensures var t := Passes(s, p, order, pick, m); var r := ReadyOf(s, p, order); var k := Min(m, |r|);
            && t.Some? && Inv(t.value) && p in t.value.pools && t.value.pools[p].uid == s.pools[p].uid
            && Covers(order, t.value.namespaces)
            && DeltaOf(t.value, p) == Min(0, DeltaOf(s, p) + Own(r[..k], s.pools[p].uid))
            && (DeltaOf(t.value, p) < 0 ==> ReadyOf(t.value, p, order) == r[k..])
  {
    hide Inv, Exec, DeltaOf, RoleOf, ReadyOf, Covers, PoolPlan, IfOwn, Fresh;
    var r := ReadyOf(s, p, order);
    if m == 0 {
      assert r[0..] == r;
    } else {
      SurplusShrinks(s, p, order, pick, m - 1);
      var t := Passes(s, p, order, pick, m - 1).value;
      PassMovesDelta(t, p, order, pick);
      if m <= |r| {
        assert r[..m][..m - 1] == r[..m - 1];
        assert r[m - 1..][1..] == r[m..];
        OwnBounds(r[m - 1], s.pools[p].uid);
      }
    }
  }

  lemma OwnBounds(x: Item, uid: nat)
    ensures 0 <= IfOwn(x, uid) <= 1
  {
  }

  /** Enough passes close any gap: a shortage at once, a surplus as far as there are ready namespaces to mark. */
  lemma PoolConverges(s: State, p: string, order: seq<string>, pick: set<string> -> string)
    requires Inv(s) && p in s.pools && Covers(order, s.namespaces) && Fresh(pick)
    ensures var t := Passes(s, p, order, pick, if DeltaOf(s, p) > 0 then 1 else |ReadyOf(s, p, order)|);
            t.Some? && p in t.value.pools && (DeltaOf(t.value, p) == 0 || ReadyOf(t.value, p, order) == [])
  {
    hide Inv, Exec, StatusOf, RoleOf, ReadyOf, Covers, PoolPlan, Fresh, Own;
    if DeltaOf(s, p) > 0 {
      assert Passes(s, p, order, pick, 0) == Some(s);
      PassMovesDelta(s, p, order, pick);
    } else {
      SurplusShrinks(s, p, order, pick, |ReadyOf(s, p, order)|);
    }
  }
}
