/** Runs from an empty cluster in which a pool exceeds its size limit, one for each way there is: "ready" over a status that
    does not count, a claim of a namespace that does not count, and an adoption after a revival. */
module LimitWitnesses {
  import opened Objects
  import opened Protocol
  import opened Invariant
  import opened Execution
  import opened ApiServer
  import opened Namespaces
  import opened ReadyLists
  import opened PoolPlans

  /** One namespace is wanted, and one is the limit. */
  const ONE := PoolSpec(1, Some(1), Some("operator"), 0)

  /** A namespace of the pool object `uid`, with this status. */
  predicate Has(s: State, n: string, uid: nat, v: Value) {
    && n in s.namespaces && s.namespaces[n].pool == Some("p") && s.namespaces[n].owners == [Owner(PoolKind, "p", uid)]
    && HasStatus(s.namespaces[n], v)
  }

  predicate PoolIs(s: State, uid: nat) {
    "p" in s.pools && s.pools["p"].uid == uid && s.pools["p"].spec == ONE
  }

  // --------------------------------------------------------------- segments

  function Fill(n: string, uid: nat): seq<Action> {
    [OnNs(CreateNs(n)), OnNs(Adopt(n, "p", uid))]
  }

  lemma Filled(s: State, n: string, uid: nat)
    requires PoolIs(s, uid) && n !in s.created && n !in s.ledger && n !in s.namespaces && n != ""
    requires forall m | m in s.namespaces :: !Counted(s, "p", m)
    ensures var t := Exec(s, Fill(n, uid));
            && t.Some? && Has(t.value, n, uid, Creating) && SameBut(s.namespaces, t.value.namespaces, n)
            && t.value.pools == s.pools && t.value.created == s.created + {n}
            && t.value.ledger == s.ledger[n := Owner(PoolKind, "p", uid)] && t.value.nextUid == s.nextUid
            && t.value.reservations == s.reservations && t.value.resNames == s.resNames
            && t.value.named == s.named && t.value.filed == s.filed
  {
    hide Exec, Step, NsApply, NsEnabled;
    var a, b := CreateNs(n), Adopt(n, "p", uid);
    assert NsEnabled(s, a) by { CanCreate(s, n); }
    WriteExec(s, a);
    var s1 := Step(s, OnNs(a)).value;
    CanAdopt(s1, n, uid);
    WriteExec(s1, b);
    ExecTwo(s, OnNs(a), OnNs(b));
  }

  lemma CanCreate(s: State, n: string)
    requires n !in s.created && n != ""
    ensures NsEnabled(s, CreateNs(n))
  {
  }

  lemma CanAdopt(s: State, n: string, uid: nat)
    requires PoolIs(s, uid) && n in s.namespaces && n !in s.ledger && forall m | m in s.namespaces :: !Counted(s, "p", m)
    ensures NsEnabled(s, Adopt(n, "p", uid))
  {
    NoneCounted(s);
  }

  lemma NoneCounted(s: State)
    requires forall m | m in s.namespaces :: !Counted(s, "p", m)
    ensures Total(s, "p") == 0
  {
    assert CountedSet(s, "p") == {};
  }

  lemma Marked(s: State, n: string, uid: nat, who: Actor, v: Value)
    requires n in s.namespaces && AllowedPatch(who, StatusPatch(v))
    requires s.namespaces[n].pool == Some("p") && s.namespaces[n].owners == [Owner(PoolKind, "p", uid)]
    ensures var t := Exec(s, [OnNs(Annotate(who, n, StatusPatch(v)))]);
            && t.Some? && Has(t.value, n, uid, v) && SameBut(s.namespaces, t.value.namespaces, n)
            && t.value.pools == s.pools && t.value.created == s.created && t.value.ledger == s.ledger
            && t.value.nextUid == s.nextUid && t.value.reservations == s.reservations && t.value.resNames == s.resNames
           
            && t.value.named == s.named && t.value.filed == s.filed
  {
    hide Exec, Step, NsApply, NewNs, NsEnabled, AllowedPatch;
    var a := Annotate(who, n, StatusPatch(v));
    CanMark(s, a);
    WriteExec(s, a);
    ExecOne(s, OnNs(a));
  }

  lemma CanMark(s: State, a: NsAction)
    requires a.Annotate? && a.n in s.namespaces && AllowedPatch(a.who, a.patch)
    ensures NsEnabled(s, a) && NewNs(s, a) == Annotated(s.namespaces[a.n], a.patch) && NewLedger(s, a) == s.ledger
  {
    hide AllowedPatch;
  }

  lemma PoolStep(s: State, a: PoolAction)
    requires PoolEnabled(s, a)
    ensures var t := Exec(s, [OnPool(a)]);
            && t.Some? && t.value.pools == NewPools(s, a) && t.value.namespaces == s.namespaces
            && t.value.created == s.created && t.value.ledger == s.ledger
            && t.value.nextUid == (if a.CreatePool? then s.nextUid + 1 else s.nextUid)
            && t.value.reservations == s.reservations && t.value.resNames == s.resNames
            && t.value.named == s.named && t.value.filed == s.filed
  {
    hide Exec, PoolApply, NewPools;
    PoolAfter(s, a);
    ExecOne(s, OnPool(a));
  }

  /** Two namespaces count where one is allowed. */
  lemma TwoCounted(s: State, uid: nat)
    requires PoolIs(s, uid) && s.namespaces.Keys == {"a", "b"} && Counted(s, "p", "a") && Counted(s, "p", "b")
    ensures Total(s, "p") == 2 > s.pools["p"].spec.sizeLimit.value
  {
    assert CountedSet(s, "p") == {"a", "b"};
  }

  // -------------------------------------------------- "ready" over "deleting"

  /** A namespace in error is replaced; then a second pass over its environment finds it ready. */
  function Replaced(): seq<Action> {
    UpToDeletion() + Fill("b", 0) + [OnNs(Annotate(EnvWorker, "a", StatusPatch(Ready)))]
  }

  function UpToDeletion(): seq<Action> {
    [OnPool(CreatePool("p", ONE))] + Fill("a", 0) + [OnNs(Annotate(EnvWorker, "a", StatusPatch(Error)))]
    + [OnPool(CountPool("p"))] + [OnNs(Annotate(PoolWorker, "a", StatusPatch(Deleting)))]
  }

  lemma LimitExceededByReadyWrite()
    ensures var t := Exec(EMPTY_CLUSTER, Replaced());
            t.Some? && PoolIs(t.value, 0) && Total(t.value, "p") == 2 > ONE.sizeLimit.value
  {
    hide Exec, Step, NsApply, PoolApply, Total, Counted;
    var s5 := FaultDeleted();
    NotCountedDeleting(s5, "a", 0);
    Filled(s5, "b", 0);
    var s6 := Exec(s5, Fill("b", 0)).value;
    Marked(s6, "a", 0, EnvWorker, Ready);
    var last := [OnNs(Annotate(EnvWorker, "a", StatusPatch(Ready)))];
    var s7 := Exec(s6, last).value;
    assert s7.namespaces.Keys == {"a", "b"};
    CountedIf(s7, "a", 0, Ready);
    CountedIf(s7, "b", 0, Creating);
    TwoCounted(s7, 0);
    ExecAppend(EMPTY_CLUSTER, UpToDeletion(), Fill("b", 0));
    ExecAppend(EMPTY_CLUSTER, UpToDeletion() + Fill("b", 0), last);
  }

  lemma CountedIf(s: State, n: string, uid: nat, v: Value)
    requires PoolIs(s, uid) && Has(s, n, uid, v) && v in {Ready, Creating}
    ensures Counted(s, "p", n)
  {
  }

  lemma NotCountedDeleting(s: State, n: string, uid: nat)
    requires Has(s, n, uid, Deleting)
    ensures !Counted(s, "p", n)
  {
  }

  /** The state once the namespace in error is being deleted. */
  lemma FaultDeleted() returns (t: State)
    ensures Exec(EMPTY_CLUSTER, UpToDeletion()) == Some(t)
    ensures PoolIs(t, 0) && Has(t, "a", 0, Deleting)
    ensures t.namespaces.Keys == {"a"} && t.created == {"a"} && t.ledger.Keys == {"a"}
  {
    hide Exec, Step, NsApply, PoolApply, Total;
    var s0 := EMPTY_CLUSTER;
    var p1 := [OnPool(CreatePool("p", ONE))];
    PoolStep(s0, CreatePool("p", ONE));
    var s1 := Exec(s0, p1).value;
    Filled(s1, "a", 0);
    var s2 := Exec(s1, Fill("a", 0)).value;
    Marked(s2, "a", 0, EnvWorker, Error);
    var fault := [OnNs(Annotate(EnvWorker, "a", StatusPatch(Error)))];
    var s3 := Exec(s2, fault).value;
    PoolStep(s3, CountPool("p"));
    var s4 := Exec(s3, [OnPool(CountPool("p"))]).value;
    Marked(s4, "a", 0, PoolWorker, Deleting);
    var deletion := [OnNs(Annotate(PoolWorker, "a", StatusPatch(Deleting)))];
    t := Exec(s4, deletion).value;
    ExecAppend(s0, p1, Fill("a", 0));
    ExecAppend(s0, p1 + Fill("a", 0), fault);
    ExecAppend(s0, p1 + Fill("a", 0) + fault, [OnPool(CountPool("p"))]);
    ExecAppend(s0, p1 + Fill("a", 0) + fault + [OnPool(CountPool("p"))], deletion);
  }

  // ------------------------------------------- adopting after a revival

  /** As before, but "ready" is written before the pass that counted goes on to create. */
  function UpToRevival(): seq<Action> {
    UpToDeletion() + [OnNs(Annotate(EnvWorker, "a", StatusPatch(Ready)))] + [OnNs(CreateNs("b"))]
  }

  /** The pool is full when its controller adopts one more, because what revived since the count is not held against
      it. */
  lemma LimitExceededByAdoption()
    ensures var s := Exec(EMPTY_CLUSTER, UpToRevival());
            var t := Exec(EMPTY_CLUSTER, UpToRevival() + [OnNs(Adopt("b", "p", 0))]);
            && s.Some? && PoolIs(s.value, 0) && Total(s.value, "p") == ONE.sizeLimit.value && Revived(s.value, "p") > 0
            && t.Some? && PoolIs(t.value, 0) && Total(t.value, "p") == 2 > ONE.sizeLimit.value
  {
    hide Exec, Step, NsApply, Total, Revived, Counted, UpToDeletion;
    var ready, b := [OnNs(Annotate(EnvWorker, "a", StatusPatch(Ready)))], [OnNs(CreateNs("b"))];
    var s5 := FaultDeleted();
    EmptyClusterInv();
    ExecInv(EMPTY_CLUSTER, UpToDeletion());
    InvOwnership(s5);
    var s6 := ReadyRevives(s5);
    ExecAppend(EMPTY_CLUSTER, UpToDeletion(), ready);
    var s7 := OneMoreUnlabelled(s6);
    ExecAppend(EMPTY_CLUSTER, UpToDeletion() + ready, b);
    FullButRevived(s7);
    AdoptsOver(s7);
    ExecAppend(EMPTY_CLUSTER, UpToRevival(), [OnNs(Adopt("b", "p", 0))]);
  }

  lemma InvOwnership(s: State)
    requires Inv(s)
    ensures OwnershipInv(s)
  {
  }

  lemma AdoptsOver(s: State)
    requires PoolIs(s, 0) && Has(s, "a", 0, Ready) && s.namespaces.Keys == {"a", "b"}
    requires NsEnabled(s, Adopt("b", "p", 0))
    ensures var t := Exec(s, [OnNs(Adopt("b", "p", 0))]);
            t.Some? && PoolIs(t.value, 0) && Total(t.value, "p") == 2
  {
    hide Exec, Step, NsApply, Total, Counted;
    var a := Adopt("b", "p", 0);
    WriteExec(s, a);
    ExecOne(s, OnNs(a));
    var t := Step(s, OnNs(a)).value;
    assert t.namespaces.Keys == {"a", "b"};
    CountedIf(t, "a", 0, Ready);
    CountedIf(t, "b", 0, Creating);
    TwoCounted(t, 0);
  }

  lemma ReadyRevives(s: State) returns (t: State)
    requires OwnershipInv(s) && PoolIs(s, 0) && Has(s, "a", 0, Deleting)
    ensures Exec(s, [OnNs(Annotate(EnvWorker, "a", StatusPatch(Ready)))]) == Some(t)
    ensures PoolIs(t, 0) && Has(t, "a", 0, Ready) && Revived(t, "p") > 0 && SameBut(s.namespaces, t.namespaces, "a")
    ensures t.created == s.created && t.ledger == s.ledger
  {
    hide Exec, NsApply, Counted, Charged;
    var a := Annotate(EnvWorker, "a", StatusPatch(Ready));
    Marked(s, "a", 0, EnvWorker, Ready);
    CanMark(s, a);
    NotCountedDeleting(s, "a", 0);
    t := NsApply(s, a);
    ExecOne(s, OnNs(a));
    CountedIf(t, "a", 0, Ready);
    NewlyCounted(s, a, "p");
  }

  lemma OneMoreUnlabelled(s: State) returns (t: State)
    requires PoolIs(s, 0) && Has(s, "a", 0, Ready) && Revived(s, "p") > 0
    requires s.namespaces.Keys == {"a"} && "b" !in s.created && "b" !in s.ledger
    ensures Exec(s, [OnNs(CreateNs("b"))]) == Some(t)
    ensures PoolIs(t, 0) && Has(t, "a", 0, Ready) && Revived(t, "p") > 0 && t.namespaces.Keys == {"a", "b"}
    ensures t.namespaces["b"].pool == None && t.ledger == s.ledger
  {
    hide Exec, NsApply, NewLedger;
    var a := CreateNs("b");
    NsAfter(s, a);
    CreatesUnlabelled(s, a);
    t := NsApply(s, a);
    ExecOne(s, OnNs(a));
  }

  lemma CreatesUnlabelled(s: State, a: NsAction)
    requires NsEnabled(s, a) && a.CreateNs?
    ensures NewNs(s, a).pool == None && NewLedger(s, a) == s.ledger
  {
  }

  lemma FullButRevived(s: State)
    requires PoolIs(s, 0) && Has(s, "a", 0, Ready) && s.namespaces.Keys == {"a", "b"} && s.namespaces["b"].pool == None
    requires Revived(s, "p") > 0 && "b" !in s.ledger
    ensures Total(s, "p") == 1 && NsEnabled(s, Adopt("b", "p", 0))
  {
    hide Revived;
    assert CountedSet(s, "p") == {"a"};
  }

  // ------------------------------------------------------ claiming a leftover

  /** A pool is deleted and created anew while a namespace of it is ready. */
  function Recreated(): seq<Action> {
    UpToReady() + [OnPool(DeletePool("p"))] + [OnPool(CreatePool("p", ONE))] + Fill("b", 1)
  }

  function UpToReady(): seq<Action> {
    [OnPool(CreatePool("p", ONE))] + Fill("a", 0) + [OnNs(Annotate(EnvWorker, "a", StatusPatch(Ready)))]
  }

  lemma RecreatedExec() returns (t: State)
    ensures Exec(EMPTY_CLUSTER, Recreated()) == Some(t)
    ensures PoolIs(t, 1) && t.namespaces.Keys == {"a", "b"} && Has(t, "a", 0, Ready) && Has(t, "b", 1, Creating)
    ensures t.ledger == map["a" := Owner(PoolKind, "p", 0), "b" := Owner(PoolKind, "p", 1)]
    ensures t.nextUid == 2 && t.reservations == map[] && t.resNames == {} && t.named == {} && t.filed == map[]
  {
    hide Exec, Step, NsApply, PoolApply, Total;
    var s3 := FirstReady();
    PoolStep(s3, DeletePool("p"));
    var s4 := Exec(s3, [OnPool(DeletePool("p"))]).value;
    PoolStep(s4, CreatePool("p", ONE));
    var p1 := [OnPool(CreatePool("p", ONE))];
    var s5 := Exec(s4, p1).value;
    Filled(s5, "b", 1);
    t := Exec(s5, Fill("b", 1)).value;
    ExecAppend(EMPTY_CLUSTER, UpToReady(), [OnPool(DeletePool("p"))]);
    ExecAppend(EMPTY_CLUSTER, UpToReady() + [OnPool(DeletePool("p"))], p1);
    ExecAppend(EMPTY_CLUSTER, UpToReady() + [OnPool(DeletePool("p"))] + p1, Fill("b", 1));
  }

  lemma FirstReady() returns (t: State)
    ensures Exec(EMPTY_CLUSTER, UpToReady()) == Some(t)
    ensures PoolIs(t, 0) && t.namespaces.Keys == {"a"} && Has(t, "a", 0, Ready)
    ensures t.ledger == map["a" := Owner(PoolKind, "p", 0)] && t.created == {"a"}
    ensures t.nextUid == 1 && t.reservations == map[] && t.resNames == {} && t.named == {} && t.filed == map[]
  {
    hide Exec, Step, NsApply, PoolApply, Total;
    var p1 := [OnPool(CreatePool("p", ONE))];
    PoolStep(EMPTY_CLUSTER, CreatePool("p", ONE));
    var s1 := Exec(EMPTY_CLUSTER, p1).value;
    Filled(s1, "a", 0);
    var s2 := Exec(s1, Fill("a", 0)).value;
    Marked(s2, "a", 0, EnvWorker, Ready);
    var ready := [OnNs(Annotate(EnvWorker, "a", StatusPatch(Ready)))];
    t := Exec(s2, ready).value;
    ExecAppend(EMPTY_CLUSTER, p1, Fill("a", 0));
    ExecAppend(EMPTY_CLUSTER, p1 + Fill("a", 0), ready);
  }

  /** Then the ready list holds a namespace that the ready count leaves out. */
  lemma ReadyDisagrees()
    ensures var t := Exec(EMPTY_CLUSTER, Recreated());
            && t.Some? && PoolIs(t.value, 1) && StatusOf(t.value, "p", 1).ready == 0
            && |ReadyOf(t.value, "p", ["a", "b"])| == 1
  {
    hide Exec, StatusOf, ReadyOf;
    var t := RecreatedExec();
    NoneReadied(t);
    OneReady(t);
  }

  lemma NoneReadied(s: State)
    requires s.namespaces.Keys == {"a", "b"} && Has(s, "a", 0, Ready) && Has(s, "b", 1, Creating)
    ensures StatusOf(s, "p", 1).ready == 0
  {
    assert Members(s.namespaces, "p", 1, Readied) == {};
  }

  lemma OneReady(s: State)
    requires s.namespaces.Keys == {"a", "b"} && Has(s, "a", 0, Ready) && Has(s, "b", 1, Creating)
    ensures |ReadyOf(s, "p", ["a", "b"])| == 1
  {
    hide HasStatus;
    var a, b := Item("a", s.namespaces["a"]), Item("b", s.namespaces["b"]);
    assert ["a", "b"][1..] == ["b"] && ["b"][1..] == [];
    assert Listing(s.namespaces, "p", ["b"]) == [b];
    assert Listing(s.namespaces, "p", ["a", "b"]) == [a] + [b];
    assert IsReady(a.ns) && !IsReady(b.ns) by { CreatingIsNotReady(b.ns); }
    assert ([a] + [b])[..1] == [a] && [a][..0] == [];
    assert ReadyItems([a]) == [a];
  }

  lemma CreatingIsNotReady(ns: Namespace)
    ensures HasStatus(ns, Creating) ==> !HasStatus(ns, Ready)
  {
  }

  /** And a reservation that takes it puts the pool over its limit. */
  lemma LimitExceededByClaim()
    ensures var request := OnRes(UserCreate("k", ResSpec(Empty, "p", "", "")));
            var t := Exec(EMPTY_CLUSTER, Recreated() + [request] + [OnNs(Claim("a", "k", 2))]);
            t.Some? && PoolIs(t.value, 1) && Total(t.value, "p") == 2 > ONE.sizeLimit.value
  {
    hide Exec, Step, NsApply, ResApply, Total;
    var t := RecreatedExec();
    var a, b := UserCreate("k", ResSpec(Empty, "p", "", "")), Claim("a", "k", 2);
    ResAfter(t, a);
    ExecOne(t, OnRes(a));
    assert Step(t, OnRes(a)) == Some(ResApply(t, a)) by { UserStep(t, a); }
    var t1 := ResApply(t, a);
    WriteExec(t1, b);
    ExecOne(t1, OnNs(b));
    var t2 := Step(t1, OnNs(b)).value;
    assert t2.namespaces.Keys == {"a", "b"};
    TwoCounted(t2, 1);
    ExecAppend(EMPTY_CLUSTER, Recreated(), [OnRes(a)]);
    ExecAppend(EMPTY_CLUSTER, Recreated() + [OnRes(a)], [OnNs(b)]);
  }

  lemma UserStep(s: State, a: ResAction)
    requires ResEnabled(s, a)
    ensures Step(s, OnRes(a)) == Some(ResApply(s, a))
  {
  }
}
