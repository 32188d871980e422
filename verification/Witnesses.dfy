/** Runs from an empty cluster that show where a plausible guarantee ends. */
module Witnesses {
  import opened Objects
  import opened Protocol
  import opened Invariant
  import opened Execution

  const SPEC := ResSpec(Empty, "p", "", "")

  function PoolCreated(): seq<Action> {
    [OnPool(CreatePool("p", PoolSpec(2, None, None, 0)))]
  }

  /** A namespace for pool "p", up to the point where it is ready. */
  function Filled(n: string): seq<Action> {
    [OnNs(CreateNs(n)), OnNs(Adopt(n, "p", 0))] + [OnNs(Annotate(PoolWorker, n, StatusPatch(Ready)))]
  }

  /** Two passes over a reservation: the first fails right after the claim, the second takes another namespace. */
  function TwoPasses(): seq<Action> {
    [OnNs(Claim("a", "k", 1)), OnNs(Claim("b", "k", 1))]
    + [OnIndex(Register(ReservationWorker, "k", HOUR)), OnRes(Activate("k", "b", "p", HOUR))]
  }

  /** "A reservation owns at most one namespace" is false: there is a run after which it owns two, one of which its
      status does not name. */
  lemma TwoNamespacesOwned()
    ensures var t := Exec(EMPTY_CLUSTER, PoolCreated() + Filled("a") + Filled("b") + [OnRes(UserCreate("k",
            SPEC))] + TwoPasses());
            && t.Some? && "k" in t.value.reservations && t.value.reservations["k"].status.namespace == "b"
            && "a" in t.value.namespaces && "b" in t.value.namespaces
            && t.value.namespaces["a"].owners == t.value.namespaces["b"].owners
               == [Owner(ReservationKind, "k", t.value.reservations["k"].uid)]
  {
    hide Exec;
    var s0 := EMPTY_CLUSTER;
    PoolThere(s0);
    var s1 := Exec(s0, PoolCreated()).value;
    FillOne(s1, "a");
    var s2 := Exec(s1, Filled("a")).value;
    FillOne(s2, "b");
    var s3 := Exec(s2, Filled("b")).value;
    Requested(s3);
    var s4 := Exec(s3, [OnRes(UserCreate("k", SPEC))]).value;
    TakenTwice(s4);
    ExecAppend(s0, PoolCreated(), Filled("a"));
    ExecAppend(s0, PoolCreated() + Filled("a"), Filled("b"));
    ExecAppend(s0, PoolCreated() + Filled("a") + Filled("b"), [OnRes(UserCreate("k", SPEC))]);
    ExecAppend(s0, PoolCreated() + Filled("a") + Filled("b") + [OnRes(UserCreate("k", SPEC))], TwoPasses());
  }

  /** A cluster with pool "p" and no reservation. */
  ghost predicate Bare(s: State) {
    && s.reservations == map[] && s.resNames == {} && s.reused == {} && s.nextUid == 1 && s.now == 0
    && s.named == {} && s.filed == map[]
    && "p" in s.pools && s.pools["p"].spec.sizeLimit == None
  }

  lemma PoolThere(s: State)
    requires s == EMPTY_CLUSTER
    ensures var t := Exec(s, PoolCreated());
            t.Some? && Bare(t.value) && t.value.ledger == map[] && t.value.created == {} && t.value.namespaces == map[]
  {
    hide Exec;
    ExecOne(s, PoolCreated()[0]);
  }

  lemma FillOne(s: State, n: string)
    requires Bare(s) && n !in s.ledger && n !in s.created && n != "" && n !in s.namespaces
    ensures var t := Exec(s, Filled(n));
            && t.Some? && Bare(t.value) && SameBut(s.namespaces, t.value.namespaces, n) && n in t.value.namespaces
            && t.value.namespaces[n].pool == Some("p")
            && t.value.ledger == s.ledger[n := Owner(PoolKind, "p", 0)] && t.value.created == s.created + {n}
  {
    hide Exec, Step, NewNs, NsApply;
    AdoptOne(s, n);
    var two := [OnNs(CreateNs(n)), OnNs(Adopt(n, "p", 0))];
    var s2 := Exec(s, two).value;
    var c := Annotate(PoolWorker, n, StatusPatch(Ready));
    WriteExec(s2, c);
    NsAfter(s2, c);
    PoolWritten(s2, c);
    StepIs(s2, OnNs(c));
    ExecOne(s2, OnNs(c));
    ExecAppend(s, two, [OnNs(c)]);
  }

  lemma AdoptOne(s: State, n: string)
    requires Bare(s) && n !in s.ledger && n !in s.created && n != "" && n !in s.namespaces
    ensures var t := Exec(s, [OnNs(CreateNs(n)), OnNs(Adopt(n, "p", 0))]);
            && t.Some? && Bare(t.value) && SameBut(s.namespaces, t.value.namespaces, n) && n in t.value.namespaces
            && t.value.namespaces[n].pool == Some("p")
            && t.value.ledger == s.ledger[n := Owner(PoolKind, "p", 0)] && t.value.created == s.created + {n}
  {
    hide Exec, Step, NewNs, NsApply;
    var a, b := CreateNs(n), Adopt(n, "p", 0);
    WriteExec(s, a);
    NsAfter(s, a);
    var s1 := Step(s, OnNs(a)).value;
    StepIs(s, OnNs(a));
    WriteExec(s1, b);
    NsAfter(s1, b);
    PoolWritten(s1, b);
    StepIs(s1, OnNs(b));
    ExecTwo(s, OnNs(a), OnNs(b));
  }

  lemma PoolWritten(s: State, a: NsAction)
    requires NsEnabled(s, a) && (a.Adopt? || a.Annotate?)
    ensures NewNs(s, a).pool == if a.Adopt? then Some(a.p) else s.namespaces[a.n].pool
  {
  }

  lemma StepIs(s: State, a: Action)
    requires Enabled(s, a)
    ensures Step(s, a) == Some(Apply(s, a))
  {
  }

  lemma Requested(s: State)
    requires Bare(s)
    ensures var t := Exec(s, [OnRes(UserCreate("k", SPEC))]);
            && t.Some? && t.value.namespaces == s.namespaces && t.value.ledger == s.ledger && t.value.nextUid == 2
            && t.value.named == {} && t.value.filed == map[1 := Request("k", SPEC)]
            && t.value.resNames == {"k"} && t.value.reused == {}
            && t.value.reservations.Keys == {"k"}
            && t.value.reservations["k"].uid == 1 && t.value.reservations["k"].spec == SPEC
            && t.value.reservations["k"].created == 0 && !t.value.reservations["k"].marked
            && t.value.reservations["k"].status.state == Unset
  {
    hide Exec;
    var a := UserCreate("k", SPEC);
    ExecOne(s, OnRes(a));
    ResAfter(s, a);
  }

  lemma TakenTwice(s: State)
    requires "a" in s.namespaces && "b" in s.namespaces && "a" in s.ledger && "b" in s.ledger
    requires s.ledger["a"].kind == PoolKind && s.ledger["b"].kind == PoolKind && s.nextUid == 2 && s.named == {}
    requires s.filed == map[1 := Request("k", SPEC)]
    requires s.namespaces["a"].pool == Some("p") && s.namespaces["b"].pool == Some("p")
    requires s.resNames == {"k"} && s.reused == {} && "k" in s.reservations
    requires s.reservations["k"].uid == 1 && s.reservations["k"].spec == SPEC && s.reservations["k"].created == 0
    requires !s.reservations["k"].marked && s.reservations["k"].status.state == Unset
    ensures var t := Exec(s, TwoPasses());
            && t.Some? && "k" in t.value.reservations && t.value.reservations["k"].uid == 1
            && t.value.reservations["k"].status.namespace == "b"
            && "a" in t.value.namespaces && "b" in t.value.namespaces
            && t.value.namespaces["a"].owners == t.value.namespaces["b"].owners == [Owner(ReservationKind, "k", 1)]
  {
    hide Exec, NsApply, NewNs, Step;
    var a, b := Claim("a", "k", 1), Claim("b", "k", 1);
    WriteExec(s, a);
    NsAfter(s, a);
    StepIs(s, OnNs(a));
    var s1 := NsApply(s, a);
    WriteExec(s1, b);
    NsAfter(s1, b);
    StepIs(s1, OnNs(b));
    var s2 := NsApply(s1, b);
    ClaimOwner(s, a);
    ClaimOwner(s1, b);
    Confirmed(s2);
    ExecTwo(s, OnNs(a), OnNs(b));
    ExecAppend(s, [OnNs(a), OnNs(b)], TwoPasses()[2..]);
    assert TwoPasses() == [OnNs(a), OnNs(b)] + TwoPasses()[2..];
  }

  lemma ClaimOwner(s: State, a: NsAction)
    requires NsEnabled(s, a) && a.Claim?
    ensures NewNs(s, a).owners == [Owner(ReservationKind, a.k, a.uid)]
  {
  }

  lemma Confirmed(s: State)
    requires "b" in s.ledger && s.ledger["b"] == Owner(ReservationKind, "k", 1) && s.resNames == {"k"}
            && "k" in s.reservations
    requires s.reservations["k"].uid == 1 && s.reservations["k"].spec == SPEC && s.reservations["k"].created == 0
    requires !s.reservations["k"].marked && s.reservations["k"].status.state == Unset
    ensures var t := Exec(s, TwoPasses()[2..]);
            && t.Some? && t.value.namespaces == s.namespaces && "k" in t.value.reservations
                && t.value.reservations["k"].uid == 1
            && t.value.reservations["k"].status.namespace == "b"
  {
    hide Exec, ResApply;
    var a, b := Register(ReservationWorker, "k", HOUR), Activate("k", "b", "p", HOUR);
    StepIs(s, OnIndex(a));
    var s1 := IndexApply(s, a);
    StepIs(s1, OnRes(b));
    ResAfter(s1, b);
    ExecTwo(s, OnIndex(a), OnRes(b));
    assert TwoPasses()[2..] == [OnIndex(a), OnRes(b)];
  }
}
