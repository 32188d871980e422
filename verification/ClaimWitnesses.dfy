/** Runs from an empty cluster in which a reservation becomes active on a namespace that goes away: one in which every
    pass is undisturbed, and one in which the pool deletes what is being claimed. */
module ClaimWitnesses {
  import opened Objects
  import opened Protocol
  import opened Invariant
  import opened Execution
  import opened Witnesses

  /** Every step is undisturbed when its turn comes. */
  ghost predicate Quiet(s: State, acts: seq<Action>) {
    forall i | 0 <= i < |acts| :: QuietAt(s, acts, i)
  }

  predicate QuietAt(s: State, acts: seq<Action>, i: nat)
    requires i < |acts|
  {
    Exec(s, acts[..i]).Some? && Undisturbed(Exec(s, acts[..i]).value, acts[i])
  }

  /** One step further along a run. */
  lemma Go(s0: State, acts: seq<Action>, i: nat, s: State) returns (t: State)
    requires i < |acts| && Exec(s0, acts[..i]) == Some(s) && Enabled(s, acts[i])
    ensures t == Apply(s, acts[i]) && Exec(s0, acts[..i + 1]) == Some(t)
    ensures Quiet(s0, acts[..i]) && Undisturbed(s, acts[i]) ==> Quiet(s0, acts[..i + 1])
  {
    hide Exec, Undisturbed;
    t := Apply(s, acts[i]);
    assert acts[..i + 1] == acts[..i] + [acts[i]];
    ExecSnoc(s0, acts[..i], acts[i]);
    StepIs(s, acts[i]);
    if Quiet(s0, acts[..i]) && Undisturbed(s, acts[i]) {
      var longer := acts[..i + 1];
      forall j | 0 <= j < |longer| ensures QuietAt(s0, longer, j) {
        assert longer[..j] == acts[..j];
        if j < i {
          assert acts[..i][..j] == acts[..j] && QuietAt(s0, acts[..i], j);
        }
      }
    }
  }

  const FREE := Owner(PoolKind, "p", 0)
  const TAKEN := Owner(ReservationKind, "k", 1)

  /** Namespace "a", with its owner, its status, and whether it is being deleted. */
  predicate Is(s: State, o: Owner, v: Value, dying: bool) {
    && "a" in s.namespaces && s.namespaces["a"].pool == Some("p") && s.namespaces["a"].owners == [o]
    && HasStatus(s.namespaces["a"], v)
    && s.namespaces["a"].terminating == dying
    && "a" in s.ledger && s.ledger["a"] == o
  }

  /** Reservation "k" as it was filed. */
  predicate Filed(s: State) {
    && s.nextUid == 2 && s.named == {} && s.filed == map[1 := Request("k", SPEC)]
    && s.resNames == {"k"} && s.reused == {} && "k" in s.reservations
    && s.reservations["k"].uid == 1 && s.reservations["k"].spec == SPEC && s.reservations["k"].created == 0
    && !s.reservations["k"].marked && s.reservations["k"].status.state == Unset
  }

  /** "k" is active on "a". */
  predicate ActiveOnA(s: State) {
    && "k" in s.reservations && s.reservations["k"].uid == 1 && !s.reservations["k"].marked
    && s.reservations["k"].status.state == Active && s.reservations["k"].status.namespace == "a"
  }

  // --------------------------------------------------------- single steps

  lemma AnnotateA(s: State, who: Actor, o: Owner, v: Value, w: Value, dying: bool)
    requires Is(s, o, v, dying) && AllowedPatch(who, StatusPatch(w))
    ensures var a := Annotate(who, "a", StatusPatch(w));
            && NsEnabled(s, a) && Undisturbed(s, OnNs(a)) && Is(NsApply(s, a), o, w, dying)
            && (Filed(s) ==> Filed(NsApply(s, a))) && (Bare(s) ==> Bare(NsApply(s, a)))
  {
    hide NsApply, AllowedPatch;
    NsAfter(s, Annotate(who, "a", StatusPatch(w)));
  }

  lemma DeleteA(s: State, o: Owner, v: Value)
    requires Is(s, o, v, false)
    ensures var a := DeleteNs("a");
            && NsEnabled(s, a) && (Undisturbed(s, OnNs(a)) <==> o.kind == PoolKind) && Is(NsApply(s, a), o, v, true)
            && (Filed(s) ==> Filed(NsApply(s, a))) && (Bare(s) ==> Bare(NsApply(s, a)))
  {
    hide NsApply;
    NsAfter(s, DeleteNs("a"));
  }

  lemma FileK(s: State, v: Value, dying: bool)
    requires Bare(s) && Is(s, FREE, v, dying)
    ensures var a := UserCreate("k", SPEC);
            && ResEnabled(s, a) && Undisturbed(s, OnRes(a))
            && Filed(ResApply(s, a)) && Is(ResApply(s, a), FREE, v, dying)
  {
    hide ResApply;
    ResAfter(s, UserCreate("k", SPEC));
  }

  lemma ClaimA(s: State, v: Value, dying: bool)
    requires Is(s, FREE, v, dying) && Filed(s)
    ensures var a := Claim("a", "k", 1);
            && NsEnabled(s, a) && (Undisturbed(s, OnNs(a)) <==> v == Ready)
            && Is(NsApply(s, a), TAKEN, v, dying) && Filed(NsApply(s, a))
  {
    hide NsApply;
    NsAfter(s, Claim("a", "k", 1));
  }

  lemma RegisterK(s: State, v: Value, dying: bool)
    requires Is(s, TAKEN, v, dying) && Filed(s)
    ensures var a := Register(ReservationWorker, "k", HOUR);
            && IndexEnabled(s, a) && Undisturbed(s, OnIndex(a)) && Indexed(IndexApply(s, a), "k")
            && Is(IndexApply(s, a), TAKEN, v, dying) && Filed(IndexApply(s, a))
  {
  }

  lemma ActivateK(s: State, v: Value, dying: bool)
    requires Is(s, TAKEN, v, dying) && Filed(s) && Indexed(s, "k")
    ensures var a := Activate("k", "a", "p", HOUR);
            && ResEnabled(s, a) && Undisturbed(s, OnRes(a))
            && Is(ResApply(s, a), TAKEN, v, dying) && ActiveOnA(ResApply(s, a))
  {
    hide ResApply;
    ResAfter(s, Activate("k", "a", "p", HOUR));
  }

  lemma FinishA(s: State, v: Value)
    requires Is(s, TAKEN, v, true) && ActiveOnA(s)
    ensures var a := FinishNs("a");
            && NsEnabled(s, a) && Undisturbed(s, OnNs(a))
            && "a" !in NsApply(s, a).namespaces && ActiveOnA(NsApply(s, a))
  {
    hide NsApply;
    NsAfter(s, FinishNs("a"));
  }

  /** The first three steps of both runs. */
  lemma Begun(acts: seq<Action>) returns (t: State)
    requires |acts| > 3
    requires acts[0] == OnPool(CreatePool("p", PoolSpec(2, None, None, 0))) && acts[1] == OnNs(CreateNs("a"))
    requires acts[2] == OnNs(Adopt("a", "p", 0))
    ensures Exec(EMPTY_CLUSTER, acts[..3]) == Some(t) && Quiet(EMPTY_CLUSTER, acts[..3])
    ensures Is(t, FREE, Creating, false) && Bare(t)
  {
    hide Exec, NsApply, Undisturbed;
    NothingExec(EMPTY_CLUSTER);
    assert acts[..0] == [];
    var s1 := Go(EMPTY_CLUSTER, acts, 0, EMPTY_CLUSTER);
    PoolThere(EMPTY_CLUSTER);
    ExecOne(EMPTY_CLUSTER, acts[0]);
    StepIs(EMPTY_CLUSTER, acts[0]);
    assert Undisturbed(EMPTY_CLUSTER, acts[0]) && Undisturbed(s1, acts[1]) by { CreationQuiet(); }
    NsAfter(s1, acts[1].ns);
    var s2 := Go(EMPTY_CLUSTER, acts, 1, s1);
    AdoptionQuiet(s2);
    NsAfter(s2, acts[2].ns);
    t := Go(EMPTY_CLUSTER, acts, 2, s2);
  }

  lemma CreationQuiet()
    ensures forall s, a :: Undisturbed(s, OnPool(a))
    ensures forall s, n :: Undisturbed(s, OnNs(CreateNs(n)))
  {
  }

  lemma AdoptionQuiet(s: State)
    requires Bare(s)
    ensures Undisturbed(s, OnNs(Adopt("a", "p", 0)))
  {
  }

  // ------------------------------------------------- a dying one is claimed

  /** Equipping "a" fails, so it is deleted; its environment is ready all the same, so it is listed and claimed. */
  function DyingClaimed(): seq<Action> {
    [OnPool(CreatePool("p", PoolSpec(2, None, None, 0))), OnNs(CreateNs("a")), OnNs(Adopt("a", "p", 0)),
     OnNs(DeleteNs("a")), OnNs(Annotate(EnvWorker, "a", StatusPatch(Ready))), OnRes(UserCreate("k", SPEC)),
     OnNs(Claim("a", "k", 1)), OnIndex(Register(ReservationWorker, "k", HOUR)), OnRes(Activate("k", "a", "p", HOUR)),
     OnNs(FinishNs("a"))]
  }

  /** Undisturbed passes alone do not make a claimed namespace last: here none is disturbed, and a reservation is active
      on a namespace that is gone, because it was claimed while it was being deleted. */
  lemma ActiveOnGone()
    ensures var t := Exec(EMPTY_CLUSTER, DyingClaimed());
            && t.Some? && Quiet(EMPTY_CLUSTER, DyingClaimed())
            && ActiveOnA(t.value) && "a" !in t.value.namespaces
  {
    hide Exec, NsApply, ResApply, IndexApply, Undisturbed, Quiet, Bare, Filed, ActiveOnA, Is;
    var acts := DyingClaimed();
    var s3 := Begun(acts);
    DeleteA(s3, FREE, Creating);
    var s4 := Go(EMPTY_CLUSTER, acts, 3, s3);
    AnnotateA(s4, EnvWorker, FREE, Creating, Ready, true);
    var s5 := Go(EMPTY_CLUSTER, acts, 4, s4);
    FileK(s5, Ready, true);
    var s6 := Go(EMPTY_CLUSTER, acts, 5, s5);
    ClaimA(s6, Ready, true);
    var s7 := Go(EMPTY_CLUSTER, acts, 6, s6);
    RegisterK(s7, Ready, true);
    var s8 := Go(EMPTY_CLUSTER, acts, 7, s7);
    ActivateK(s8, Ready, true);
    var s9 := Go(EMPTY_CLUSTER, acts, 8, s8);
    FinishA(s9, Ready);
    var s10 := Go(EMPTY_CLUSTER, acts, 9, s9);
    assert acts[..10] == acts;
  }

  // ------------------------------------------ deleted while it is claimed

  /** After the reservation controller has listed "a" as ready, the pool marks it and then deletes it, and in between it
      is claimed. */
  function ClaimedMeanwhile(): seq<Action> {
    [OnPool(CreatePool("p", PoolSpec(2, None, None, 0))), OnNs(CreateNs("a")), OnNs(Adopt("a", "p", 0)),
     OnNs(Annotate(EnvWorker, "a", StatusPatch(Ready))), OnRes(UserCreate("k", SPEC)),
     OnNs(Annotate(PoolWorker, "a", StatusPatch(Error))), OnNs(Annotate(PoolWorker, "a", StatusPatch(Deleting))),
     OnNs(Claim("a", "k", 1)), OnNs(DeleteNs("a")),
     OnIndex(Register(ReservationWorker, "k", HOUR)), OnRes(Activate("k", "a", "p", HOUR))]
  }

  /** So a claim that passes meet can lose its namespace, although that was not being deleted when it was claimed. The
      claim and the deletion are the two steps that are not undisturbed. */
  lemma ActiveOnDeleted()
    ensures var acts := ClaimedMeanwhile();
            var s, t := Exec(EMPTY_CLUSTER, acts[..7]), Exec(EMPTY_CLUSTER, acts);
            && s.Some? && Is(s.value, FREE, Deleting, false) && !Undisturbed(s.value, acts[7])
            && t.Some? && ActiveOnA(t.value) && Is(t.value, TAKEN, Deleting, true)
  {
    hide Exec, NsApply, ResApply, IndexApply, Undisturbed, Quiet, Bare, Filed, ActiveOnA, Is;
    var acts := ClaimedMeanwhile();
    var s7 := MarkedMeanwhile();
    ClaimA(s7, Deleting, false);
    var s8 := Go(EMPTY_CLUSTER, acts, 7, s7);
    DeleteA(s8, TAKEN, Deleting);
    var s9 := Go(EMPTY_CLUSTER, acts, 8, s8);
    RegisterK(s9, Deleting, true);
    var s10 := Go(EMPTY_CLUSTER, acts, 9, s9);
    ActivateK(s10, Deleting, true);
    var s11 := Go(EMPTY_CLUSTER, acts, 10, s10);
    assert acts[..11] == acts;
  }

  /** Up to the claim. */
  lemma MarkedMeanwhile() returns (s7: State)
    ensures Exec(EMPTY_CLUSTER, ClaimedMeanwhile()[..7]) == Some(s7) && Is(s7, FREE, Deleting, false) && Filed(s7)
  {
    hide Exec, NsApply, ResApply, IndexApply, Undisturbed, Quiet, Bare, Filed, ActiveOnA, Is;
    var acts := ClaimedMeanwhile();
    var s3 := Begun(acts);
    AnnotateA(s3, EnvWorker, FREE, Creating, Ready, false);
    var s4 := Go(EMPTY_CLUSTER, acts, 3, s3);
    FileK(s4, Ready, false);
    var s5 := Go(EMPTY_CLUSTER, acts, 4, s4);
    AnnotateA(s5, PoolWorker, FREE, Ready, Error, false);
    var s6 := Go(EMPTY_CLUSTER, acts, 5, s5);
    AnnotateA(s6, PoolWorker, FREE, Error, Deleting, false);
    s7 := Go(EMPTY_CLUSTER, acts, 6, s6);
  }
}
