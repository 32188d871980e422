/** poller.go: the expiry index and the passes over it. */
module Poller {
  import opened Objects
  import opened Protocol
  import opened Invariant
  import opened Evolution
  import opened Interference
  import opened Execution
  import opened ApiServer

  // ------------------------------------------------------------------ plan

  predicate Due(s: State, k: string) {
    k in s.index && Expired(s.index[k], s.now)
  }

  /** What a pass does with one key: an expired one is dropped from the index first, then deleted from the store. */
  function PollOnePlan(s: State, k: string): seq<Action> {
    if !Due(s, k) then []
    else [OnIndex(Pop(k))] + if k in s.reservations then [OnRes(OpDelete(PollWorker, k))] else []
  }

  /** One pass over the keys in the given order. */
  function PollPlan(s: State, order: seq<string>): seq<Action> {
    if order == [] then [] else PollPlan(s, order[..|order| - 1]) + PollOnePlan(s, order[|order| - 1])
  }

  /** Drops, or deletes, one of these keys. */
  predicate Polls(a: Action, order: seq<string>) {
    match a
    case OnIndex(Pop(k)) => k in order
    case OnRes(OpDelete(who, k)) => who == PollWorker && k in order
    case _ => false
  }

  /** The index without the expired ones among these keys. */
  function Remaining(s: State, order: seq<string>): map<string, Time> {
    map k | k in s.index && !(k in order && Due(s, k)) :: s.index[k]
  }

  /** What start-up population adds. */
  function ActiveExpirations(reservations: map<string, Reservation>): map<string, Time> {
    map k | k in reservations && reservations[k].status.state == Active :: reservations[k].status.expiration
  }

  /** ... step by step: the active ones among these names, with the persisted expiration. */
  function RegisterPlan(listed: map<string, Reservation>, names: seq<string>): seq<Action> {
    if names == [] then []
    else RegisterPlan(listed, names[..|names| - 1]) + RegisterOnePlan(listed, names[|names| - 1])
  }

  function RegisterOnePlan(listed: map<string, Reservation>, k: string): seq<Action> {
    if k in listed && listed[k].status.state == Active
    then [OnIndex(Register(PollWorker, k, listed[k].status.expiration))] else []
  }

  function PopulatePlan(listed: map<string, Reservation>, names: seq<string>): seq<Action> {
    RegisterPlan(listed, names) + [OnIndex(PopulateDone)]
  }

  /** `names` are exactly the names listed. */
  ghost predicate Enumerates(names: seq<string>, listed: map<string, Reservation>) {
    NoDup(names) && forall n :: n in names <==> n in listed
  }

  // ------------------------------------------------- what a popped key may do

  /** The poller may delete `k`, whoever may have taken the name by then. */
  ghost predicate MayGo(s: State, k: string) {
    && k in s.resNames
    && (k in s.reservations ==> k in s.reused || MayDelete(PollWorker, s.reservations[k], s.now))
  }

  lemma DueMayGo(s: State, k: string)
    requires Inv(s) && Due(s, k)
    ensures MayGo(s, k)
  {
    hide VersionsInv, OwnershipInv, LifecycleInv, IndexInv, LimitInv;
    if k in s.reservations && k !in s.reused {
      var r, e := s.reservations[k], s.index[k];
      assert ExpiryOf(r, e);
      var d := ParseDuration(r.spec.duration).value;
      assert Persist(r.created + d) <= e;
    }
  }

  lemma MayGoKept(s: State, t: State, k: string)
    requires MayGo(s, k) && Evolves(s, t)
    ensures MayGo(t, k)
  {
    hide NamespacesEvolve;
  }

  lemma DeletionEnabled(s: State, k: string)
    requires MayGo(s, k)
    ensures k in s.reservations ==> ResEnabled(s, OpDelete(PollWorker, k))
  {
    hide MayDelete;
  }

  lemma Evolved(who: Actor, s: State, t: State)
    requires Rely(who, s, t)
    ensures Evolves(s, t) && s.now <= t.now
    ensures who == PollWorker ==> PollRely(s, t)
  {
    hide NamespacesEvolve, ReservationsEvolve, PollRely;
  }

  lemma EntriesStay(s: State, t: State)
    requires Rely(PollWorker, s, t)
    ensures s.index.Keys <= t.index.Keys
  {
    hide Evolves, Indexed;
  }

  class Poller {
    const client: Server

    constructor (client: Server)
      ensures this.client == client
    {
      this.client := client;
    }

    // ------------------------------------------------------------ the passes

    /** The body of the poll loop. It drops from the index exactly the expired keys it comes by, and none for which
        it is too early, whether or not the deletions succeed. */
    method PollPass(order: seq<string>)
      requires client.Serves(PollWorker) && NoDup(order)
      modifies client
      ensures forall i | |old(client.own)| <= i < |client.own| :: Polls(client.own[i], order)
      ensures client.Continues()
      ensures client.calm ==> client.Undisturbing()
      ensures forall k | k in old(client.s).index && k !in order :: k in client.s.index
      ensures client.calm ==> client.s.index == Remaining(old(client.s), order)
      ensures client.calm && client.faultless ==> client.Did(PollPlan(old(client.s), order))
      ensures client.calm ==> forall k ::
                && (k in client.s.index <==> k in old(client.s).index && !(k in order && TimeUp(old(client.s), k)))
                && (k in client.s.index ==> client.s.index[k] == old(client.s).index[k])
      ensures client.calm && client.faultless ==> Swept(old(client.s), client.s, order)
    {
      hide Server.Valid, Inv, IsRun, OwnOf, Undisturbed, PollOnePlan, Due, Exec, Swept, TimeUp;
      ghost var s0 := client.s;
      NoneRemoved(s0);
      for i := 0 to |order|
        invariant client.Continues()
        invariant forall j | |old(client.own)| <= j < |client.own| :: Polls(client.own[j], order)
        invariant forall k | k in s0.index && k !in order :: k in client.s.index
        invariant client.calm ==> client.Undisturbing() && client.s.now == s0.now
        invariant client.calm ==> client.s.index == Remaining(s0, order[..i])
        invariant client.calm ==> Untouched(s0, client.s, order[i..])
        invariant client.calm && client.faultless ==> client.Did(PollPlan(s0, order[..i]))
      {
        var k := order[i];
        assert order[..i + 1][..i] == order[..i];
        OneRemoved(s0, client.s, order, i);
        PollOne(k);
      }
      assert order[..|order|] == order;
      LeftOver(s0, order);
      if client.calm && client.faultless {
        client.Executed(PollPlan(s0, order));
        PollDone(s0, order, client.s);
      }
    }

    method PollOne(k: string)
      requires client.Serves(PollWorker)
      modifies client
      ensures client.OwnPrefix([OnIndex(Pop(k)), OnRes(OpDelete(PollWorker, k))])
      ensures client.Continues()
      ensures old(client.s).index.Keys - {k} <= client.s.index.Keys
      ensures client.calm ==> client.Undisturbing() && OnlyTouches(old(client.s), client.s, k)
      ensures client.calm ==> client.s.index == if Due(old(client.s),
              k) then old(client.s).index - {k} else old(client.s).index
      ensures client.calm && client.faultless ==> client.Did(PollOnePlan(old(client.s), k))
    {
      hide Evolves, Indexed, ExpiryOf, Server.Valid, Inv, IsRun, OwnOf, Undisturbed, Rely, MayGo, ResApply,
           ResEnabled, OnlyTouches;
      NothingTouched(client.s, k);
      PollingIsHarmless();
      client.Interfere(PollWorker);
      EntriesStay(old(client.s), client.s);
      if !(k in client.s.index && Expired(client.s.index[k], client.s.now)) {
        return;
      }
      ghost var s0 := client.s;
      DueMayGo(s0, k);
      client.Commit(OnIndex(Pop(k)));
      PopKeeps(s0, client.s, k);
      Delete(k);
    }

    /** The reservation is read, and then deleted by name. If it cannot be read there is nothing to delete. */
    method Delete(k: string)
      requires client.Serves(PollWorker) && MayGo(client.s, k)
      modifies client
      ensures client.OwnPrefix([OnRes(OpDelete(PollWorker, k))])
      ensures client.Continues()
      ensures old(client.s).index.Keys <= client.s.index.Keys
      ensures client.calm ==> OnlyTouches(old(client.s), client.s, k) && client.s.index == old(client.s).index
      ensures client.calm ==> client.Nothing() || client.Made(OnRes(OpDelete(PollWorker, k)))
      ensures client.calm && client.faultless ==>
                if k in old(client.s).reservations then client.Made(OnRes(OpDelete(PollWorker, k))) else client.Nothing()
    {
      hide Longer, Indexed, ExpiryOf, Server.Valid, Inv, IsRun, OwnOf, Rely, MayGo, ResApply, ResEnabled, OnlyTouches,
           Evolves;
      ghost var s0, acts0, own0, run0 := client.s, client.acts, client.own, client.run;
      NothingTouched(s0, k);
      client.Interfere(PollWorker);
      ghost var s1, acts1, own1, run1 := client.s, client.acts, client.own, client.run;
      Evolved(PollWorker, s0, s1);
      MayGoKept(s0, s1, k);
      EntriesStay(s0, s1);
      var got := client.GetReservation(k);
      if !got.Ok? {
        return;
      }
      DeleteByName(k);
      Onwards(client, acts0, run0, own0, acts1, run1, own1);
    }

    method DeleteByName(k: string)
      requires client.Serves(PollWorker) && MayGo(client.s, k)
      modifies client
      ensures client.OwnPrefix([OnRes(OpDelete(PollWorker, k))])
      ensures client.Continues()
      ensures old(client.s).index.Keys <= client.s.index.Keys
      ensures client.calm ==> OnlyTouches(old(client.s), client.s, k) && client.s.index == old(client.s).index
      ensures client.calm ==> client.Nothing() || client.Made(OnRes(OpDelete(PollWorker, k)))
      ensures client.calm && client.faultless && k in old(client.s).reservations ==>
                client.Made(OnRes(OpDelete(PollWorker, k)))
    {
      hide Indexed, ExpiryOf, Server.Valid, Inv, IsRun, OwnOf, Rely, MayGo, ResApply, ResEnabled, OnlyTouches, Evolves;
      ghost var s0 := client.s;
      NothingTouched(s0, k);
      client.Interfere(PollWorker);
      Evolved(PollWorker, s0, client.s);
      MayGoKept(s0, client.s, k);
      EntriesStay(s0, client.s);
      DeletionEnabled(client.s, k);
      DeletionTouches(client.s, k);
      var r := client.DeleteReservation(PollWorker, k);
    }

    // -------------------------------------------------------------- start-up

    /** populateActiveReservations: if it succeeds, every active reservation that no one has deleted is indexed,
        also those that became active meanwhile. */
    method PopulateActiveReservations() returns (ok: bool)
      requires client.Serves(PollWorker)
      modifies client
      ensures client.Continues()
      ensures client.calm ==> client.Undisturbing()
      ensures ok ==> client.s.populated && ActivesIndexed(client.s)
      ensures client.calm && client.faultless ==> ok
      ensures client.calm && ok ==> client.s.index == old(client.s).index + ActiveExpirations(old(client.s).reservations)
      ensures client.calm && ok ==> forall k ::
                if k in old(client.s).reservations && old(client.s).reservations[k].status.state == Active
                then k in client.s.index && client.s.index[k] == old(client.s).reservations[k].status.expiration
                else
                  && (k in client.s.index <==> k in old(client.s).index)
                  && (k in client.s.index ==> client.s.index[k] == old(client.s).index[k])
      ensures client.calm && ok ==>
                exists names :: Enumerates(names, old(client.s).reservations)
                                && client.Did(PopulatePlan(old(client.s).reservations, names))
    {
      hide Longer, QuietFrom, Server.Valid, Inv, IsRun, OwnOf, Undisturbed, Rely, PollRely, Evolves, Exec,
           RegisterPlan, ActiveOf, ActiveExpirations, Enumerates, IndexApply, IndexEnabled, ActivesIndexed;
      ghost var acts0, own0, run0 := client.acts, client.own, client.run;
      client.Interfere(PollWorker);
      ghost var s1, acts1, own1, run1 := client.s, client.acts, client.own, client.run;
      NothingQuiet(run1, acts1);
      var listed := client.ListReservations();
      if !listed.Ok? {
        return false;
      }
      var names := Enumerate(listed.value.Keys);
      assert Enumerates(names, listed.value) by {
        AllNames(names, listed.value);
      }
      RegisterAll(listed.value, names);
      Onwards(client, acts0, run0, own0, acts1, run1, own1);
      ghost var s2, acts2, own2, run2 := client.s, client.acts, client.own, client.run;
      PollingIsHarmless();
      PopulateStep(client.s);
      client.Commit(OnIndex(PopulateDone));
      Onwards(client, acts0, run0, own0, acts2, run2, own2);
      ok := true;
      if client.calm {
        QuietAfter(client, run2, acts2, |acts0|, OnIndex(PopulateDone));
        Populated(s1, names, s2);
        assert PopulatePlan(listed.value, names) == RegisterPlan(listed.value, names) + [OnIndex(PopulateDone)];
      }
    }

    method RegisterAll(listed: map<string, Reservation>, names: seq<string>)
      requires client.Serves(PollWorker) && listed == client.s.reservations && Enumerates(names, listed)
      modifies client
      ensures client.OwnDid(RegisterPlan(listed, names))
      ensures client.Continues()
      ensures client.calm ==> client.Undisturbing()
      ensures IndexEnabled(client.s, PopulateDone)
      ensures client.faultless == old(client.faultless)
      ensures client.calm ==>
                && client.Did(RegisterPlan(listed, names))
                && Exec(old(client.s), RegisterPlan(listed, names)) == Some(client.s)
    {
      hide Exec, Server.Valid, Inv, IsRun, OwnOf, Undisturbed, Rely, IndexApply, PollRely, Indexed, Evolves, ActiveOf,
           RegisterOnePlan, RegisterPlan;
      PollingIsHarmless();
      ghost var s0 := client.s;
      SelfPollRely(s0);
      NoneActive(listed, names);
      for i := 0 to |names|
        invariant client.OwnDid(RegisterPlan(listed, names[..i]))
        invariant client.Continues() && Evolves(s0, client.s) && PollRely(s0, client.s)
        invariant client.calm ==> client.Undisturbing()
        invariant client.faultless == old(client.faultless)
        invariant forall k | k in ActiveOf(listed, names[..i]) :: k in client.s.index
        invariant client.calm ==> client.Did(RegisterPlan(listed, names[..i]))
      {
        OneActive(listed, names, i);
        RegisterPlanSnoc(listed, names, i);
        RegisterOne(s0, listed, names[i]);
      }
      assert names[..|names|] == names;
      if client.calm {
        client.Executed(RegisterPlan(listed, names));
      }
      AllActive(listed, names);
      AllIndexed(s0, client.s, ActiveOf(listed, names));
    }

    /** `s0` is the state the listing was made in. */
    method RegisterOne(ghost s0: State, listed: map<string, Reservation>, k: string)
      requires client.Serves(PollWorker) && Inv(s0) && Evolves(s0, client.s) && PollRely(s0, client.s)
      requires listed == s0.reservations && k in listed
      modifies client
      ensures client.OwnDid(RegisterOnePlan(listed, k))
      ensures client.Continues() && Evolves(s0, client.s) && PollRely(s0, client.s)
      ensures client.calm ==> client.Undisturbing()
      ensures client.faultless == old(client.faultless)
      ensures client.calm ==> client.Did(RegisterOnePlan(listed, k))
      ensures old(client.s).index.Keys <= client.s.index.Keys && (listed[k].status.state == Active ==> k in client.s.index)
    {
      hide Server.Valid, Inv, IsRun, OwnOf, Undisturbed, Rely, IndexApply, PollRely, Indexed, Evolves, IndexEnabled;
      PollingIsHarmless();
      ghost var s1 := client.s;
      client.Interfere(PollWorker);
      ghost var s2 := client.s;
      InterferenceChain(s0, s1, s2);
      if listed[k].status.state == Active {
        RegisterListed(s0, s2, k);
        client.Commit(OnIndex(Register(PollWorker, k, listed[k].status.expiration)));
        ChainEvolves(s0, s2, client.s);
      }
    }
  }

  // ------------------------------------------------------------ pass lemmas

  lemma PollingIsHarmless()
    ensures forall t, a :: Undisturbed(t, OnIndex(a))
    ensures forall t, a :: Undisturbed(t, OnRes(a))
  {
  }

  /** Time and all reservations and entries but those of `k` are as before. */
  ghost predicate OnlyTouches(s: State, t: State, k: string) {
    t.now == s.now && OthersKept(s, t, k)
  }

  ghost predicate OthersKept(s: State, t: State, k: string) {
    && (forall x | x != k :: x in s.reservations <==> x in t.reservations)
    && (forall x | x != k :: x in s.index <==> x in t.index)
    && (forall x | x != k && x in s.index :: t.index[x] == s.index[x])
  }

  ghost predicate Untouched(s: State, t: State, names: seq<string>) {
    forall k | k in names :: (k in s.reservations <==> k in t.reservations) && (Due(s, k) <==> Due(t, k))
  }

  lemma NothingTouched(s: State, k: string)
    ensures OnlyTouches(s, s, k)
  {
  }

  lemma PopKeeps(s: State, t: State, k: string)
    requires Inv(s) && Due(s, k) && t == IndexApply(s, Pop(k)) && MayGo(s, k)
    ensures MayGo(t, k) && t.index == s.index - {k} && t.reservations == s.reservations && t.now == s.now
    ensures forall u :: OnlyTouches(t, u, k) ==> OnlyTouches(s, u, k)
  {
    hide MayDelete;
  }

  lemma DeletionTouches(s: State, k: string)
    ensures var a := OpDelete(PollWorker, k);
            ResEnabled(s, a) ==> OnlyTouches(s, ResApply(s, a), k) && ResApply(s, a).index == s.index
  {
    hide ResApply, ResVersion, NewRes;
    var a := OpDelete(PollWorker, k);
    if ResEnabled(s, a) {
      ResAfter(s, a);
    }
  }

  lemma NoneRemoved(s: State)
    ensures Remaining(s, []) == s.index
  {
  }

  /** The next key: what is done with it, and what is left for the keys after it. */
  lemma OneRemoved(s: State, t: State, order: seq<string>, i: nat)
    requires i < |order| && NoDup(order)
    ensures t.now == s.now && Untouched(s, t, order[i..]) ==>
              && PollOnePlan(t, order[i]) == PollOnePlan(s, order[i])
              && (Due(t, order[i]) <==> Due(s, order[i]))
              && (t.index == Remaining(s, order[..i]) ==>
                    Remaining(s, order[..i + 1]) == if Due(t, order[i]) then t.index - {order[i]} else t.index)
              && forall u :: OnlyTouches(t, u, order[i]) ==> Untouched(s, u, order[i + 1..])
  {
  }

  /** The entry of `k` has come to its end. */
  predicate TimeUp(s: State, k: string) {
    k in s.index && s.index[k] != 0 && s.index[k] <= s.now
  }

  /** Of these names the reservations whose time is up are gone, or under deletion, and no other reservation is touched. */
  ghost predicate Swept(s: State, t: State, order: seq<string>) {
    && (forall k | k in t.reservations :: k in s.reservations)
    && forall k | k in s.reservations ::
         if k in order && TimeUp(s, k) then k in t.reservations ==> t.reservations[k].marked
         else k in t.reservations && t.reservations[k] == s.reservations[k]
  }

  lemma LeftOver(s: State, order: seq<string>)
    ensures forall k ::
              && (k in Remaining(s, order) <==> k in s.index && !(k in order && TimeUp(s, k)))
              && (k in Remaining(s, order) ==> Remaining(s, order)[k] == s.index[k])
  {
  }

  lemma {:induction false} PollDone(s: State, order: seq<string>, t: State)
    requires Exec(s, PollPlan(s, order)) == Some(t)
    ensures Swept(s, t, order)
    decreases |order|
  {
    hide Exec, PollOnePlan, TimeUp;
    if order == [] {
      NothingExec(s);
    } else {
      var init, k := order[..|order| - 1], order[|order| - 1];
      ExecAppend(s, PollPlan(s, init), PollOnePlan(s, k));
      var u := Exec(s, PollPlan(s, init)).value;
      PollDone(s, init, u);
      PollOneDone(s, u, k, t);
      assert order == init + [k];
      OneMoreSwept(s, u, t, init, k);
    }
  }

  lemma OneMoreSwept(s: State, u: State, t: State, order: seq<string>, k: string)
    requires Swept(s, u, order)
    requires !(TimeUp(s, k) && k in s.reservations) ==> t.reservations == u.reservations
    requires TimeUp(s, k) && k in s.reservations ==>
               && t.reservations - {k} == u.reservations - {k}
               && (k in t.reservations ==> t.reservations[k].marked)
    ensures Swept(s, t, order + [k])
  {
    hide TimeUp;
    forall x | x != k && TimeUp(s, k) && k in s.reservations
      ensures x in t.reservations <==> x in u.reservations
      ensures x in t.reservations ==> t.reservations[x] == u.reservations[x]
    {
      assert x in t.reservations <==> x in t.reservations - {k};
      assert x in u.reservations <==> x in u.reservations - {k};
      assert x in t.reservations ==> (t.reservations - {k})[x] == t.reservations[x];
    }
  }

  lemma PollOneDone(s: State, u: State, k: string, t: State)
    requires Exec(u, PollOnePlan(s, k)) == Some(t)
    ensures !(TimeUp(s, k) && k in s.reservations) ==> t.reservations == u.reservations
    ensures TimeUp(s, k) && k in s.reservations ==>
              && t.reservations - {k} == u.reservations - {k}
              && (k in t.reservations ==> t.reservations[k].marked)
  {
    hide Exec, Step;
    var a, b := OnIndex(Pop(k)), OnRes(OpDelete(PollWorker, k));
    NothingExec(u);
    ExecOne(u, a);
    PopLeaves(u, k);
    if Due(s, k) && k in s.reservations {
      assert PollOnePlan(s, k) == [a, b];
      ExecTwo(u, a, b);
      DeletionLeaves(Step(u, a).value, k);
    } else if Due(s, k) {
      assert PollOnePlan(s, k) == [a];
    }
  }

  lemma PopLeaves(s: State, k: string)
    ensures var t := Step(s, OnIndex(Pop(k))); t.Some? ==> t.value.reservations == s.reservations
  {
  }

  lemma DeletionLeaves(s: State, k: string)
    ensures var t := Step(s, OnRes(OpDelete(PollWorker, k)));
            t.Some? ==>
              && t.value.reservations - {k} == s.reservations - {k}
              && (k in t.value.reservations ==> t.value.reservations[k].marked)
  {
    hide MayDelete, ResApply;
    var a := OpDelete(PollWorker, k);
    if ResEnabled(s, a) {
      ResAfter(s, a);
    }
  }

  // ------------------------------------------------------- start-up lemmas

  /** The active ones among these names, with their expirations. */
  function ActiveOf(listed: map<string, Reservation>, names: seq<string>): map<string, Time> {
    map k | k in listed && k in names && listed[k].status.state == Active :: listed[k].status.expiration
  }

  lemma NoneActive(listed: map<string, Reservation>, names: seq<string>)
    ensures ActiveOf(listed, names[..0]) == map[] && RegisterPlan(listed, names[..0]) == []
  {
  }

  lemma RegisterPlanSnoc(listed: map<string, Reservation>, names: seq<string>, i: nat)
    requires i < |names|
    ensures RegisterPlan(listed, names[..i + 1]) == RegisterPlan(listed, names[..i]) + RegisterOnePlan(listed, names[i])
  {
    hide RegisterOnePlan;
    assert names[..i + 1][..i] == names[..i];
  }

  lemma OneActive(listed: map<string, Reservation>, names: seq<string>, i: nat)
    requires i < |names| && names[i] in listed
    ensures ActiveOf(listed, names[..i + 1])
            == if listed[names[i]].status.state == Active
               then ActiveOf(listed, names[..i])[names[i] := listed[names[i]].status.expiration] else ActiveOf(listed,
                   names[..i])
  {
    assert names[..i + 1] == names[..i] + [names[i]];
  }

  lemma AllActive(listed: map<string, Reservation>, names: seq<string>)
    requires Enumerates(names, listed)
    ensures ActiveOf(listed, names[..|names|]) == ActiveOf(listed, names) == ActiveExpirations(listed)
  {
    assert names[..|names|] == names;
  }

  lemma SelfPollRely(s: State)
    requires Inv(s)
    ensures PollRely(s, s) && Evolves(s, s)
  {
    InvParts(s);
    StillEvolves(s, s);
  }

  lemma InterferenceChain(s: State, t: State, u: State)
    requires Inv(s) && Inv(t) && Evolves(s, t) && PollRely(s, t) && Rely(PollWorker, t, u)
    ensures Evolves(s, u) && PollRely(s, u) && t.index.Keys <= u.index.Keys
  {
    hide Evolves, VersionsEvolve, NamespacesEvolve, VersionsInv;
    InvParts(s);
    InvParts(t);
    Evolved(PollWorker, t, u);
    EvolvesTransitive(s, t, u);
    IndexedStays(t, u);
    EvolvesParts(t, u);
    PollRelyTransitive(s, t, u);
  }

  lemma EvolvesParts(s: State, t: State)
    requires Evolves(s, t)
    ensures ReservationsEvolve(s, t)
  {
  }

  lemma IndexedStays(s: State, t: State)
    requires Rely(PollWorker, s, t)
    ensures forall k | Indexed(s, k) :: Indexed(t, k)
  {
    hide Evolves, PollRely, Indexed;
  }

  /** A listed expiration is still a legal one for whoever has the name now. */
  lemma RegisterListed(s: State, t: State, k: string)
    requires Inv(s) && Inv(t) && Evolves(s, t) && PollRely(s, t)
    requires k in s.reservations && s.reservations[k].status.state == Active
    ensures var a := Register(PollWorker, k, s.reservations[k].status.expiration);
            && IndexEnabled(t, a) && PollRely(s, IndexApply(t, a))
            && IndexApply(t, a).index == t.index[k := s.reservations[k].status.expiration]
  {
    hide VersionsEvolve, NamespacesEvolve, OwnershipInv, IndexInv, LimitInv, PoolInv;
  }

  lemma {:induction false} RegisterExec(s: State, names: seq<string>)
    requires Inv(s) && forall n | n in names :: n in s.reservations
    ensures var u := Exec(s, RegisterPlan(s.reservations, names));
            && u.Some? && u.value.index == s.index + ActiveOf(s.reservations, names) && u.value.reservations == s.reservations
            && u.value.now == s.now && u.value.reused == s.reused && u.value.resNames == s.resNames
    decreases |names|
  {
    hide Inv, Exec, Step, ActiveOf, RegisterOnePlan;
    if names == [] {
      NothingExec(s);
      NoneActive(s.reservations, names);
      assert s.index + ActiveOf(s.reservations, names) == s.index;
    } else {
      var k := |names| - 1;
      RegisterExec(s, names[..k]);
      assert names[..k + 1] == names;
      OneActive(s.reservations, names, k);
      var t := Exec(s, RegisterPlan(s.reservations, names[..k])).value;
      NextRegistered(s, t, names[k]);
      ExecAppend(s, RegisterPlan(s.reservations, names[..k]), RegisterOnePlan(s.reservations, names[k]));
    }
  }

  lemma AllNames(names: seq<string>, listed: map<string, Reservation>)
    requires NoDup(names) && forall n :: n in names <==> n in listed.Keys
    ensures Enumerates(names, listed)
  {
  }

  /** What registering them all makes of the index. */
  lemma Populated(s: State, names: seq<string>, t: State)
    requires Inv(s) && Enumerates(names, s.reservations)
    requires Exec(s, RegisterPlan(s.reservations, names)) == Some(t)
    ensures t.index == s.index + ActiveExpirations(s.reservations)
    ensures forall k ::
              if k in s.reservations && s.reservations[k].status.state == Active
              then k in t.index && t.index[k] == s.reservations[k].status.expiration
              else (k in t.index <==> k in s.index) && (k in t.index ==> t.index[k] == s.index[k])
  {
    hide Inv, Exec, RegisterPlan, ActiveOf;
    RegisterExec(s, names);
    AllActive(s.reservations, names);
  }

  lemma NextRegistered(s: State, t: State, k: string)
    requires Inv(s) && t.reservations == s.reservations && t.reused == s.reused && t.resNames == s.resNames
    requires k in s.reservations
    ensures var u := Exec(t, RegisterOnePlan(s.reservations, k));
            && u.Some? && u.value.reservations == t.reservations && u.value.now == t.now
            && u.value.reused == t.reused && u.value.resNames == t.resNames
            && u.value.index == if s.reservations[k].status.state == Active
                                then t.index[k := s.reservations[k].status.expiration] else t.index
  {
    hide Inv, Exec, Step;
    NothingExec(t);
    if s.reservations[k].status.state == Active {
      RegisterStep(s, t, k);
      ExecOne(t, OnIndex(Register(PollWorker, k, s.reservations[k].status.expiration)));
    }
  }

  lemma RegisterStep(s: State, t: State, k: string)
    requires Inv(s) && t.reservations == s.reservations && t.reused == s.reused && t.resNames == s.resNames
    requires k in s.reservations && s.reservations[k].status.state == Active
    ensures var u := Step(t, OnIndex(Register(PollWorker, k, s.reservations[k].status.expiration)));
            && u.Some? && u.value.index == t.index[k := s.reservations[k].status.expiration]
            && u.value.reservations == t.reservations && u.value.now == t.now
            && u.value.reused == t.reused && u.value.resNames == t.resNames
  {
    hide VersionsInv, OwnershipInv, IndexInv, LimitInv;
  }

  lemma ChainEvolves(s: State, t: State, u: State)
    requires Inv(s) && Evolves(s, t) && Evolves(t, u)
    ensures Evolves(s, u)
  {
    hide Evolves;
    InvParts(s);
    EvolvesTransitive(s, t, u);
  }

  lemma AllIndexed(s: State, t: State, active: map<string, Time>)
    requires PollRely(s, t) && active == ActiveExpirations(s.reservations)
    requires forall k | k in active :: k in t.index
    ensures IndexEnabled(t, PopulateDone)
  {
  }

  lemma PopulateStep(s: State)
    requires IndexEnabled(s, PopulateDone)
    ensures var t := IndexApply(s, PopulateDone);
            t.populated && t.index == s.index && t.reservations == s.reservations && ActivesIndexed(t)
  {
  }
}
