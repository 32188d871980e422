/** When the poller deletes a reservation before its time: after a restart it goes by the expirations read back from the
    store, which have lost their fraction of a second. */
module EarlyExpiry {
  import opened Objects
  import opened Protocol
  import opened Invariant
  import opened Execution
  import opened Poller

  /** A restart of the operator, start-up population, and then time up to `t`. */
  function AfterRestart(s: State, names: seq<string>, t: Time): Option<State> {
    match Exec(s, [OnIndex(Restart)] + PopulatePlan(s.reservations, names))
    case None => None
    case Some(u) => Step(u, OnWorld(Tick(t)))
  }

  /** An active reservation of duration `d`, not yet at its time. */
  predicate Running(s: State, k: string, d: int) {
    && k in s.reservations && k !in s.reused && s.reservations[k].status.state == Active && !s.reservations[k].marked
    && (s.reservations[k].spec.duration == Readable(d)
        || (s.reservations[k].spec.duration == Empty && d == 3_600_000_000_000))
    && d != 0 && s.reservations[k].created > 0
    && s.now < s.reservations[k].created + d
  }

  /** At some moment before created + d, a pass of the restarted poller deletes the reservation. */
  ghost predicate DeletedEarly(s: State, k: string, d: int, names: seq<string>) {
    exists t :: Early(s, k, d, names, t)
  }

  ghost predicate Early(s: State, k: string, d: int, names: seq<string>, t: Time) {
    && k in s.reservations && s.now <= t < s.reservations[k].created + d
    && AfterRestart(s, names, t).Some?
    && var u := AfterRestart(s, names, t).value;
       && OnRes(OpDelete(PollWorker, k)) in PollPlan(u, [k])
       && Exec(u, PollPlan(u, [k])).Some?
  }

  /** That happens exactly to durations that are not a whole number of seconds. */
  lemma DeletedEarlyIff(s: State, k: string, d: int, names: seq<string>)
    requires Inv(s) && Running(s, k, d) && Enumerates(names, s.reservations)
    ensures DeletedEarly(s, k, d, names) <==> d % 1_000_000_000 != 0
  {
    hide Inv, Exec, AfterRestart, PollPlan, ExpiryOf;
    var c := s.reservations[k].created;
    PersistedRunning(s, k, d);
    if d % SECOND != 0 {
      var t := if s.now <= Persist(c + d) then Persist(c + d) else s.now;
      Restarted(s, names, t);
      DueThen(s, k, d, names, t);
      assert Early(s, k, d, names, t);
    }
    forall t | s.now <= t < c + d && d % SECOND == 0 ensures !Early(s, k, d, names, t) {
      Restarted(s, names, t);
      NotDueThen(s, k, d, names, t);
    }
  }

  /** The stored expiration is creation plus duration, read in whole seconds. */
  lemma PersistedRunning(s: State, k: string, d: int)
    requires Inv(s) && Running(s, k, d)
    ensures s.reservations[k].status.expiration == Persist(s.reservations[k].created + d)
    ensures Persist(s.reservations[k].created + d) > 0
    ensures Persist(s.reservations[k].created + d) < s.reservations[k].created + d <==> d % SECOND != 0
  {
    hide VersionsInv, OwnershipInv, IndexInv, HistoryInv, PoolInv, LimitInv, LifecycleOf, Persist;
    var c := s.reservations[k].created;
    assert c % SECOND == 0 && c <= s.now && c >= SECOND;
    Cut(c, d);
  }

  /** A whole number of seconds added to a time does not change what is cut off. */
  lemma Cut(c: int, d: int)
    requires c % SECOND == 0
    ensures Persist(c + d) <= c + d && (Persist(c + d) < c + d <==> d % SECOND != 0)
    ensures c + d >= SECOND ==> Persist(c + d) > 0
  {
    assert (c + d) % SECOND == d % SECOND by {
      var q := c / SECOND;
      assert c == q * SECOND && d == d / SECOND * SECOND + d % SECOND;
      assert c + d == (q + d / SECOND) * SECOND + d % SECOND;
    }
  }

  lemma Restarted(s: State, names: seq<string>, t: Time)
    requires Inv(s) && Enumerates(names, s.reservations) && s.now <= t
    ensures var u := AfterRestart(s, names, t);
            && u.Some? && u.value.index == ActiveExpirations(s.reservations) && u.value.reservations == s.reservations
            && u.value.now == t && u.value.reused == s.reused
  {
    hide Inv, Exec, Step;
    var a := OnIndex(Restart);
    RestartStep(s);
    var s1 := Step(s, a).value;
    PopulateExec(s1, names);
    ExecOne(s, a);
    ExecAppend(s, [a], PopulatePlan(s.reservations, names));
    TickStep(Exec(s1, PopulatePlan(s.reservations, names)).value, t);
  }

  lemma RestartStep(s: State)
    requires Inv(s)
    ensures var u := Step(s, OnIndex(Restart));
            && u.Some? && Inv(u.value) && u.value.index == map[] && u.value.reservations == s.reservations
            && u.value.now == s.now && u.value.reused == s.reused
  {
    hide Inv;
    StepKeepsInv(s, OnIndex(Restart));
  }

  lemma TickStep(s: State, t: Time)
    requires s.now <= t
    ensures Step(s, OnWorld(Tick(t))) == Some(s.(now := t))
  {
  }

  lemma PopulateExec(s: State, names: seq<string>)
    requires Inv(s) && Enumerates(names, s.reservations) && s.index == map[]
    ensures var u := Exec(s, PopulatePlan(s.reservations, names));
            && u.Some? && u.value.index == ActiveExpirations(s.reservations) && u.value.reservations == s.reservations
            && u.value.now == s.now && u.value.reused == s.reused
  {
    hide Inv, Exec, Step, ActiveOf;
    RegisterExec(s, names);
    AllActive(s.reservations, names);
    assert names[..|names|] == names;
    var t := Exec(s, RegisterPlan(s.reservations, names)).value;
    DoneStep(s, t);
    ExecSnoc(s, RegisterPlan(s.reservations, names), OnIndex(PopulateDone));
  }

  lemma DoneStep(s: State, t: State)
    requires t.reservations == s.reservations && t.index == ActiveExpirations(s.reservations)
    ensures Step(t, OnIndex(PopulateDone)) == Some(t.(populated := true))
  {
    forall k | k in t.reservations && t.reservations[k].status.state == Active ensures Indexed(t, k) {
      assert k in ActiveExpirations(s.reservations);
    }
  }

  lemma OneKeyPlan(u: State, k: string)
    ensures PollPlan(u, [k]) == PollOnePlan(u, k)
  {
    assert [k][..0] == [];
    assert PollPlan(u, []) == [];
  }

  lemma DueThen(s: State, k: string, d: int, names: seq<string>, t: Time)
    requires Running(s, k, d) && AfterRestart(s, names, t).Some?
    requires s.reservations[k].status.expiration == Persist(s.reservations[k].created + d) > 0
    requires Persist(s.reservations[k].created + d) <= t
    requires var u := AfterRestart(s, names, t).value;
             && u.index == ActiveExpirations(s.reservations) && u.reservations == s.reservations
             && u.now == t && u.reused == s.reused
    ensures var u := AfterRestart(s, names, t).value;
            OnRes(OpDelete(PollWorker, k)) in PollPlan(u, [k]) && Exec(u, PollPlan(u, [k])).Some?
  {
    hide Exec, AfterRestart, PollPlan;
    var u := AfterRestart(s, names, t).value;
    OneKeyPlan(u, k);
    var a, b := OnIndex(Pop(k)), OnRes(OpDelete(PollWorker, k));
    assert Due(u, k) && PollOnePlan(u, k) == [a, b];
    ExecTwo(u, a, b);
    assert [a, b][1] == b;
  }

  lemma NotDueThen(s: State, k: string, d: int, names: seq<string>, t: Time)
    requires Running(s, k, d) && AfterRestart(s, names, t).Some? && t < s.reservations[k].created + d
    requires s.reservations[k].status.expiration == Persist(s.reservations[k].created + d) == s.reservations[k].created + d
    requires var u := AfterRestart(s, names, t).value;
             u.index == ActiveExpirations(s.reservations) && u.now == t
    ensures PollPlan(AfterRestart(s, names, t).value, [k]) == []
  {
    hide AfterRestart, PollPlan;
    OneKeyPlan(AfterRestart(s, names, t).value, k);
  }
}
