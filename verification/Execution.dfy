/** What a sequence of steps does when nothing comes in between. */
module Execution {
  import opened Objects
  import opened Protocol
  import opened Invariant

  /** The state after the steps, if each of them is possible when its turn comes. */
  function Exec(s: State, acts: seq<Action>): Option<State> {
    if acts == [] then Some(s)
    else
      match Exec(s, acts[..|acts| - 1])
      case None => None
      case Some(t) => Step(t, acts[|acts| - 1])
  }

  function Step(s: State, a: Action): Option<State> {
    if Enabled(s, a) then Some(Apply(s, a)) else None
  }

  lemma ExecOne(s: State, a: Action)
    ensures Exec(s, [a]) == Step(s, a)
  {
    assert [a][..0] == [];
    assert Exec(s, []) == Some(s);
  }

  lemma ExecSnoc(s: State, acts: seq<Action>, a: Action)
    ensures Exec(s, acts + [a]) == match Exec(s, acts) case None => None case Some(t) => Step(t, a)
  {
    assert (acts + [a])[..|acts|] == acts;
  }

  lemma {:induction false} ExecAppend(s: State, a: seq<Action>, b: seq<Action>)
    ensures Exec(s, a + b) == match Exec(s, a) case None => None case Some(t) => Exec(t, b)
    decreases |b|
  {
    hide Step;
    if b == [] {
      assert a + b == a;
    } else {
      var init, last := b[..|b| - 1], b[|b| - 1];
      ExecAppend(s, a, init);
      assert a + b == (a + init) + [last];
      ExecSnoc(s, a + init, last);
    }
  }

  lemma {:induction false} ExecInv(s: State, acts: seq<Action>)
    requires Inv(s) && Exec(s, acts).Some?
    ensures Inv(Exec(s, acts).value)
    decreases |acts|
  {
    hide Inv, Enabled, Apply;
    if acts != [] {
      var init := acts[..|acts| - 1];
      ExecInv(s, init);
      StepKeepsInv(Exec(s, init).value, acts[|acts| - 1]);
    }
  }

  /** A stretch of a run is the execution of its steps. */
  lemma {:induction false} RunExec(run: seq<State>, acts: seq<Action>, i: nat, j: nat)
    requires IsRun(run, acts) && i <= j <= |acts|
    ensures Exec(run[i], acts[i..j]) == Some(run[j])
    decreases j
  {
    hide Enabled, Apply;
    if i < j {
      RunExec(run, acts, i, j - 1);
      assert acts[i..j] == acts[i..j - 1] + [acts[j - 1]];
      ExecSnoc(run[i], acts[i..j - 1], acts[j - 1]);
    }
  }

  lemma NothingExec(s: State)
    ensures Exec(s, []) == Some(s)
  {
  }

  /** The effect of a namespace write, as far as controllers look at it. */
  lemma WriteExec(s: State, a: NsAction)
    requires NsEnabled(s, a) && !a.FinishNs?
    ensures var t := Step(s, OnNs(a));
            && t.Some? && SameBut(s.namespaces, t.value.namespaces, a.n) && t.value.pools == s.pools
            && t.value.created == s.created + (if a.CreateNs? then {a.n} else {})
            && a.n in t.value.namespaces
            && t.value.namespaces[a.n] == NewNs(s, a).(version := t.value.namespaces[a.n].version)
            && t.value.ledger == NewLedger(s, a) && t.value.envs == s.envs
            && t.value.reservations == s.reservations && t.value.resNames == s.resNames && t.value.now == s.now
            && t.value.nextUid == s.nextUid && t.value.named == s.named
            && t.value.filed == s.filed
  {
    hide NsEnabled, NsApply, NewNs, NewLedger;
    NsAfter(s, a);
  }

  lemma ExecTwo(s: State, a: Action, b: Action)
    ensures Exec(s, [a, b]) == match Step(s, a) case None => None case Some(t) => Step(t, b)
  {
    hide Step;
    assert [a, b] == [a] + [b];
    ExecOne(s, a);
    ExecSnoc(s, [a], b);
  }
}
