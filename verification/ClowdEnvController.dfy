/** clowdenvironment_controller.go: marks a namespace ready once its environment is. */
module ClowdEnvController {
  import opened Objects
  import opened Protocol
  import opened Invariant
  import opened Evolution
  import opened Interference
  import opened Execution
  import opened ApiServer
  import opened Namespaces

  // ------------------------------------------------------------------ plan

  function CompletionPatch(text: string): Annotations {
    map[CompletionTime := Text(text)]
  }

  predicate HasCompletionTime(s: State, n: string) {
    n in s.namespaces && CompletionTime in s.namespaces[n].annotations
  }

  /** What a pass writes for a verified environment. A frontend failure is marked and then overwritten. */
  function EnvPlan(s: State, n: string, frontend: bool, text: string): seq<Action> {
    if n in s.envs && EnvVerifies(s.envs[n]) then MarkPlan(s, n, frontend, text) else []
  }

  function MarkPlan(s: State, n: string, frontend: bool, text: string): seq<Action> {
    if n !in s.namespaces then []
    else FrontendSteps(n, frontend) + ReadyPlan(n, HasCompletionTime(s, n), text)
  }

  function FrontendSteps(n: string, frontend: bool): seq<Action> {
    if frontend then [] else [OnNs(Annotate(EnvWorker, n, StatusPatch(Error)))]
  }

  function ReadyPlan(n: string, completed: bool, text: string): seq<Action> {
    [OnNs(Annotate(EnvWorker, n, StatusPatch(Ready)))]
    + if completed then [] else [OnNs(Annotate(EnvWorker, n, CompletionPatch(text)))]
  }

  /** Whatever runs against it, a pass writes the first few of these. */
  function EnvSteps(n: string, frontend: bool, text: string): seq<Action> {
    FrontendSteps(n, frontend) + ReadyPlan(n, false, text)
  }

  /** How the pass ends: the pass that writes the completion time ends in an error, because the whole-object write
      after it is always refused. */
  function EnvOutcome(s: State, n: string): Outcome {
    if n !in s.envs then Done
    else if !EnvVerifies(s.envs[n]) then Requeue
    else if HasCompletionTime(s, n) then Done
    else Failure
  }

  /** Namespace `n` is ready and has a completion time, the one it had if it had one, and all else is as before. */
  ghost predicate MadeReady(m: map<string, Namespace>, m': map<string, Namespace>, n: string, text: string)
    requires n in m
  {
    && SameBut(m, m', n) && n in m'
    && EnvStatus in m'[n].annotations && m'[n].annotations[EnvStatus] == Ready
    && CompletionTime in m'[n].annotations
    && (CompletionTime !in m[n].annotations ==> m'[n].annotations[CompletionTime] == Text(text))
    && m'[n].owners == m[n].owners && m'[n].pool == m[n].pool && m'[n].terminating == m[n].terminating
    && (forall key | key in m[n].annotations && key != EnvStatus ::
          key in m'[n].annotations && m'[n].annotations[key] == m[n].annotations[key])
    && forall key | key in m'[n].annotations :: key in m[n].annotations || key in {EnvStatus, CompletionTime}
  }

  class ClowdenvironmentReconciler {
    const client: Server

    constructor (client: Server)
      ensures this.client == client
    {
      this.client := client;
    }

    /** One of the worker's own steps since is the "ready" annotation. */
    twostate predicate WroteReady(n: string)
      reads client
    {
      exists i :: |old(client.own)| <= i < |client.own|
                  && client.own[i] == OnNs(Annotate(EnvWorker, n, map[EnvStatus := Ready]))
    }

    /** At some moment since there was no environment. */
    twostate predicate EnvMissing(n: string)
      reads client
    {
      exists m :: |old(client.acts)| <= m < |client.run| && n !in client.run[m].envs
    }

    /** One pass for the environment of namespace `n`; `frontend` says whether the frontend environment could be
        set up, `text` is the time of the pass. */
    method Reconcile(n: string, frontend: bool, text: string) returns (out: Outcome)
      requires client.Serves(EnvWorker)
      modifies client
      ensures client.OwnPrefix(EnvSteps(n, frontend, text))
      ensures client.Continues()
      ensures client.calm ==> client.Undisturbing()
      ensures client.calm && client.faultless ==>
                out == EnvOutcome(old(client.s), n) && client.Did(EnvPlan(old(client.s), n, frontend, text))
      ensures client.calm && client.faultless ==>
                if n in old(client.s).envs && EnvVerifies(old(client.s).envs[n]) && n in old(client.s).namespaces
                then MadeReady(old(client.s).namespaces, client.s.namespaces, n, text)
                else client.s.namespaces == old(client.s).namespaces
      ensures out == Done ==> WroteReady(n) || EnvMissing(n)
      ensures out == Requeue ==> client.OwnDid([])
    {
      hide Server.Valid, Inv, IsRun, OwnOf, Rely, Undisturbed, EnvVerifies, MarkPlan, HasCompletionTime, MadeReady,
           EnvPlan, Exec;
      ghost var s0 := client.s;
      out := ReadAndMark(n, frontend, text);
      if client.calm && client.faultless {
        client.Executed(EnvPlan(s0, n, frontend, text));
        EnvPlanOutcome(s0, n, frontend, text);
      }
    }

    /** clowdenvironment_controller.go, lines 56-84 */
    method ReadAndMark(n: string, frontend: bool, text: string) returns (out: Outcome)
      requires client.Serves(EnvWorker)
      modifies client
      ensures client.OwnPrefix(EnvSteps(n, frontend, text))
      ensures client.Continues()
      ensures client.calm ==> client.Undisturbing()
      ensures client.calm && client.faultless ==>
                out == EnvOutcome(old(client.s), n) && client.Did(EnvPlan(old(client.s), n, frontend, text))
      ensures out == Done ==> WroteReady(n) || EnvMissing(n)
      ensures out == Requeue ==> client.OwnDid([])
    {
      hide Server.Valid, Inv, IsRun, OwnOf, Rely, Undisturbed, EnvVerifies, MarkPlan, HasCompletionTime, EnvMissing;
      var verified := ReadEnv(n);
      match verified
      case NotFound => return Done;
      case Ok(true) =>
        ghost var own0 := client.own;
        out := Mark(n, frontend, text);
        if out == Done {
          assert client.own[|own0| + |FrontendSteps(n, frontend)|]
                 == OnNs(Annotate(EnvWorker, n, map[EnvStatus := Ready]));
        }
      case Ok(false) => return Requeue;
      case _ => return Failure;
    }

    /** The environment as it is read, and whether it verifies. */
    method ReadEnv(n: string) returns (verified: Reply<bool>)
      requires client.Serves(EnvWorker)
      modifies client
      ensures client.Continues() && client.OwnDid([])
      ensures client.calm ==> client.Nothing()
      ensures verified.NotFound? ==> EnvMissing(n)
      ensures client.calm && client.faultless ==>
                verified == if n in old(client.s).envs then Ok(EnvVerifies(old(client.s).envs[n])) else NotFound
    {
      hide Inv, IsRun, OwnOf, Rely, EnvVerifies;
      client.Interfere(EnvWorker);
      var got := client.GetEnv(n);
      match got
      case Ok(env) =>
        var ready := VerifyClowdEnvReady(env);
        return Ok(ready);
      case NotFound =>
        assert n !in client.run[|client.acts|].envs;
        return NotFound;
      case _ => return Failed;
    }

    /** clowdenvironment_controller.go, lines 79-84: an error of the frontend is marked, and the pass goes on. */
    method Mark(n: string, frontend: bool, text: string) returns (out: Outcome)
      requires client.Serves(EnvWorker)
      modifies client
      ensures client.OwnPrefix(EnvSteps(n, frontend, text))
      ensures out == Done ==>
                client.OwnDid((if frontend then [] else [OnNs(Annotate(EnvWorker, n, map[EnvStatus := Error]))])
                              + [OnNs(Annotate(EnvWorker, n, map[EnvStatus := Ready]))])
      ensures out != Requeue && client.Continues()
      ensures client.calm ==> client.Undisturbing()
      ensures client.calm && client.faultless ==>
                && out == (if HasCompletionTime(old(client.s), n) then Done else Failure)
                && client.Did(MarkPlan(old(client.s), n, frontend, text))
    {
      hide Longer, QuietFrom, Server.Valid, Inv, IsRun, OwnOf, Rely, Undisturbed, HasCompletionTime, ReadyPlan,
           FrontendSteps, NsApply, NsEnabled;
      MarkFacts(client.s, n, Error);
      NoCompletion(client.s, n, frontend);
      ghost var acts0, own0, run0 := client.acts, client.own, client.run;
      var noted := NoteFrontend(n, frontend);
      if !noted {
        return Failure;
      }
      ghost var acts1, own1, run1 := client.acts, client.own, client.run;
      out := MarkReady(n, text);
      Onwards(client, acts0, run0, own0, acts1, run1, own1);
      if client.calm {
        QuietOn(run1, acts1, client.run, client.acts, |acts0|);
      }
    }

    /** An error of the frontend is marked. */
    method NoteFrontend(n: string, frontend: bool) returns (ok: bool)
      requires client.Serves(EnvWorker)
      modifies client
      ensures client.OwnPrefix(FrontendSteps(n, frontend)) && (ok ==> client.OwnDid(FrontendSteps(n, frontend)))
      ensures client.Continues()
      ensures client.calm ==> client.Undisturbing() && client.acts <= old(client.acts) + FrontendSteps(n, frontend)
      ensures client.calm && client.faultless ==>
                if n !in old(client.s).namespaces && !frontend then !ok && client.Did([])
                else
                  && ok && client.Did(FrontendSteps(n, frontend))
                  && (n in client.s.namespaces <==> n in old(client.s).namespaces)
                  && HasCompletionTime(client.s, n) == HasCompletionTime(old(client.s), n)
    {
      hide Server.Valid, Inv, IsRun, OwnOf, Rely, Undisturbed, NsApply, NsEnabled, HasCompletionTime, Written,
           AllowedPatch;
      PatchesAllowed("");
      AnnotationsAreHarmless(n);
      MarkFacts(client.s, n, Error);
      ok := true;
      if !frontend {
        ok := UpdateAnnotations(client, EnvWorker, n, StatusPatch(Error));
      }
    }

    /** clowdenvironment_controller.go, lines 86-115 */
    method MarkReady(n: string, text: string) returns (out: Outcome)
      requires client.Serves(EnvWorker)
      modifies client
      ensures client.OwnPrefix(ReadyPlan(n, false, text))
      ensures out == Done ==> client.OwnDid([OnNs(Annotate(EnvWorker, n, map[EnvStatus := Ready]))])
      ensures out != Requeue && client.Continues()
      ensures client.calm ==> client.Undisturbing()
      ensures client.calm && client.faultless && n !in old(client.s).namespaces ==> out == Failure && client.Did([])
      ensures client.calm && client.faultless && n in old(client.s).namespaces ==>
                && out == (if HasCompletionTime(old(client.s), n) then Done else Failure)
                && client.Did(ReadyPlan(n, HasCompletionTime(old(client.s), n), text))
    {
      hide Server.Valid, Inv, IsRun, OwnOf, Rely, Undisturbed, NsApply, NsEnabled, Written, AllowedPatch;
      PatchesAllowed(text);
      AnnotationsAreHarmless(n);
      MarkFacts(client.s, n, Ready);
      var marked := UpdateAnnotations(client, EnvWorker, n, StatusPatch(Ready));
      if !marked {
        return Failure;
      }
      out := CompleteOnce(n, text);
    }

    /** clowdenvironment_controller.go, lines 91-115: the completion time is written unless there is one. */
    method CompleteOnce(n: string, text: string) returns (out: Outcome)
      requires client.Serves(EnvWorker)
      modifies client
      ensures client.OwnPrefix([OnNs(Annotate(EnvWorker, n, CompletionPatch(text)))])
      ensures out == Done ==> client.OwnDid([])
      ensures out != Requeue && client.Continues()
      ensures client.calm ==> client.Undisturbing()
      ensures client.calm && client.faultless && n in old(client.s).namespaces ==>
                && out == (if HasCompletionTime(old(client.s), n) then Done else Failure)
                && client.Did(if HasCompletionTime(old(client.s), n) then []
                              else [OnNs(Annotate(EnvWorker, n, CompletionPatch(text)))])
    {
      hide Server.Valid, Inv, IsRun, OwnOf, Rely, Undisturbed;
      var read := GetNamespace(client, EnvWorker, n);
      if read.None? {
        return Failure;
      }
      if CompletionTime in read.value.annotations {
        return Done;
      }
      var done := Complete(n, read.value, text);
      out := if done then Done else Failure;
    }

    /** clowdenvironment_controller.go, lines 99-110: the completion time, then the object read before it, whole. */
    method Complete(n: string, read: Namespace, text: string) returns (done: bool)
      requires client.Serves(EnvWorker) && n in client.s.namespaces && client.s.namespaces[n] == read
      requires CompletionTime !in read.annotations
      modifies client
      ensures client.OwnPrefix([OnNs(Annotate(EnvWorker, n, CompletionPatch(text)))])
      ensures client.Continues() && !done
      ensures client.calm ==> client.Undisturbing()
      ensures client.calm && client.faultless ==> client.Did([OnNs(Annotate(EnvWorker, n, CompletionPatch(text)))])
    {
      hide QuietFrom, Server.Valid, Inv, IsRun, OwnOf, Rely, Undisturbed, NsApply, NsEnabled, NewNs, Stale;
      AnnotationsAreHarmless(n);
      var completed := WriteCompletion(n, read, text);
      if completed {
        done := WriteBack(n, read);
      } else {
        done := false;
      }
      if client.calm {
        client.QuietStep(OnNs(Annotate(EnvWorker, n, CompletionPatch(text))));
      }
    }

    /** The completion time. The object read before it is out of date from then on. */
    method WriteCompletion(n: string, read: Namespace, text: string) returns (ok: bool)
      requires client.Serves(EnvWorker) && n in client.s.namespaces && client.s.namespaces[n] == read
      requires CompletionTime !in read.annotations
      modifies client
      ensures client.OwnPrefix([OnNs(Annotate(EnvWorker, n, CompletionPatch(text)))])
      ensures client.Continues() && (ok ==> Stale(client.s, n, read))
      ensures client.calm ==> client.Nothing() || client.Made(OnNs(Annotate(EnvWorker, n, CompletionPatch(text))))
      ensures client.calm && client.faultless ==> client.Made(OnNs(Annotate(EnvWorker, n, CompletionPatch(text))))
    {
      hide Server.Valid, Server.Made, Inv, IsRun, OwnOf, Rely, NsApply, NsEnabled, NewNs, Evolves, Stale, AllowedPatch;
      PatchesAllowed(text);
      ghost var s0 := client.s;
      ok := UpdateAnnotations(client, EnvWorker, n, CompletionPatch(text));
      if ok {
        client.Evolved();
        StaleAfterCompletion(s0, client.s, n);
      }
    }

    /** The whole-object write. Once its version has been passed it is refused, whatever happens in between, so it
        can bring back neither an owner nor an annotation. */
    method WriteBack(n: string, read: Namespace) returns (ok: bool)
      requires client.Serves(EnvWorker) && Stale(client.s, n, read)
      modifies client
      ensures client.OwnDid([])
      ensures client.Continues() && !ok
      ensures client.calm ==> client.Nothing()
    {
      hide Server.Valid, Inv, IsRun, OwnOf, Rely, NsApply, NsEnabled, NewNs;
      ghost var s0 := client.s;
      client.Interfere(EnvWorker);
      StaleStays(s0, client.s, n, read);
      var u := client.UpdateNamespace(n, read, Annotate(EnvWorker, n, read.annotations));
      ok := u.Ok?;
    }

    /** isOwnedByPool: the scan over the owners. */
    method IsOwnedByPool(n: string) returns (owned: bool)
      requires client.Serves(EnvWorker)
      modifies client
      ensures client.OwnDid([])
      ensures client.Continues()
      ensures owned ==> n in client.s.namespaces && exists o | o in client.s.namespaces[n].owners :: o.kind == PoolKind
      ensures client.calm && client.faultless ==>
                (owned <==> n in client.s.namespaces && exists o | o in client.s.namespaces[n].owners :: o.kind == PoolKind)
    {
      hide Server.Valid, Inv, IsRun, OwnOf, Rely;
      var ns := GetNamespace(client, EnvWorker, n);
      if ns.None? {
        return false;
      }
      for i := 0 to |ns.value.owners|
        invariant forall j | 0 <= j < i :: ns.value.owners[j].kind != PoolKind
      {
        if ns.value.owners[i].kind == PoolKind {
          return true;
        }
      }
      owned := false;
    }
  }

  lemma EnvPlanOutcome(s: State, n: string, frontend: bool, text: string)
    ensures var t := Exec(s, EnvPlan(s, n, frontend, text));
            && t.Some?
            && if n in s.envs && EnvVerifies(s.envs[n]) && n in s.namespaces
               then MadeReady(s.namespaces, t.value.namespaces, n, text)
               else t.value.namespaces == s.namespaces
  {
    hide Exec, ReadyPlan, FrontendSteps, EnvVerifies, MadeReady;
    NothingExec(s);
    if n in s.envs && EnvVerifies(s.envs[n]) && n in s.namespaces {
      FrontendExec(s, n, frontend);
      var s1 := Exec(s, FrontendSteps(n, frontend)).value;
      ReadyExec(s1, n, text);
      ExecAppend(s, FrontendSteps(n, frontend), ReadyPlan(n, HasCompletionTime(s, n), text));
      AllMade(s.namespaces, s1.namespaces, Exec(s1, ReadyPlan(n, HasCompletionTime(s1, n), text)).value.namespaces, n,
        text);
    }
  }

  /** The status may have changed, and nothing else. */
  ghost predicate StatusOnly(m: map<string, Namespace>, m': map<string, Namespace>, n: string) {
    && n in m && n in m' && SameBut(m, m', n)
    && m'[n].owners == m[n].owners && m'[n].pool == m[n].pool && m'[n].terminating == m[n].terminating
    && forall key | key != EnvStatus ::
         && (key in m[n].annotations <==> key in m'[n].annotations)
         && (key in m[n].annotations ==> m'[n].annotations[key] == m[n].annotations[key])
  }

  /** An annotation write, step by step. */
  ghost predicate Patched(m: map<string, Namespace>, m': map<string, Namespace>, n: string, patch: Annotations) {
    && n in m && n in m' && SameBut(m, m', n)
    && m'[n].owners == m[n].owners && m'[n].pool == m[n].pool && m'[n].terminating == m[n].terminating
    && m'[n].annotations == m[n].annotations + patch
  }

  lemma AnnotateExec(s: State, n: string, patch: Annotations)
    requires n in s.namespaces && AllowedPatch(EnvWorker, patch)
    ensures var t := Step(s, OnNs(Annotate(EnvWorker, n, patch)));
            t.Some? && Patched(s.namespaces, t.value.namespaces, n, patch)
  {
    hide Step, AllowedPatch;
    WriteExec(s, Annotate(EnvWorker, n, patch));
  }

  lemma FrontendExec(s: State, n: string, frontend: bool)
    requires n in s.namespaces
    ensures var t := Exec(s, FrontendSteps(n, frontend));
            && t.Some? && StatusOnly(s.namespaces, t.value.namespaces, n)
            && (HasCompletionTime(t.value, n) <==> HasCompletionTime(s, n))
  {
    hide Exec, Step;
    NothingExec(s);
    if !frontend {
      AnnotateExec(s, n, StatusPatch(Error));
      ExecOne(s, OnNs(Annotate(EnvWorker, n, StatusPatch(Error))));
    }
  }

  lemma ReadyExec(s: State, n: string, text: string)
    requires n in s.namespaces
    ensures var t := Exec(s, ReadyPlan(n, HasCompletionTime(s, n), text));
            t.Some? && MadeReady(s.namespaces, t.value.namespaces, n, text)
  {
    hide Exec, Step, MadeReady, Patched, SameBut;
    var ready := map[EnvStatus := Ready];
    var a, b := OnNs(Annotate(EnvWorker, n, ready)), OnNs(Annotate(EnvWorker, n, CompletionPatch(text)));
    AnnotateExec(s, n, ready);
    var s1 := Step(s, a).value;
    if HasCompletionTime(s, n) {
      assert ReadyPlan(n, true, text) == [a];
      ExecOne(s, a);
      ReadyAlready(s.namespaces, s1.namespaces, n, text);
    } else {
      assert n in s1.namespaces by { PatchedThere(s.namespaces, s1.namespaces, n, ready); }
      AnnotateExec(s1, n, CompletionPatch(text));
      assert ReadyPlan(n, false, text) == [a, b];
      ExecTwo(s, a, b);
      ReadyThenCompleted(s.namespaces, s1.namespaces, Step(s1, b).value.namespaces, n, text);
    }
  }

  lemma PatchedThere(m: map<string, Namespace>, m': map<string, Namespace>, n: string, patch: Annotations)
    requires Patched(m, m', n, patch)
    ensures n in m'
  {
  }

  lemma ReadyAlready(m: map<string, Namespace>, m': map<string, Namespace>, n: string, text: string)
    requires Patched(m, m', n, map[EnvStatus := Ready]) && CompletionTime in m[n].annotations
    ensures MadeReady(m, m', n, text)
  {
  }

  lemma ReadyThenCompleted(m: map<string, Namespace>, m': map<string, Namespace>, m'': map<string, Namespace>, n: string,
      text: string)
    requires Patched(m, m', n, map[EnvStatus := Ready]) && Patched(m', m'', n, CompletionPatch(text))
    requires CompletionTime !in m[n].annotations
    ensures MadeReady(m, m'', n, text)
  {
  }

  lemma AllMade(m: map<string, Namespace>, m': map<string, Namespace>, m'': map<string, Namespace>, n: string,
      text: string)
    requires StatusOnly(m, m', n) && MadeReady(m', m'', n, text)
    ensures MadeReady(m, m'', n, text)
  {
  }

  lemma AnnotationsAreHarmless(n: string)
    ensures forall t, patch :: Undisturbed(t, OnNs(Annotate(EnvWorker, n, patch)))
  {
  }

  lemma PatchesAllowed(text: string)
    ensures AllowedPatch(EnvWorker, StatusPatch(Error)) && AllowedPatch(EnvWorker, StatusPatch(Ready))
    ensures AllowedPatch(EnvWorker, CompletionPatch(text))
  {
  }

  lemma MarkFacts(s: State, n: string, v: Value)
    ensures var a := Annotate(EnvWorker, n, StatusPatch(v));
            NsEnabled(s, a) ==>
              var t := NsApply(s, a);
              n in s.namespaces && n in t.namespaces && (HasCompletionTime(t, n) <==> HasCompletionTime(s, n))
    ensures HasCompletionTime(s, n) ==> n in s.namespaces
  {
    hide NsApply, NsVersion, AllowedPatch;
    var a := Annotate(EnvWorker, n, StatusPatch(v));
    if NsEnabled(s, a) {
      NsAfter(s, a);
    }
  }

  lemma NoCompletion(s: State, n: string, frontend: bool)
    ensures n !in s.namespaces ==> !HasCompletionTime(s, n)
    ensures FrontendSteps(n, frontend) == if frontend then [] else [OnNs(Annotate(EnvWorker, n, map[EnvStatus := Error]))]
  {
  }

  /** The namespace has been written since it was read. */
  ghost predicate Stale(s: State, n: string, read: Namespace) {
    n in s.namespaces && read.version < s.namespaces[n].version
  }

  /** A version without completion time is past once one has been written... */
  lemma StaleAfterCompletion(s: State, t: State, n: string)
    requires Inv(s) && Evolves(s, t)
    requires n in s.namespaces && CompletionTime !in s.namespaces[n].annotations
    requires n in t.namespaces && CompletionTime in t.namespaces[n].annotations
    ensures Stale(t, n, s.namespaces[n])
  {
    hide ReservationsEvolve, NamespacesEvolve;
    InvParts(s);
  }

  /** ... and stays past. */
  lemma StaleStays(s: State, t: State, n: string, read: Namespace)
    requires Inv(s) && Stale(s, n, read) && Rely(EnvWorker, s, t)
    ensures n in t.namespaces ==> t.namespaces[n].version != read.version
  {
    hide ReservationsEvolve, NamespacesEvolve;
    InvParts(s);
  }
}
