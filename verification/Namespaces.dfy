/** helpers/namespaces.go: the calls all controllers share. */
module Namespaces {
  import opened Objects
  import opened Protocol
  import opened Invariant
  import opened Evolution
  import opened Interference
  import opened ApiServer

  /** retry.DefaultBackoff */
  const STEPS := 4

  // ------------------------------------------------------ ready namespaces

  predicate IsReady(ns: Namespace) {
    HeldBy(ns, PoolKind) && HasStatus(ns, Ready)
  }

  /** The items a reservation may take: owned by a pool and ready. */
  function ReadyItems(items: seq<Item>): seq<Item> {
    if items == [] then []
    else
      var last := items[|items| - 1];
      ReadyItems(items[..|items| - 1]) + (if IsReady(last.ns) then [last] else [])
  }

  lemma {:induction false} ReadyItemsMembers(items: seq<Item>)
    ensures forall x :: x in ReadyItems(items) <==> x in items && IsReady(x.ns)
  {
    if items != [] {
      var init := items[..|items| - 1];
      ReadyItemsMembers(init);
      assert items == init + [items[|items| - 1]];
    }
  }

  method CheckReadyStatus(p: string, item: Item, ready: seq<Item>) returns (r: seq<Item>)
    ensures r == ready + if item.ns.pool == Some(p) && HasStatus(item.ns, Ready) then [item] else []
  {
    r := ready;
    if item.ns.pool == Some(p) {
      if EnvStatus in item.ns.annotations && item.ns.annotations[EnvStatus] == Ready {
        r := r + [item];
      }
    }
  }

  /** The scan over the items and their owners. */
  method CollectReady(p: string, items: seq<Item>) returns (ready: seq<Item>)
    requires forall i | 0 <= i < |items| :: |items[i].ns.owners| == 1 && items[i].ns.pool == Some(p)
    ensures ready == ReadyItems(items)
  {
    ready := [];
    for i := 0 to |items|
      invariant ready == ReadyItems(items[..i])
    {
      var item := items[i];
      assert items[..i + 1][..i] == items[..i];
      for j := 0 to |item.ns.owners|
        invariant ready == ReadyItems(items[..i]) + if j == 1 && IsReady(item.ns) then [item] else []
      {
        if item.ns.owners[j].kind == PoolKind {
          ready := CheckReadyStatus(p, item, ready);
        }
      }
    }
    assert items[..|items|] == items;
  }

  method GetReadyNamespaces(client: Server, p: string, order: seq<string>) returns (r: Reply<seq<Item>>)
    requires client.Valid() && NoDup(order)
    modifies client`faultless
    ensures r.Ok? || r.Failed?
    ensures client.faultless == (old(client.faultless) && !r.Failed?)
    ensures r.Ok? ==> exists items :: Lists(client.s.namespaces, p, items) && r.value == ReadyItems(items)
    ensures r.Ok? && Covers(order, client.s.namespaces) ==> r.value == ReadyItems(Listing(client.s.namespaces, p, order))
  {
    hide Inv, IsRun, OwnOf, ReadyItems, Covers;
    var listed := client.ListNamespaces(p, order);
    if !listed.Ok? {
      return Failed;
    }
    forall i | 0 <= i < |listed.value| ensures |listed.value[i].ns.owners| == 1 {
      OneOwner(client.s, listed.value[i].name);
    }
    var ready := CollectReady(p, listed.value);
    r := Ok(ready);
  }

  lemma OneOwner(s: State, n: string)
    requires Inv(s) && n in s.namespaces && s.namespaces[n].pool.Some?
    ensures n in s.ledger && s.namespaces[n].owners == [s.ledger[n]]
    ensures Reserved in s.namespaces[n].annotations
    ensures s.namespaces[n].annotations[Reserved] == (if s.ledger[n].kind == PoolKind then False else True)
  {
  }

  // -------------------------------------------------------------- retries

  /** A read that is tried again on any error. */
  method GetNamespace(client: Server, who: Actor, n: string) returns (r: Option<Namespace>)
    requires client.Serves(who)
    modifies client
    ensures client.Continues() && client.OwnDid([]) && Rely(who, old(client.s), client.s)
    ensures r.Some? ==> n in client.s.namespaces && r.value == client.s.namespaces[n]
    ensures client.calm ==> client.Nothing()
    ensures client.calm && client.faultless ==> (r.Some? <==> n in client.s.namespaces)
  {
    hide Inv, IsRun, OwnOf, Rely;
    SelfRely(who, client.s);
    r := None;
    for i := 0 to STEPS
      invariant client.Continues() && client.OwnDid([]) && Rely(who, old(client.s), client.s)
      invariant client.calm ==> client.Nothing()
      invariant client.calm && client.faultless && 0 < i ==> n !in client.s.namespaces
    {
      ghost var mid := client.s;
      client.Interfere(who);
      ChainRely(who, old(client.s), mid, client.s);
      var got := client.GetNamespace(n);
      if got.Ok? {
        return Some(got.value);
      }
    }
  }

  lemma SelfRely(who: Actor, s: State)
    requires Inv(s)
    ensures Rely(who, s, s)
  {
    InvParts(s);
    RelyReflexive(who, s);
  }

  lemma ChainRely(who: Actor, s: State, s': State, s'': State)
    requires Inv(s) && Inv(s') && Rely(who, s, s') && Rely(who, s', s'')
    ensures Rely(who, s, s'')
  {
    hide Rely;
    InvParts(s);
    InvParts(s');
    RelyTransitive(who, s, s', s'');
  }

  lemma PoolRelyOf(s: State, t: State)
    requires Rely(PoolWorker, s, t)
    ensures PoolRely(s, t)
  {
    hide PoolRely;
  }

  /** Reads a namespace; by the time the caller writes, others may have moved on. */
  method ReadForWrite(client: Server, who: Actor, n: string) returns (r: Option<Namespace>)
    requires client.Serves(who)
    modifies client
    ensures client.Continues() && client.OwnDid([]) && Rely(who, old(client.s), client.s)
    ensures r.Some? && n in client.s.namespaces && client.s.namespaces[n].version == r.value.version ==>
              client.s.namespaces[n] == r.value
    ensures client.calm ==> client.Nothing() && (r.Some? ==> n in client.s.namespaces && client.s.namespaces[n] == r.value)
    ensures client.calm && client.faultless ==> (r.Some? <==> n in client.s.namespaces)
  {
    hide Inv, IsRun, OwnOf, Rely;
    ghost var s0 := client.s;
    r := GetNamespace(client, who, n);
    ghost var s1 := client.s;
    client.Interfere(who);
    ChainRely(who, s0, s1, client.s);
    if r.Some? {
      CurrentIfVersion(who, s1, client.s, n);
    }
  }

  /** One round of the annotation compare-and-swap: read, merge, write. */
  method TryAnnotate(client: Server, who: Actor, n: string, patch: Annotations) returns (r: Reply<()>)
    requires client.Serves(who) && AllowedPatch(who, patch)
    modifies client
    ensures client.Continues()
    ensures client.OwnDid([]) || client.OwnDid([OnNs(Annotate(who, n, patch))])
    ensures r.Ok? ==> client.OwnDid([OnNs(Annotate(who, n, patch))])
    ensures r.Conflict? || r.NotFound? ==> client.OwnDid([])
    ensures client.calm ==> !r.Conflict? && (client.Nothing() || client.Made(OnNs(Annotate(who, n, patch))))
    ensures client.calm && client.faultless ==>
              (r.Ok? <==> n in old(client.s).namespaces)
              && (if r.Ok? then client.Made(OnNs(Annotate(who, n, patch))) else client.Nothing())
    ensures who == PoolWorker ==> PoolRely(old(client.s), client.s)
    ensures r.Ok? ==> Written(client, old(client.acts), who, n, patch)
  {
    hide Inv, IsRun, OwnOf, Rely, PoolRely, AllowedPatch, NsApply, NsEnabled, NewNs, ResApply, PoolApply,
         IndexApply, WorldApply, OnlyPatched;
    var a := Annotate(who, n, patch);
    ghost var s0 := client.s;
    var got := ReadForWrite(client, who, n);
    ghost var s1 := client.s;
    if who == PoolWorker {
      PoolRelyOf(s0, s1);
    }
    if got.None? {
      return NotFound;
    }
    AnnotateStep(s1, a);
    r := client.UpdateNamespace(n, Annotated(got.value, patch), a);
    if who == PoolWorker && client.s != s1 {
      PoolRelyTransitive(s0, s1, client.s);
    }
  }

  /** The last step is this annotation write, and it changed the patched keys of the version current just before it
      and nothing else: the owner, `reserved` and whatever others had written survive. */
  ghost predicate Written(client: Server, before: seq<Action>, who: Actor, n: string, patch: Annotations)
    reads client
  {
    && |before| < |client.acts| == |client.run| - 1
    && client.acts[|client.acts| - 1] == OnNs(Annotate(who, n, patch)) && Reserved !in patch
    && n in client.run[|client.acts| - 1].namespaces && n in client.s.namespaces
    && OnlyPatched(client.run[|client.acts| - 1].namespaces, client.s.namespaces, n, patch)
  }

  ghost predicate OnlyPatched(m: map<string, Namespace>, m': map<string, Namespace>, n: string, patch: Annotations)
    requires n in m && n in m'
  {
    && SameBut(m, m', n)
    && m'[n].owners == m[n].owners && m'[n].pool == m[n].pool && m'[n].terminating == m[n].terminating
    && (forall key | key !in patch ::
          && (key in m[n].annotations <==> key in m'[n].annotations)
          && (key in m[n].annotations ==> m'[n].annotations[key] == m[n].annotations[key]))
    && forall key | key in patch :: key in m'[n].annotations && m'[n].annotations[key] == patch[key]
  }

  /** UpdateAnnotations: again on a conflict, a few times. If it succeeds, the last step of the run is this
      annotation write, applied to the version current at that moment. */
  method UpdateAnnotations(client: Server, who: Actor, n: string, patch: Annotations) returns (ok: bool)
    requires client.Serves(who) && AllowedPatch(who, patch)
    modifies client
    ensures client.Continues()
    ensures client.OwnDid([]) || client.OwnDid([OnNs(Annotate(who, n, patch))])
    ensures ok ==> client.OwnDid([OnNs(Annotate(who, n, patch))])
    ensures client.calm ==> client.Nothing() || client.Made(OnNs(Annotate(who, n, patch)))
    ensures client.calm && client.faultless ==>
              (ok <==> n in old(client.s).namespaces)
              && (if ok then client.Made(OnNs(Annotate(who, n, patch))) else client.Nothing())
    ensures who == PoolWorker ==> PoolRely(old(client.s), client.s)
    ensures ok ==> Written(client, old(client.acts), who, n, patch)
  {
    hide Inv, IsRun, OwnOf, PoolRely, AllowedPatch, NsApply, NsEnabled, OnlyPatched;
    SelfPoolRely(client.s);
    for attempt := 0 to STEPS
      invariant client.Continues() && (who == PoolWorker ==> PoolRely(old(client.s), client.s))
      invariant client.OwnDid([]) && (client.calm ==> attempt == 0 && client.Nothing())
    {
      ghost var s0 := client.s;
      var r := TryAnnotate(client, who, n, patch);
      if who == PoolWorker {
        PoolRelyTransitive(old(client.s), s0, client.s);
      }
      if !r.Conflict? {
        return r.Ok?;
      }
    }
    ok := false;
  }

  lemma SelfPoolRely(s: State)
    ensures PoolRely(s, s)
  {
  }

  /** If the version read earlier is still the current one, so is the object read. */
  lemma CurrentIfVersion(who: Actor, s: State, t: State, n: string)
    requires Inv(s) && Rely(who, s, t) && n in s.namespaces
    ensures n in t.namespaces && t.namespaces[n].version == s.namespaces[n].version ==> t.namespaces[n] == s.namespaces[n]
  {
    InvParts(s);
  }

  lemma AnnotateStep(s: State, a: NsAction)
    requires Inv(s) && a.Annotate? && AllowedPatch(a.who, a.patch)
    ensures NsEnabled(s, a) ==> a.n in s.namespaces
    ensures a.n in s.namespaces ==>
              && NsEnabled(s, a) && NewNs(s, a) == Annotated(s.namespaces[a.n], a.patch)
              && PoolRely(s, NsApply(s, a)) && Reserved !in a.patch
              && a.n in NsApply(s, a).namespaces
              && OnlyPatched(s.namespaces, NsApply(s, a).namespaces, a.n, a.patch)
  {
    hide PoolRely, AllowedPatch, NsApply, OnlyPatched;
    if a.n in s.namespaces {
      InvParts(s);
      NamespaceStepRely(s, a);
      AnnotationOnlyPatches(s, a);
      ReservedStays(a.who, a.patch);
    }
  }

  lemma AnnotationOnlyPatches(s: State, a: NsAction)
    requires a.Annotate? && NsEnabled(s, a)
    ensures a.n in NsApply(s, a).namespaces && OnlyPatched(s.namespaces, NsApply(s, a).namespaces, a.n, a.patch)
  {
    hide NsApply, AllowedPatch;
    NsAfter(s, a);
  }

  lemma ReservedStays(who: Actor, patch: Annotations)
    requires AllowedPatch(who, patch)
    ensures Reserved !in patch
  {
  }
}
