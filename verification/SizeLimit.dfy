/** The size limit over whole runs: what raises the number of namespaces a pool has, and by how much the limit may be
    exceeded. */
module SizeLimit {
  import opened Objects
  import opened Protocol
  import opened Invariant

  // ---------------------------------------------------------- what raises it

  /** The step makes a namespace count for pool `p` that was not created by it just then. */
  predicate Revives(s: State, a: Action, p: string)
    requires Enabled(s, a)
  {
    a.OnNs? && (a.ns.Annotate? || a.ns.Claim?) && !Counted(s, p, a.ns.n) && Counted(NsApply(s, a.ns), p, a.ns.n)
  }

  /** The only two ways: "ready" written over a status that does not count, or a claim of a namespace
      that was not ready or creating in the present pool. */
  lemma WhatRevives(s: State, a: Action, p: string)
    requires Inv(s) && Enabled(s, a) && Revives(s, a, p)
    ensures var ns := s.namespaces[a.ns.n];
            && ns.pool == Some(p)
            && if a.ns.Annotate? then a.ns.patch == StatusPatch(Ready) && !HasStatus(ns, Ready) && !HasStatus(ns, Creating)
               else
                 && HeldBy(ns, PoolKind)
                 && (ns.owners[0].uid != s.pools[p].uid || !(HasStatus(ns, Ready) || HasStatus(ns, Creating)))
  {
    hide Inv;
    InvOwnership(s);
    CountsAfter(s, a.ns, p);
    var ns := s.namespaces[a.ns.n];
    if a.ns.Annotate? {
      PatchRevives(ns, a.ns.who, a.ns.patch, p, s.pools[p].uid);
    }
  }

  /** What counts after the write is the object written. */
  lemma CountsAfter(s: State, a: NsAction, p: string)
    requires OwnershipInv(s) && NsEnabled(s, a) && (a.Annotate? || a.Claim?)
    ensures a.n in s.namespaces && (p in s.pools ==> p in NsApply(s, a).pools)
    ensures Counted(NsApply(s, a), p, a.n) <==> p in s.pools && Counts(NewNs(s, a), p, s.pools[p].uid)
    ensures a.Claim? ==> HeldBy(s.namespaces[a.n], PoolKind) && NewNs(s, a).pool == s.namespaces[a.n].pool
  {
    hide NsApply, Charged, NewLedger;
    NsAfter(s, a);
    var n := a.n;
    assert NsApply(s, a).namespaces[n] == NewNs(s, a).(version := NsVersion(s, n, NewNs(s, a)));
    assert n in s.namespaces && OwnershipOf(s.ledger, n, s.namespaces[n]);
  }

  lemma PatchRevives(ns: Namespace, who: Actor, patch: Annotations, p: string, uid: nat)
    requires AllowedPatch(who, patch) && !Counts(ns, p, uid) && Counts(ns.(annotations := ns.annotations + patch), p, uid)
    ensures ns.pool == Some(p) && patch == StatusPatch(Ready) && !HasStatus(ns, Ready) && !HasStatus(ns, Creating)
  {
  }

  /** The creation loop of the pool there is adopts a namespace. */
  predicate AdoptsInto(s: State, a: Action, p: string) {
    a.OnNs? && a.ns.Adopt? && a.ns.p == p && p in s.pools && s.pools[p].uid == a.ns.uid
  }

  /** The same pool object before and after. */
  predicate SamePool(s: State, t: State, p: string) {
    p in s.pools && p in t.pools && t.pools[p].uid == s.pools[p].uid
  }

  /** A pool's namespaces become more by one, and only by an adoption into it or by a revival. */
  lemma WhatRaises(s: State, a: Action, p: string)
    requires Inv(s) && Enabled(s, a) && SamePool(s, Apply(s, a), p)
    ensures Total(Apply(s, a), p) <= Total(s, p) + 1
    ensures Total(Apply(s, a), p) > Total(s, p) <==> Revives(s, a, p) || AdoptsInto(s, a, p)
    ensures Apply(s, a).pools[p].spec.sizeLimit == s.pools[p].spec.sizeLimit
  {
    hide Inv, NsApply, PoolApply, ResApply, WorldApply, IndexApply, Total, Counted, NsEnabled, ResEnabled;
    match a
    case OnNs(x) => NsRaises(s, x, p);
    case OnPool(x) => PoolRaises(s, x, p);
    case OnRes(x) => ResAfter(s, x); SameTotal(s, Apply(s, a), p);
    case OnIndex(x) => IndexAfter(s, x); SameTotal(s, Apply(s, a), p);
    case OnWorld(x) => WorldAfter(s, x); SameTotal(s, Apply(s, a), p);
  }

  lemma SameTotal(s: State, t: State, p: string)
    requires t.namespaces == s.namespaces && SamePool(s, t, p)
    ensures Total(t, p) == Total(s, p)
  {
    assert CountedSet(t, p) == CountedSet(s, p);
  }

  lemma PoolRaises(s: State, a: PoolAction, p: string)
    requires PoolEnabled(s, a) && SamePool(s, PoolApply(s, a), p)
    ensures Total(PoolApply(s, a), p) == Total(s, p)
    ensures PoolApply(s, a).pools[p].spec.sizeLimit == s.pools[p].spec.sizeLimit
  {
    hide Total;
    PoolAfter(s, a);
    SameTotal(s, PoolApply(s, a), p);
  }

  lemma NsRaises(s: State, a: NsAction, p: string)
    requires Inv(s) && NsEnabled(s, a) && p in s.pools
    ensures Total(NsApply(s, a), p) <= Total(s, p) + 1
    ensures Total(NsApply(s, a), p) > Total(s, p) <==> Revives(s, OnNs(a), p) || AdoptsInto(s, OnNs(a), p)
    ensures NsApply(s, a).pools == s.pools
  {
    hide Inv, NsApply, NewNs, NsVersion, Counted, Total, NsEnabled;
    InvOwnership(s);
    NsAfter(s, a);
    CountChange(s, NsApply(s, a), p, a.n);
    NewlyCountedIff(s, a, p);
  }

  lemma InvOwnership(s: State)
    requires Inv(s)
    ensures OwnershipInv(s)
  {
  }

  lemma NewlyCountedIff(s: State, a: NsAction, p: string)
    requires OwnershipInv(s) && NsEnabled(s, a) && p in s.pools
    ensures !Counted(s, p, a.n) && Counted(NsApply(s, a), p, a.n) <==> Revives(s, OnNs(a), p) || AdoptsInto(s, OnNs(a), p)
  {
    hide NsApply, OwnerGone, UnderLimit, Charged;
    NsAfter(s, a);
    if !a.FinishNs? {
      assert NsApply(s, a).namespaces[a.n] == NewNs(s, a).(version := NsVersion(s, a.n, NewNs(s, a)));
    }
  }

  // ------------------------------------------------------- one step, and the limit

  /** A pool within its limit exceeds it in a step iff it was full and the step revives a namespace, or adopts one
      after another was revived since the pool was counted. Undisturbed, only the revival is left. */
  lemma LimitExceededIff(s: State, a: Action, p: string, limit: int)
    requires Inv(s) && Enabled(s, a) && SamePool(s, Apply(s, a), p)
    requires s.pools[p].spec.sizeLimit == Some(limit) && Total(s, p) <= limit
    ensures Total(Apply(s, a), p) > limit <==> Total(s, p) == limit && (Revives(s, a, p) || AdoptsInto(s, a, p))
    ensures Total(s, p) == limit && AdoptsInto(s, a, p) ==> Revived(s, p) > 0
    ensures Undisturbed(s, a) ==> (Total(Apply(s, a), p) > limit <==> Total(s, p) == limit && Revives(s, a, p))
  {
    hide Inv, Apply, Total, Revived, Revives, OwnerGone;
    WhatRaises(s, a, p);
  }

  // -------------------------------------------------------------- whole runs

  /** The revivals from step `c` up to step `i`. */
  ghost function Revivals(run: seq<State>, acts: seq<Action>, p: string, c: nat, i: nat): nat
    requires IsRun(run, acts) && c <= i <= |acts|
    decreases i
  {
    if i == c then 0
    else Revivals(run, acts, p, c, i - 1) + (if Revives(run[i - 1], acts[i - 1], p) then 1 else 0)
  }

  ghost predicate SamePoolThroughout(run: seq<State>, p: string, c: nat, i: nat)
    requires c <= i < |run|
  {
    forall j | c <= j <= i :: SamePool(run[c], run[j], p)
  }

  function Max(a: int, b: int): int {
    if a < b then b else a
  }

  /** Since any count of its namespaces, a pool has exceeded its limit, or what it was over it then, by no more than the
      revivals seen since: whatever the interleaving and wherever calls failed. */
  lemma SizeLimitHolds(run: seq<State>, acts: seq<Action>, p: string, limit: int, c: nat, i: nat)
    requires IsRun(run, acts) && Inv(run[0]) && c < i <= |acts| && acts[c] == OnPool(CountPool(p))
    requires SamePoolThroughout(run, p, c, i) && run[c].pools[p].spec.sizeLimit == Some(limit)
    ensures Total(run[i], p) <= Max(limit, Total(run[c], p)) + Revivals(run, acts, p, c, i)
  {
    hide Total, Revives, Enabled, Apply;
    SlackSinceCount(run, acts, p, c, i);
    RunKeepsInv(run, acts, i);
    assert SamePool(run[c], run[i], p);
  }

  lemma {:induction false} SlackSinceCount(run: seq<State>, acts: seq<Action>, p: string, c: nat, i: nat)
    requires IsRun(run, acts) && Inv(run[0]) && c < i <= |acts| && acts[c] == OnPool(CountPool(p))
    requires SamePoolThroughout(run, p, c, i)
    ensures Slack(run[i], p) <= Excess(run[c], p) + Revivals(run, acts, p, c, i)
    ensures run[i].pools[p].spec.sizeLimit == run[c].pools[p].spec.sizeLimit
    decreases i
  {
    hide Inv, Enabled, Apply, Revives, Slack, Excess;
    RunKeepsInv(run, acts, i - 1);
    assert SamePool(run[c], run[i - 1], p) && SamePool(run[c], run[i], p);
    if i == c + 1 {
      CountStep(run[c], p);
    } else {
      SlackSinceCount(run, acts, p, c, i - 1);
      SlackStep(run[i - 1], acts[i - 1], p);
    }
  }

  /** `Revived` is the number of revivals since the pool was last counted. */
  lemma {:induction false} RevivedSinceCount(run: seq<State>, acts: seq<Action>, p: string, c: nat, i: nat)
    requires IsRun(run, acts) && Inv(run[0]) && c < i <= |acts| && acts[c] == OnPool(CountPool(p))
    requires SamePoolThroughout(run, p, c, i) && forall j | c < j < i :: acts[j] != OnPool(CountPool(p))
    ensures Revived(run[i], p) == Revivals(run, acts, p, c, i)
    decreases i
  {
    hide Inv, Enabled, Apply, Revives, Revived;
    RunKeepsInv(run, acts, i - 1);
    assert SamePool(run[c], run[i - 1], p) && SamePool(run[c], run[i], p);
    if i == c + 1 {
      CountStep(run[c], p);
      NoRevival(run[c], p);
    } else {
      RevivedSinceCount(run, acts, p, c, i - 1);
      RevivedStep(run[i - 1], acts[i - 1], p);
    }
  }

  lemma NoRevival(s: State, p: string)
    requires p in s.pools
    ensures !Revives(s, OnPool(CountPool(p)), p)
  {
  }

  lemma RevivedStep(s: State, a: Action, p: string)
    requires Inv(s) && Enabled(s, a) && SamePool(s, Apply(s, a), p) && a != OnPool(CountPool(p))
    ensures Revived(Apply(s, a), p) == Revived(s, p) + (if Revives(s, a, p) then 1 else 0)
  {
    hide NsApply, PoolApply, ResApply, WorldApply, IndexApply;
    match a
    case OnNs(x) => NsAfter(s, x); NsSlackStep(s, x, p);
    case OnPool(x) => OtherPoolStep(s, x, p);
    case OnRes(x) => ResAfter(s, x);
    case OnIndex(x) => IndexAfter(s, x);
    case OnWorld(x) => WorldAfter(s, x);
  }

  lemma OtherPoolStep(s: State, a: PoolAction, p: string)
    requires PoolEnabled(s, a) && a != CountPool(p) && p in s.pools
    ensures Revived(PoolApply(s, a), p) == Revived(s, p)
  {
  }

  lemma CountStep(s: State, p: string)
    requires p in s.pools
    ensures var a := OnPool(CountPool(p));
            && Enabled(s, a) && Apply(s, a).pools == s.pools
            && Slack(Apply(s, a), p) == Excess(s, p) && Revived(Apply(s, a), p) == 0
  {
    var t := PoolApply(s, CountPool(p));
    assert CountedSet(t, p) == CountedSet(t.(slack := s.slack), p) == CountedSet(s, p);
  }

  lemma SlackStep(s: State, a: Action, p: string)
    requires Inv(s) && Enabled(s, a) && SamePool(s, Apply(s, a), p)
    ensures Slack(Apply(s, a), p) <= Slack(s, p) + (if Revives(s, a, p) then 1 else 0)
    ensures Apply(s, a).pools[p].spec.sizeLimit == s.pools[p].spec.sizeLimit
  {
    hide NsApply, PoolApply, ResApply, WorldApply, IndexApply;
    match a
    case OnNs(x) => NsAfter(s, x); NsSlackStep(s, x, p);
    case OnPool(x) => PoolSlackStep(s, x, p);
    case OnRes(x) => ResAfter(s, x);
    case OnIndex(x) => IndexAfter(s, x);
    case OnWorld(x) => WorldAfter(s, x);
  }

  lemma NsSlackStep(s: State, a: NsAction, p: string)
    requires NsEnabled(s, a)
    ensures Slack(NsApply(s, a), p) == Slack(s, p) + (if Revives(s, OnNs(a), p) then 1 else 0)
    ensures Revived(NsApply(s, a), p) == Revived(s, p) + (if Revives(s, OnNs(a), p) then 1 else 0)
  {
    hide NsApply;
    NsAfter(s, a);
    if a.Annotate? || a.Claim? {
      var ns := NewNs(s, a);
      assert NsApply(s, a).namespaces[a.n] == ns.(version := NsVersion(s, a.n, ns));
      assert p in s.pools ==> Counted(NsApply(s, a), p, a.n) == Counts(ns, p, s.pools[p].uid);
    }
  }

  lemma PoolSlackStep(s: State, a: PoolAction, p: string)
    requires LimitInv(s) && PoolEnabled(s, a) && SamePool(s, PoolApply(s, a), p)
    ensures Slack(PoolApply(s, a), p) <= Slack(s, p)
    ensures PoolApply(s, a).pools[p].spec.sizeLimit == s.pools[p].spec.sizeLimit
  {
    if a.CountPool? {
      CountStep(s, a.p);
    }
  }

  // ------------------------------------------------------ undisturbed passes

  /** "ready" is written over a status that does not count. */
  predicate ReadyOverFault(s: State, a: Action, p: string) {
    && a.OnNs? && a.ns.Annotate? && a.ns.patch == StatusPatch(Ready) && a.ns.n in s.namespaces
    && var ns := s.namespaces[a.ns.n];
       ns.pool == Some(p) && !HasStatus(ns, Ready) && !HasStatus(ns, Creating)
  }

  /** Every unreserved namespace labelled `p` is owned by the pool object there is. */
  ghost predicate NoLeftovers(s: State, p: string) {
    forall n | n in s.namespaces :: s.namespaces[n].pool == Some(p) && HeldBy(s.namespaces[n], PoolKind) ==>
      p in s.pools && s.namespaces[n].owners[0].uid == s.pools[p].uid
  }

  /** A pool at or below its limit stays there while passes are undisturbed, no namespace is left over from an earlier
      pool of that name, and "ready" is not written over an error or a deletion, whatever happened before. */
  lemma {:induction false} SizeLimitHoldsUndisturbed(run: seq<State>, acts: seq<Action>, p: string, limit: int, c: nat,
      i: nat)
    requires IsRun(run, acts) && Inv(run[0]) && c <= i <= |acts|
    requires SamePoolThroughout(run, p, c, i) && run[c].pools[p].spec.sizeLimit == Some(limit)
    requires Total(run[c], p) <= limit
    requires forall j {:trigger acts[j]} | c <= j < i :: Undisturbed(run[j], acts[j]) && !ReadyOverFault(run[j], acts[j], p)
    requires forall j {:trigger run[j]} | c <= j < i :: NoLeftovers(run[j], p)
    ensures Total(run[i], p) <= limit && run[i].pools[p].spec.sizeLimit == Some(limit)
    decreases i
  {
    hide Inv, Enabled, Apply, Revives, Undisturbed, ReadyOverFault, NoLeftovers, Total;
    assert SamePool(run[c], run[i], p);
    if c < i {
      assert SamePool(run[c], run[i - 1], p) && NoLeftovers(run[i - 1], p);
      SizeLimitHoldsUndisturbed(run, acts, p, limit, c, i - 1);
      RunKeepsInv(run, acts, i - 1);
      WhatRaises(run[i - 1], acts[i - 1], p);
      NotRevived(run[i - 1], acts[i - 1], p);
      LimitExceededIff(run[i - 1], acts[i - 1], p, limit);
    }
  }

  lemma NotRevived(s: State, a: Action, p: string)
    requires Inv(s) && Enabled(s, a) && Undisturbed(s, a) && !ReadyOverFault(s, a, p) && NoLeftovers(s, p)
    ensures !Revives(s, a, p)
  {
    hide Inv, NsApply, NewNs, OwnerGone, UnderLimit, BelowLimit;
    if Revives(s, a, p) {
      WhatRevives(s, a, p);
      assert false;
    }
  }
}
