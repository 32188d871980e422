/** The API server as a controller sees it: calls that may fail, writes that are refused on a stale
    version, and everyone else's steps between any two calls. */
module ApiServer {
  import opened Objects
  import opened Protocol
  import opened Invariant
  import opened Evolution
  import opened Interference
  import opened Execution

  // ------------------------------------------------------------- listings

  datatype Item = Item(name: string, ns: Namespace)

  /** `order` lists every namespace there is, each once. */
  predicate Covers(order: seq<string>, namespaces: map<string, Namespace>) {
    NoDup(order) && forall n | n in namespaces :: n in order
  }

  /** The namespaces labelled with pool `p`, in the given order. */
  function Listing(namespaces: map<string, Namespace>, p: string, order: seq<string>): seq<Item> {
    if order == [] then []
    else
      (if order[0] in namespaces && namespaces[order[0]].pool == Some(p) then [Item(order[0], namespaces[order[0]])] else [])
      + Listing(namespaces, p, order[1..])
  }

  function Names(items: seq<Item>): seq<string> {
    seq(|items|, i requires 0 <= i < |items| => items[i].name)
  }

  /** `items` are exactly the namespaces labelled with pool `p`, each once. */
  ghost predicate Lists(namespaces: map<string, Namespace>, p: string, items: seq<Item>) {
    && NoDup(Names(items))
    && (forall i | 0 <= i < |items| ::
          items[i].name in namespaces && namespaces[items[i].name] == items[i].ns && items[i].ns.pool == Some(p))
    && (forall n | n in namespaces && namespaces[n].pool == Some(p) :: Item(n, namespaces[n]) in items)
  }

  lemma ListingMembers(namespaces: map<string, Namespace>, p: string, order: seq<string>)
    requires NoDup(order)
    ensures var items := Listing(namespaces, p, order);
      && NoDup(Names(items))
      && (forall i | 0 <= i < |items| :: items[i].name in order && items[i].name in namespaces
                                         && namespaces[items[i].name] == items[i].ns && items[i].ns.pool == Some(p))
      && (forall n | n in order && n in namespaces && namespaces[n].pool == Some(p) :: Item(n, namespaces[n]) in items)
  {
    ListingSound(namespaces, p, order);
    ListingComplete(namespaces, p, order);
    ListingOnce(namespaces, p, order);
  }

  lemma {:induction false} ListingSound(namespaces: map<string, Namespace>, p: string, order: seq<string>)
    ensures var items := Listing(namespaces, p, order);
            && |items| <= |order|
            && forall i | 0 <= i < |items| :: items[i].name in order && items[i].name in namespaces
                                              && namespaces[items[i].name] == items[i].ns && items[i].ns.pool == Some(p)
  {
    if order != [] {
      var n, rest, items := order[0], Listing(namespaces, p, order[1..]), Listing(namespaces, p, order);
      ListingSound(namespaces, p, order[1..]);
      assert forall i | 0 <= i < |rest| :: rest[i].name in order[1..];
      assert forall x | x in order[1..] :: x in order;
      assert items == rest || (n in namespaces && namespaces[n].pool == Some(p) && items == [Item(n, namespaces[n])] + rest);
    }
  }

  lemma {:induction false} ListingComplete(namespaces: map<string, Namespace>, p: string, order: seq<string>)
    ensures forall n | n in order && n in namespaces && namespaces[n].pool == Some(p) ::
              Item(n, namespaces[n]) in Listing(namespaces, p, order)
  {
    if order != [] {
      ListingComplete(namespaces, p, order[1..]);
      assert order == [order[0]] + order[1..];
    }
  }

  lemma {:induction false} ListingOnce(namespaces: map<string, Namespace>, p: string, order: seq<string>)
    requires NoDup(order)
    ensures NoDup(Names(Listing(namespaces, p, order)))
  {
    if order != [] {
      var n, rest := order[0], Listing(namespaces, p, order[1..]);
      TailNoDup(order);
      ListingOnce(namespaces, p, order[1..]);
      ListingSound(namespaces, p, order[1..]);
      assert forall i | 0 <= i < |rest| :: rest[i].name in order[1..] && rest[i].name != n;
      if n in namespaces && namespaces[n].pool == Some(p) {
        ConsNoDup(Item(n, namespaces[n]), rest);
        assert Listing(namespaces, p, order) == [Item(n, namespaces[n])] + rest;
      } else {
        assert Listing(namespaces, p, order) == rest;
      }
    }
  }

  lemma TailNoDup(order: seq<string>)
    requires order != [] && NoDup(order)
    ensures NoDup(order[1..]) && order[0] !in order[1..]
  {
    assert forall i | 0 <= i < |order| - 1 :: order[1..][i] == order[i + 1];
  }

  lemma ConsNoDup(x: Item, rest: seq<Item>)
    requires NoDup(Names(rest)) && forall i | 0 <= i < |rest| :: rest[i].name != x.name
    ensures NoDup(Names([x] + rest))
  {
    assert Names([x] + rest) == [x.name] + Names(rest);
  }

  lemma NoDupAppend(a: seq<string>, b: seq<string>)
    requires NoDup(a) && NoDup(b) && forall n | n in a :: n !in b
    ensures NoDup(a + b)
  {
    var c := a + b;
    forall i, j | 0 <= i < j < |c| ensures c[i] != c[j] {
      if i < |a| && |a| <= j {
        assert c[i] in a && c[j] in b;
      } else if |a| <= i {
        assert c[i] == b[i - |a|] && c[j] == b[j - |a|];
      }
    }
  }

  lemma NothingListed(names: seq<string>)
    requires forall n :: n !in names
    ensures names == []
  {
    if names != [] {
      HeadListed(names);
    }
  }

  lemma HeadListed(names: seq<string>)
    requires names != []
    ensures names[0] in names
  {
  }

  datatype Cluster = Cluster(name: string, terminating: bool)

  /** The clusters of a namespace, in the given order. */
  function ClusterListing(clusters: map<string, bool>, order: seq<string>): seq<Cluster> {
    if order == [] then []
    else
      (if order[0] in clusters then [Cluster(order[0], clusters[order[0]])] else [])
      + ClusterListing(clusters, order[1..])
  }

  lemma {:induction false} ClusterListingMembers(clusters: map<string, bool>, order: seq<string>)
    ensures forall c :: c in ClusterListing(clusters, order) <==>
                          c.name in order && c.name in clusters && clusters[c.name] == c.terminating
  {
    if order != [] {
      ClusterListingMembers(clusters, order[1..]);
      assert order == [order[0]] + order[1..];
    }
  }

  /** `listed` are exactly these clusters. */
  ghost predicate ListsClusters(clusters: map<string, bool>, listed: seq<Cluster>) {
    forall c :: c in listed <==> c.name in clusters && clusters[c.name] == c.terminating
  }

  method InOrder(clusters: map<string, bool>, order: seq<string>) returns (listed: seq<Cluster>)
    ensures ListsClusters(clusters, listed)
    ensures (forall c | c in clusters :: c in order) ==> listed == ClusterListing(clusters, order)
  {
    var more := Enumerate(clusters.Keys - (set c | c in order));
    ClusterListingMembers(clusters, order + more);
    if forall c | c in clusters :: c in order {
      assert forall c :: c !in more;
      NothingListed(more);
      assert order + more == order;
    }
    listed := ClusterListing(clusters, order + more);
  }

  lemma NoneListed(s: State, n: string)
    requires ListsClusters(ClustersIn(s, n), [])
    ensures NoClusters(s, n)
  {
    var m := ClustersIn(s, n);
    assert forall c | c in m :: Cluster(c, m[c]) !in [];
    assert m.Keys == {};
  }

  lemma ListedIff(s: State, n: string, listed: seq<Cluster>)
    requires ListsClusters(ClustersIn(s, n), listed)
    ensures NoClusters(s, n) <==> !s.clusterCrd || listed == []
  {
    if listed == [] {
      NoneListed(s, n);
    } else {
      assert listed[0] in listed;
    }
  }

  function ClustersIn(s: State, n: string): map<string, bool> {
    if n in s.clusters then s.clusters[n] else map[]
  }

  /** What the API server stores for a status write: the rest of the object is left alone. */
  function StatusWritten(r: Reservation, obj: Reservation): Reservation {
    r.(status := obj.status.(expiration := Persist(obj.status.expiration)))
  }

  /** What it stores for any other write: the status is left alone. */
  function MetaWritten(r: Reservation, obj: Reservation): Reservation {
    r.(finalizer := obj.finalizer)
  }

  // ----------------------------------------------------------- the server

  /** The steps that are `who`'s. */
  function OwnOf(acts: seq<Action>, who: Actor): seq<Action> {
    if acts == [] then []
    else OwnOf(acts[..|acts| - 1], who) + if ActorOf(acts[|acts| - 1]) == who then [acts[|acts| - 1]] else []
  }

  lemma OwnOfSnoc(acts: seq<Action>, a: Action, who: Actor)
    ensures OwnOf(acts + [a], who) == if ActorOf(a) == who then OwnOf(acts, who) + [a] else OwnOf(acts, who)
  {
    assert (acts + [a])[..|acts|] == acts;
  }

  lemma {:induction false} OwnOfAppend(a: seq<Action>, b: seq<Action>, who: Actor)
    ensures OwnOf(a + b, who) == OwnOf(a, who) + OwnOf(b, who)
    decreases |b|
  {
    if b == [] {
      assert a + b == a;
    } else {
      var init, last := b[..|b| - 1], b[|b| - 1];
      OwnOfAppend(a, init, who);
      assert a + b == (a + init) + [last];
      OwnOfSnoc(a + init, last, who);
    }
  }

  lemma {:induction false} OwnOfMember(acts: seq<Action>, i: nat, who: Actor)
    requires i < |acts| && ActorOf(acts[i]) == who
    ensures acts[i] in OwnOf(acts, who)
    decreases |acts|
  {
    if i < |acts| - 1 {
      OwnOfMember(acts[..|acts| - 1], i, who);
    }
  }

  /** Two steps of one actor come in this order among its own. */
  lemma OwnOfTwo(acts: seq<Action>, i: nat, j: nat, who: Actor) returns (i': nat, j': nat)
    requires i < j < |acts| && ActorOf(acts[i]) == ActorOf(acts[j]) == who
    ensures i' < j' < |OwnOf(acts, who)| && OwnOf(acts, who)[i'] == acts[i] && OwnOf(acts, who)[j'] == acts[j]
  {
    hide OwnOf;
    var a, b := acts[..j], acts[j..];
    assert acts == a + b && a[i] == acts[i] && b[0] == acts[j];
    OwnOfAppend(a, b, who);
    OwnOfMember(a, i, who);
    OwnOfMember(b, 0, who);
    i' :| 0 <= i' < |OwnOf(a, who)| && OwnOf(a, who)[i'] == acts[i];
    var p :| 0 <= p < |OwnOf(b, who)| && OwnOf(b, who)[p] == acts[j];
    j' := |OwnOf(a, who)| + p;
  }

  lemma ForeignIsNotOwn(who: Actor, a: Action)
    requires Foreign(who, a)
    ensures ActorOf(a) != who
  {
  }

  lemma OutsideDisturbsNothing(s: State, a: Action)
    requires ActorOf(a) == Outside || a == OnIndex(Restart)
    ensures Undisturbed(s, a)
  {
  }

  predicate Longer<T(==)>(a: seq<T>, b: seq<T>) {
    a <= b
  }

  lemma EvenLonger<T>(a: seq<T>, b: seq<T>, c: seq<T>)
    requires Longer(a, b) && Longer(b, c)
    ensures Longer(a, c)
  {
  }

  lemma Here(c: Server)
    ensures Longer(c.acts, c.acts) && Longer(c.run, c.run) && Longer(c.own, c.own)
    ensures QuietFrom(c.run, c.acts, |c.acts|)
  {
  }

  /** What went on from a server's past to another moment, and from there to now, went on to now. */
  lemma Onwards(c: Server, acts0: seq<Action>, run0: seq<State>, own0: seq<Action>, acts1: seq<Action>, run1: seq<State>,
      own1: seq<Action>)
    requires Longer(acts0, acts1) && Longer(run0, run1) && Longer(own0, own1)
    requires Longer(acts1, c.acts) && Longer(run1, c.run) && Longer(own1, c.own)
    ensures Longer(acts0, c.acts) && Longer(run0, c.run) && Longer(own0, c.own)
  {
    EvenLonger(acts0, acts1, c.acts);
    EvenLonger(run0, run1, c.run);
    EvenLonger(own0, own1, c.own);
  }

  /** From step `i` on every step is undisturbed. */
  ghost predicate QuietFrom(run: seq<State>, acts: seq<Action>, i: nat) {
    forall m {:trigger acts[m]} | i <= m < |acts| && m < |run| :: Undisturbed(run[m], acts[m])
  }

  lemma NothingQuiet(run: seq<State>, acts: seq<Action>)
    ensures QuietFrom(run, acts, |acts|)
  {
  }

  lemma QuietOn(run: seq<State>, acts: seq<Action>, run': seq<State>, acts': seq<Action>, i: nat)
    requires Longer(run, run') && Longer(acts, acts') && |run| == |acts| + 1
    requires QuietFrom(run, acts, i) && QuietFrom(run', acts', |acts|)
    ensures QuietFrom(run', acts', i)
  {
    hide Undisturbed;
  }

  /** Nor does one more quiet step, or none. */
  lemma QuietAfter(c: Server, run1: seq<State>, acts1: seq<Action>, i: nat, a: Action)
    requires |run1| == |acts1| + 1 && QuietFrom(run1, acts1, i)
    requires Undisturbed(run1[|acts1|], a)
    requires (c.acts == acts1 && c.run == run1) || (c.acts == acts1 + [a] && exists t :: c.run == run1 + [t])
    ensures QuietFrom(c.run, c.acts, i)
  {
    hide Undisturbed;
  }

  class Server {
    var s: State
    ghost var run: seq<State>       // every state so far
    ghost var acts: seq<Action>     // and the steps between them
    ghost var worker: Actor         // whose calls these are
    ghost var own: seq<Action>      // the steps that are this worker's
    ghost var calm: bool            // no foreign step so far
    ghost var faultless: bool       // no failed call so far

    constructor (s0: State)
      requires Inv(s0)
      ensures Valid() && s == s0 && run == [s0] && acts == [] && calm && faultless
    {
      s, run, acts, worker, own, calm, faultless := s0, [s0], [], Outside, [], true, true;
    }

    ghost predicate Valid()
      reads `s, `run, `acts, `worker, `own
    {
      && IsRun(run, acts) && |run| == |acts| + 1 && run[|acts|] == s && Inv(run[0]) && Inv(s)
      && own == OwnOf(acts, worker)
    }

    ghost predicate Serves(who: Actor)
      reads `s, `run, `acts, `worker, `own
    {
      Valid() && Inv(s) && |run| == |acts| + 1 && worker == who
    }

    /** The run went on from where it was. */
    twostate predicate Continues()
      reads this
    {
      && Valid() && Inv(s) && |run| == |acts| + 1 && worker == old(worker)
      && Longer(old(acts), acts) && Longer(old(run), run) && Longer(old(own), own)
      && (calm ==> old(calm)) && (faultless ==> old(faultless))
    }

    /** The run went on by exactly these steps. */
    twostate predicate Did(new steps: seq<Action>)
      reads this
    {
      acts == old(acts) + steps
    }

    /** Of the steps since, these are the worker's. */
    twostate predicate OwnDid(new steps: seq<Action>)
      reads this
    {
      own == old(own) + steps
    }

    /** The worker's steps since are the first few of these. */
    twostate predicate OwnPrefix(new steps: seq<Action>)
      reads this
    {
      old(own) <= own <= old(own) + steps
    }

    /** The steps since touched no claimed namespace and claimed only ready ones. */
    twostate predicate Undisturbing()
      reads this
    {
      QuietFrom(run, acts, |old(acts)|)
    }

    twostate lemma Evolved()
      requires old(Valid()) && Continues()
      ensures Evolves(old(s), s)
    {
      RunEvolves(run, acts, |old(acts)|, |acts|);
    }

    /** Nothing at all is undisturbing, and so is one step that is. */
    twostate lemma QuietStep(new a: Action)
      requires old(Valid()) && (Nothing() || (Made(a) && Undisturbed(old(s), a)))
      ensures Undisturbing()
    {
      hide Inv, IsRun, OwnOf, Enabled, Apply, Undisturbed;
    }

    twostate lemma OwnNow()
      requires old(Valid()) && Continues()
      ensures own == OwnOf(acts, worker) && old(own) == OwnOf(old(acts), worker)
    {
    }

    /** The state is then what those steps make of the old one. */
    twostate lemma Executed(new steps: seq<Action>)
      requires old(Valid()) && Continues() && Did(steps)
      ensures Exec(old(s), steps) == Some(s)
    {
      hide Inv;
      RunExec(run, acts, |old(acts)|, |acts|);
      assert acts[|old(acts)|..|acts|] == steps;
    }

    /** One step: the only place where the state changes. */
    method Commit(a: Action)
      requires Valid() && Enabled(s, a)
      modifies this`s, this`run, this`acts, this`own
      ensures Continues() && Did([a]) && OwnDid(if ActorOf(a) == worker then [a] else [])
      ensures s == Apply(old(s), a) && run == old(run) + [s]
      ensures Evolves(old(s), s)
    {
      hide Inv, Enabled, Apply, Evolves, OwnOf;
      StepKeepsInv(s, a);
      StepEvolves(s, a);
      OwnOfSnoc(acts, a, worker);
      s := Apply(s, a);
      run := run + [s];
      acts := acts + [a];
      own := OwnOf(acts, worker);
    }

    /** From here on `who` makes the calls, and it is asked again whether anything comes in between. */
    ghost method Begin(who: Actor)
      requires Valid()
      modifies this`worker, this`own, this`calm
      ensures Serves(who) && calm
    {
      worker, own, calm := who, OwnOf(acts, who), true;
    }

    /** Any number of steps of users, the cluster and garbage collection, and restarts of the operator. */
    method TimePasses()
      requires Valid()
      modifies this`s, this`run, this`acts, this`own
      ensures Continues() && calm == old(calm) && Undisturbing()
    {
      hide Inv, IsRun, OwnOf, Enabled, Apply, Evolves, Undisturbed;
      var steps: nat := *;
      while steps > 0
        invariant Continues() && calm == old(calm) && Undisturbing()
        decreases steps
      {
        var a: Action := *;
        if Enabled(s, a) && (ActorOf(a) == Outside || a == OnIndex(Restart)) {
          OutsideDisturbsNothing(s, a);
          Commit(a);
        }
        steps := steps - 1;
      }
    }

    /** Any number of steps of anyone but `who`. */
    method Interfere(who: Actor)
      requires Serves(who)
      modifies this`s, this`run, this`acts, this`own, this`calm
      ensures Continues() && OwnDid([])
      ensures Rely(who, old(s), s)
      ensures calm ==> s == old(s) && acts == old(acts) && run == old(run)
    {
      hide Inv, Enabled, Apply, Evolves, Rely, Foreign, VersionsInv, OwnOf, IsRun;
      var steps: nat := *;
      InvParts(s);
      RelyReflexive(who, s);
      while steps > 0
        invariant Continues() && OwnDid([]) && Rely(who, old(s), s)
        invariant calm ==> s == old(s) && acts == old(acts) && run == old(run)
        decreases steps
      {
        var a: Action := *;
        if Enabled(s, a) && Foreign(who, a) {
          ForeignStepRely(who, s, a);
          ForeignIsNotOwn(who, a);
          InvParts(s);
          InvParts(old(s));
          RelyTransitive(who, old(s), s, Apply(s, a));
          Commit(a);
          calm := false;
        }
        steps := steps - 1;
      }
    }

    /** A call may fail at any time. */
    method Fails() returns (failed: bool)
      modifies this`faultless
      ensures faultless == (old(faultless) && !failed)
    {
      failed := *;
      if failed {
        faultless := false;
      }
    }

    // ---- reads

    method GetNamespace(n: string) returns (r: Reply<Namespace>)
      modifies this`faultless
      ensures r.Ok? ==> n in s.namespaces && r.value == s.namespaces[n]
      ensures r.NotFound? ==> n !in s.namespaces
      ensures !r.Conflict? && faultless == (old(faultless) && !r.Failed?)
    {
      var f := Fails();
      r := if f then Failed else if n in s.namespaces then Ok(s.namespaces[n]) else NotFound;
    }

    method GetReservation(k: string) returns (r: Reply<Reservation>)
      modifies this`faultless
      ensures r.Ok? ==> k in s.reservations && r.value == s.reservations[k]
      ensures r.NotFound? ==> k !in s.reservations
      ensures !r.Conflict? && faultless == (old(faultless) && !r.Failed?)
    {
      var f := Fails();
      r := if f then Failed else if k in s.reservations then Ok(s.reservations[k]) else NotFound;
    }

    method GetPool(p: string) returns (r: Reply<Pool>)
      modifies this`faultless
      ensures r.Ok? ==> p in s.pools && r.value == s.pools[p]
      ensures r.NotFound? ==> p !in s.pools
      ensures !r.Conflict? && faultless == (old(faultless) && !r.Failed?)
    {
      var f := Fails();
      r := if f then Failed else if p in s.pools then Ok(s.pools[p]) else NotFound;
    }

    method GetEnv(n: string) returns (r: Reply<ClowdEnv>)
      modifies this`faultless
      ensures r.Ok? ==> n in s.envs && r.value == s.envs[n]
      ensures r.NotFound? ==> n !in s.envs
      ensures !r.Conflict? && faultless == (old(faultless) && !r.Failed?)
    {
      var f := Fails();
      r := if f then Failed else if n in s.envs then Ok(s.envs[n]) else NotFound;
    }

    /** The namespaces of a pool, in the order asked for as far as that goes. */
    method ListNamespaces(p: string, order: seq<string>) returns (r: Reply<seq<Item>>)
      requires NoDup(order)
      modifies this`faultless
      ensures r.Ok? ==> Lists(s.namespaces, p, r.value)
      ensures r.Ok? && Covers(order, s.namespaces) ==> r.value == Listing(s.namespaces, p, order)
      ensures (r.Ok? || r.Failed?) && faultless == (old(faultless) && !r.Failed?)
    {
      var f := Fails();
      if f {
        return Failed;
      }
      var more := Enumerate(s.namespaces.Keys - (set n | n in order));
      NoDupAppend(order, more);
      ListingMembers(s.namespaces, p, order + more);
      assert forall n | n in s.namespaces :: n in order + more;
      if Covers(order, s.namespaces) {
        assert forall n :: n !in more;
        NothingListed(more);
        assert order + more == order;
      }
      r := Ok(Listing(s.namespaces, p, order + more));
    }

    /** All reservations, by name. */
    method ListReservations() returns (r: Reply<map<string, Reservation>>)
      modifies this`faultless
      ensures r.Ok? ==> r.value == s.reservations
      ensures (r.Ok? || r.Failed?) && faultless == (old(faultless) && !r.Failed?)
    {
      var f := Fails();
      r := if f then Failed else Ok(s.reservations);
    }

    // ---- writes
    //
    // A write names the protocol step it is; the precondition asks that, if the version it carries is still
    // current, that step is allowed and writes just this object. A failed write may or may not have happened.

    twostate predicate Nothing()
      reads this
    {
      s == old(s) && acts == old(acts) && run == old(run) && own == old(own)
    }

    twostate predicate Made(new a: Action)
      reads this
    {
      && Enabled(old(s), a) && s == Apply(old(s), a) && acts == old(acts) + [a] && run == old(run) + [s]
      && own == old(own) + if ActorOf(a) == worker then [a] else []
    }

    method Attempt(a: Action) returns (failed: bool)
      requires Valid() && Enabled(s, a)
      modifies this`s, this`run, this`acts, this`own, this`faultless
      ensures Continues() && calm == old(calm) && faultless == (old(faultless) && !failed)
      ensures Made(a) || (failed && Nothing())
    {
      hide Inv, IsRun, OwnOf, Apply, Enabled, Evolves;
      failed := Fails();
      var lost: bool := *;
      if !(failed && lost) {
        Commit(a);
      }
    }

    method UpdateNamespace(n: string, obj: Namespace, a: NsAction) returns (r: Reply<()>)
      requires Valid() && a.n == n && !a.FinishNs?
      requires n in s.namespaces && s.namespaces[n].version == obj.version ==>
                 NsEnabled(s, a) && NewNs(s, a).(version := obj.version) == obj
      modifies this`s, this`run, this`acts, this`own, this`faultless
      ensures Continues() && calm == old(calm) && faultless == (old(faultless) && !r.Failed?)
      ensures r.Ok? ==> Made(OnNs(a))
      ensures r.NotFound? ==> Nothing() && n !in s.namespaces
      ensures r.Conflict? ==> Nothing() && n in s.namespaces && s.namespaces[n].version != obj.version
      ensures r.Failed? ==> Nothing() || Made(OnNs(a))
      ensures Nothing() || (n in old(s).namespaces && old(s).namespaces[n].version == obj.version)
    {
      hide Inv, IsRun, OwnOf, NsApply, NsEnabled;
      if n in s.namespaces && s.namespaces[n].version == obj.version {
        var failed := Attempt(OnNs(a));
        r := if failed then Failed else Ok(());
      } else {
        var failed := Fails();
        r := if failed then Failed else if n in s.namespaces then Conflict else NotFound;
      }
    }

    method CreateNamespace(n: string) returns (r: Reply<()>)
      requires Valid() && n !in s.created && n != ""
      modifies this`s, this`run, this`acts, this`own, this`faultless
      ensures Continues() && calm == old(calm) && faultless == (old(faultless) && !r.Failed?)
      ensures r.Ok? ==> Made(OnNs(CreateNs(n)))
      ensures r.Failed? ==> Nothing() || Made(OnNs(CreateNs(n)))
      ensures r.Ok? || r.Failed?
    {
      var failed := Attempt(OnNs(CreateNs(n)));
      r := if failed then Failed else Ok(());
    }

    /** Deletes by name, whatever the version. */
    method DeleteNamespace(n: string) returns (r: Reply<()>)
      requires Valid()
      modifies this`s, this`run, this`acts, this`own, this`faultless
      ensures Continues() && calm == old(calm) && faultless == (old(faultless) && !r.Failed?)
      ensures r.Ok? ==> Made(OnNs(DeleteNs(n)))
      ensures r.NotFound? ==> Nothing() && n !in s.namespaces
      ensures r.Failed? ==> Nothing() || Made(OnNs(DeleteNs(n)))
      ensures !r.Conflict?
    {
      hide Inv, IsRun, OwnOf, NsApply;
      if n in s.namespaces {
        var failed := Attempt(OnNs(DeleteNs(n)));
        r := if failed then Failed else Ok(());
      } else {
        var failed := Fails();
        r := if failed then Failed else NotFound;
      }
    }

    /** A ClowdEnvironment is created once per namespace name. */
    method CreateEnv(n: string, env: ClowdEnv) returns (r: Reply<()>)
      requires Valid() && n in s.created
      modifies this`s, this`run, this`acts, this`own, this`faultless
      ensures Continues() && calm == old(calm) && faultless == (old(faultless) && !r.Failed?)
      ensures r.Ok? ==> Made(OnWorld(SetEnv(PoolWorker, n, env)))
      ensures r.Conflict? ==> Nothing() && n in s.envs
      ensures r.Failed? ==> Nothing() || Made(OnWorld(SetEnv(PoolWorker, n, env)))
      ensures !r.NotFound?
    {
      hide Inv, IsRun, OwnOf, WorldApply;
      if n in s.envs {
        var failed := Fails();
        r := if failed then Failed else Conflict;
      } else {
        var failed := Attempt(OnWorld(SetEnv(PoolWorker, n, env)));
        r := if failed then Failed else Ok(());
      }
    }

    /** The clusters of the namespace a reservation under deletion names. "Not found": the kind is not installed.
        Finding none is the observation that lets the finalizer go, until a later listing finds some. */
    method ListClusters(k: string, order: seq<string>) returns (r: Reply<seq<Cluster>>)
      requires Valid() && k in s.reservations && s.reservations[k].marked && s.reservations[k].status.namespace != ""
      modifies this`s, this`run, this`acts, this`own, this`faultless
      ensures Continues() && calm == old(calm) && faultless == (old(faultless) && !r.Failed?)
      ensures !r.Conflict?
      ensures var n := old(s).reservations[k].status.namespace;
        && (r.NotFound? ==> !old(s).clusterCrd)
        && (r.Ok? ==> old(s).clusterCrd
                      && ListsClusters(ClustersIn(old(s), n), r.value)
                      && ((forall c | c in ClustersIn(old(s), n) :: c in order) ==>
                          r.value == ClusterListing(ClustersIn(old(s), n), order)))
      ensures r.NotFound? || (r.Ok? && r.value == []) ==> Made(OnRes(ObserveDrained(k)))
      ensures r.Ok? && r.value != [] ==> Made(OnRes(ObserveClusters(k)))
      ensures r.Failed? ==> Nothing()
    {
      hide Inv, IsRun, OwnOf, ResApply, ListsClusters, ClusterListing, NoClusters, ClustersIn;
      var failed := Fails();
      if failed {
        return Failed;
      }
      var n := s.reservations[k].status.namespace;
      var listed := InOrder(ClustersIn(s, n), order);
      ListedIff(s, n, listed);
      r := if s.clusterCrd then Ok(listed) else NotFound;
      Commit(OnRes(if s.clusterCrd && listed != [] then ObserveClusters(k) else ObserveDrained(k)));
    }

    method DeleteCluster(n: string, c: string) returns (r: Reply<()>)
      requires Valid()
      modifies this`s, this`run, this`acts, this`own, this`faultless
      ensures Continues() && calm == old(calm) && faultless == (old(faultless) && !r.Failed?)
      ensures r.Ok? ==> Made(OnWorld(WorldAction.DeleteCluster(n, c)))
      ensures r.NotFound? ==> Nothing() && c !in ClustersIn(s, n)
      ensures r.Failed? ==> Nothing() || Made(OnWorld(WorldAction.DeleteCluster(n, c)))
      ensures !r.Conflict?
    {
      hide Inv, IsRun, OwnOf, WorldApply;
      if n in s.clusters && c in s.clusters[n] {
        var failed := Attempt(OnWorld(WorldAction.DeleteCluster(n, c)));
        r := if failed then Failed else Ok(());
      } else {
        var failed := Fails();
        r := if failed then Failed else NotFound;
      }
    }

    method UpdatePoolStatus(p: string, pool: Pool) returns (r: Reply<()>)
      requires Valid()
      modifies this`s, this`run, this`acts, this`own, this`faultless
      ensures Continues() && calm == old(calm) && faultless == (old(faultless) && !r.Failed?)
      ensures r.Ok? ==> Made(OnPool(SetPoolStatus(p, pool.status)))
      ensures r.NotFound? ==> Nothing() && p !in s.pools
      ensures r.Conflict? ==> Nothing() && p in s.pools && s.pools[p].version != pool.version
      ensures r.Failed? ==> Nothing() || Made(OnPool(SetPoolStatus(p, pool.status)))
    {
      hide Inv, IsRun, OwnOf, PoolApply;
      if p in s.pools && s.pools[p].version == pool.version {
        var failed := Attempt(OnPool(SetPoolStatus(p, pool.status)));
        r := if failed then Failed else Ok(());
      } else {
        var failed := Fails();
        r := if failed then Failed else if p in s.pools then Conflict else NotFound;
      }
    }

    method UpdateStatus(k: string, obj: Reservation, a: ResAction) returns (r: Reply<Reservation>)
      requires Valid() && a.k == k
      requires k in s.reservations && s.reservations[k].version == obj.version ==>
                 ResEnabled(s, a) && Writes(s, a) && NewRes(s, a) == StatusWritten(s.reservations[k], obj)
      modifies this`s, this`run, this`acts, this`own, this`faultless
      ensures Continues() && calm == old(calm) && faultless == (old(faultless) && !r.Failed?)
      ensures r.Ok? ==> Made(OnRes(a)) && k in s.reservations && r.value == s.reservations[k]
      ensures r.Ok? ==> k in old(s).reservations && old(s).reservations[k].version == obj.version
      ensures r.NotFound? ==> Nothing() && k !in s.reservations
      ensures r.Conflict? ==> Nothing() && k in s.reservations && s.reservations[k].version != obj.version
      ensures r.Failed? ==> Nothing() || Made(OnRes(a))
    {
      hide Inv, IsRun, OwnOf, ResApply, NewRes, ResEnabled, Writes, Removes;
      if k in s.reservations && s.reservations[k].version == obj.version {
        ResAfter(s, a);
        var failed := Attempt(OnRes(a));
        r := if failed then Failed else Ok(s.reservations[k]);
      } else {
        var failed := Fails();
        r := if failed then Failed else if k in s.reservations then Conflict else NotFound;
      }
    }

    /** Taking the finalizer off a marked reservation removes it, so there may be nothing left to return. */
    method UpdateMeta(k: string, obj: Reservation, a: ResAction) returns (r: Reply<Reservation>)
      requires Valid() && a.k == k
      requires k in s.reservations && s.reservations[k].version == obj.version ==>
                 ResEnabled(s, a) &&
                 if s.reservations[k].marked && !obj.finalizer then a.ReleaseFinalizer?
                 else Writes(s, a) && NewRes(s, a) == MetaWritten(s.reservations[k], obj)
      modifies this`s, this`run, this`acts, this`own, this`faultless
      ensures Continues() && calm == old(calm) && faultless == (old(faultless) && !r.Failed?)
      ensures r.Ok? ==> Made(OnRes(a)) && (k in s.reservations ==> r.value == s.reservations[k])
      ensures r.Ok? ==> k in old(s).reservations && old(s).reservations[k].version == obj.version
      ensures r.NotFound? ==> Nothing() && k !in s.reservations
      ensures r.Conflict? ==> Nothing() && k in s.reservations && s.reservations[k].version != obj.version
      ensures r.Failed? ==> Nothing() || Made(OnRes(a))
    {
      hide Inv, IsRun, OwnOf, ResApply, NewRes, ResEnabled, Writes, Removes;
      if k in s.reservations && s.reservations[k].version == obj.version {
        var failed := Attempt(OnRes(a));
        r := if failed then Failed else Ok(if k in s.reservations then s.reservations[k] else obj);
      } else {
        var failed := Fails();
        r := if failed then Failed else if k in s.reservations then Conflict else NotFound;
      }
    }

    /** Deletes by name, whatever the version. */
    method DeleteReservation(w: Actor, k: string) returns (r: Reply<()>)
      requires Valid()
      requires k in s.reservations ==> ResEnabled(s, OpDelete(w, k))
      modifies this`s, this`run, this`acts, this`own, this`faultless
      ensures Continues() && calm == old(calm) && faultless == (old(faultless) && !r.Failed?)
      ensures r.Ok? ==> Made(OnRes(OpDelete(w, k)))
      ensures r.NotFound? ==> Nothing() && k !in s.reservations
      ensures r.Failed? ==> Nothing() || Made(OnRes(OpDelete(w, k)))
      ensures !r.Conflict?
    {
      hide Inv, IsRun, OwnOf, ResApply;
      if k in s.reservations {
        var failed := Attempt(OnRes(OpDelete(w, k)));
        r := if failed then Failed else Ok(());
      } else {
        var failed := Fails();
        r := if failed then Failed else NotFound;
      }
    }
  }
}
