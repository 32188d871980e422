/** namespacepool_controller.go, helpers/pool.go: what one pass of the pool controller counts and writes, and
    where passes left alone take the pool. */
module PoolPlans {
  import opened Objects
  import opened Protocol
  import opened Invariant
  import opened ApiServer
  import opened Namespaces
  import opened ReadyLists

  // ------------------------------------------------------------- counting

  datatype Role = Readied | BeingCreated | Taken | Faulty | Other

  /** The branch getPoolStatus takes for the owner of a namespace. A UID belongs to one kind of object. */
  function OwnerRole(o: Owner, ns: Namespace, uid: nat): Role {
    if o.kind == PoolKind && o.uid == uid then
      if HasStatus(ns, Ready) then Readied
      else if HasStatus(ns, Creating) then BeingCreated
      else if HasStatus(ns, Error) then Faulty
      else Other
    else if o.kind == ReservationKind then Taken
    else Other
  }

  function RoleOf(ns: Namespace, uid: nat): Role {
    if |ns.owners| == 1 then OwnerRole(ns.owners[0], ns, uid) else Other
  }

  predicate Plays(namespaces: map<string, Namespace>, p: string, uid: nat, role: Role, n: string) {
    n in namespaces && namespaces[n].pool == Some(p) && RoleOf(namespaces[n], uid) == role
  }

  function Members(namespaces: map<string, Namespace>, p: string, uid: nat, role: Role): set<string> {
    set n | n in namespaces && Plays(namespaces, p, uid, role, n)
  }

  function StatusOf(s: State, p: string, uid: nat): PoolStatus {
    PoolStatus(|Members(s.namespaces, p, uid, Readied)|,
               |Members(s.namespaces, p, uid, BeingCreated)|,
               |Members(s.namespaces, p, uid, Taken)|)
  }

  /** The counters agree with what the size limit is about. */
  lemma TotalIsSum(s: State, p: string)
    requires p in s.pools
    ensures var st := StatusOf(s, p, s.pools[p].uid); Total(s, p) == st.ready + st.creating + st.reserved
  {
    hide RoleOf, Counts;
    var m, uid := s.namespaces, s.pools[p].uid;
    var a, b, c := Members(m, p, uid, Readied), Members(m, p, uid, BeingCreated), Members(m, p, uid, Taken);
    forall n ensures n in CountedSet(s, p) <==> n in a + b + c {
      if n in m {
        CountsByRole(m[n], p, uid);
      }
    }
    assert CountedSet(s, p) == a + b + c;
    assert a !! b && (a + b) !! c;
  }

  lemma CountsByRole(ns: Namespace, p: string, uid: nat)
    ensures Counts(ns, p, uid) <==> ns.pool == Some(p) && RoleOf(ns, uid) in {Readied, BeingCreated, Taken}
  {
  }

  /** The largest change that overshoots neither the size wanted nor the limit. */
  function CalculateNamespaceQuantityDelta(limit: Option<int>, size: int, ready: int, creating: int, reserved: int): (d: int)
    ensures ready + creating + d <= size && (limit.Some? ==> ready + creating + reserved + d <= limit.value)
    ensures ready + creating + d == size || (limit.Some? && ready + creating + reserved + d == limit.value)
  {
    var total := ready + creating + reserved;
    var queue := ready + creating;
    match limit
    case None => size - queue
    case Some(sizeLimit) => if sizeLimit - total < size - queue then sizeLimit - total else size - queue
  }

  function Delta(spec: PoolSpec, st: PoolStatus): int {
    CalculateNamespaceQuantityDelta(spec.sizeLimit, spec.size, st.ready, st.creating, st.reserved)
  }

  function DeltaOf(s: State, p: string): int
    requires p in s.pools
  {
    Delta(s.pools[p].spec, StatusOf(s, p, s.pools[p].uid))
  }

  // ---------------------------------------------------------------- plans

  /** The namespaces of this pool object found in error. */
  function ErrorNames(items: seq<Item>, uid: nat): seq<string> {
    if items == [] then []
    else
      var last := items[|items| - 1];
      ErrorNames(items[..|items| - 1], uid) + if RoleOf(last.ns, uid) == Faulty then [last.name] else []
  }

  function DeletionPlan(names: seq<string>): seq<Action> {
    if names == [] then []
    else DeletionPlan(names[..|names| - 1]) + DeleteOnePlan(names[|names| - 1])
  }

  /** helpers.DeleteNamespace */
  function DeleteOnePlan(n: string): seq<Action> {
    [OnNs(Annotate(PoolWorker, n, StatusPatch(Deleting))), OnNs(DeleteNs(n))]
  }

  ghost predicate Fresh(pick: set<string> -> string) {
    forall used :: pick(used) !in used && pick(used) != ""
  }

  /** The names of the next `m` namespaces. */
  function NewNames(pick: set<string> -> string, used: set<string>, m: nat): seq<string> {
    if m == 0 then []
    else
      var earlier := NewNames(pick, used, m - 1);
      earlier + [pick(used + set n | n in earlier)]
  }

  /** A namespace from its creation to the point where the pool controller is done with it. */
  function FillPlan(n: string, p: string, uid: nat, mode: Option<string>): seq<Action> {
    [OnNs(CreateNs(n))] + EquipPlan(n, p, uid, mode)
  }

  /** UpdateNamespaceResources */
  function EquipPlan(n: string, p: string, uid: nat, mode: Option<string>): seq<Action> {
    [OnNs(Adopt(n, p, uid)),
     match mode
     case None => OnNs(Annotate(PoolWorker, n, StatusPatch(Ready)))
     case Some(web) => OnWorld(SetEnv(PoolWorker, n, NewEnv(web)))]
  }

  function NewEnv(webMode: string): ClowdEnv {
    ClowdEnv(webMode, "", [])
  }

  function GrowPlan(names: seq<string>, p: string, uid: nat, mode: Option<string>): seq<Action> {
    if names == [] then []
    else GrowPlan(names[..|names| - 1], p, uid, mode) + FillPlan(names[|names| - 1], p, uid, mode)
  }

  /** The same first ready namespace is marked again and again: the snapshot does not change. */
  function ShrinkPlan(ready: seq<Item>, m: nat): seq<Action> {
    if ready == [] then [] else seq(m, _ => OnNs(Annotate(PoolWorker, ready[0].name, StatusPatch(Error))))
  }

  function AdjustPlan(s: State, p: string, order: seq<string>, pick: set<string> -> string): seq<Action>
    requires p in s.pools
  {
    var pool := s.pools[p];
    var d := DeltaOf(s, p);
    if d > 0 then GrowPlan(NewNames(pick, s.created, d), p, pool.uid, pool.spec.clowder)
    else if d < 0 then ShrinkPlan(ReadyOf(s, p, order), -d)
    else []
  }

  /** One pass over pool `p`. The status written is the one counted at the start. */
  function PoolPlan(s: State, p: string, order: seq<string>, pick: set<string> -> string): seq<Action> {
    if p in s.pools then [OnPool(CountPool(p))] + CountedPlan(s, p, order, pick) else []
  }

  function CountedPlan(s: State, p: string, order: seq<string>, pick: set<string> -> string): seq<Action>
    requires p in s.pools
  {
    DeletionPlan(ErrorNames(Listing(s.namespaces, p, order), s.pools[p].uid))
    + AdjustPlan(s, p, order, pick)
    + [OnPool(SetPoolStatus(p, StatusOf(s, p, s.pools[p].uid)))]
  }

  // ------------------------------------------------- counters and listings

  lemma MembersChange(m: map<string, Namespace>, m': map<string, Namespace>, p: string, uid: nat, role: Role, n: string)
    requires SameBut(m, m', n)
    ensures |Members(m', p, uid, role)|
            == |Members(m, p, uid, role)|
               + (if Plays(m', p, uid, role, n) then 1 else 0) - (if Plays(m, p, uid, role, n) then 1 else 0)
  {
    hide Plays, SameBut;
    PlaysElsewhere(m, m', p, uid, role, n);
    var a, b := Members(m, p, uid, role), Members(m', p, uid, role);
    assert forall x :: x in a <==> Plays(m, p, uid, role, x);
    assert forall x :: x in b <==> Plays(m', p, uid, role, x);
    SizesApart(a, b, n);
  }

  lemma PlaysElsewhere(m: map<string, Namespace>, m': map<string, Namespace>, p: string, uid: nat, role: Role, n: string)
    requires SameBut(m, m', n)
    ensures forall x | x != n :: Plays(m, p, uid, role, x) <==> Plays(m', p, uid, role, x)
    ensures forall x | Plays(m, p, uid, role, x) :: x in m
    ensures forall x | Plays(m', p, uid, role, x) :: x in m'
  {
    hide RoleOf;
  }

  lemma {:induction false} ErrorNamesMembers(items: seq<Item>, uid: nat)
    ensures forall n | n in ErrorNames(items, uid) :: exists x | x in items :: x.name == n && RoleOf(x.ns, uid) == Faulty
  {
    if items != [] {
      var init := items[..|items| - 1];
      ErrorNamesMembers(init, uid);
      assert items == init + [items[|items| - 1]];
    }
  }

  /** Nothing that counts, and nothing that is ready, has changed. */
  ghost predicate Unmoved(m: map<string, Namespace>, m': map<string, Namespace>, uid: nat) {
    && m.Keys == m'.Keys
    && forall n | n in m :: m'[n] == m[n] || (m'[n].pool == m[n].pool && Idle(m[n], uid) && Idle(m'[n], uid))
  }

  predicate Idle(ns: Namespace, uid: nat) {
    RoleOf(ns, uid) in {Faulty, Other} && !IsReady(ns)
  }

  lemma UnmovedKeeps(s: State, t: State, p: string, uid: nat, order: seq<string>)
    requires Unmoved(s.namespaces, t.namespaces, uid)
    ensures StatusOf(t, p, uid) == StatusOf(s, p, uid)
    ensures ReadyOf(t, p, order) == ReadyOf(s, p, order)
  {
    hide RoleOf, IsReady;
    forall role | role in {Readied, BeingCreated, Taken} ensures Members(t.namespaces, p, uid,
        role) == Members(s.namespaces, p, uid, role) {
    }
    ListingPointwise(s.namespaces, t.namespaces, p, order);
    SameReady(Listing(s.namespaces, p, order), Listing(t.namespaces, p, order));
  }

  /** Status.Ready equals the length of the ready list exactly when no ready namespace is left over from an
      earlier pool of that name. */
  lemma ReadyAgreement(s: State, p: string, uid: nat, items: seq<Item>)
    requires Inv(s) && Lists(s.namespaces, p, items)
    ensures StatusOf(s, p, uid).ready == |ReadyItems(items)| <==>
            forall n | n in s.namespaces && s.namespaces[n].pool == Some(p) && IsReady(s.namespaces[n]) ::
              s.namespaces[n].owners[0].uid == uid
  {
    hide Inv;
    var mine := Members(s.namespaces, p, uid, Readied);
    var all := set n | n in s.namespaces && s.namespaces[n].pool == Some(p) && IsReady(s.namespaces[n]);
    ReadyCount(items);
    ReadyItemsMembers(items);
    var names := set x | x in ReadyItems(items) :: x.name;
    assert names == all by {
      forall n | n in all ensures n in names {
        assert Item(n, s.namespaces[n]) in ReadyItems(items);
      }
    }
    assert mine <= all;
    if |mine| == |all| {
      SubsetOfSize(mine, all);
    }
    if forall n | n in all :: s.namespaces[n].owners[0].uid == uid {
      assert mine == all;
    }
  }

  lemma SubsetOfSize<T>(a: set<T>, b: set<T>)
    requires a <= b && |a| == |b|
    ensures a == b
  {
    if x :| x in b && x !in a {
      assert a <= b - {x};
      SubsetSmaller(a, b - {x});
    }
  }
}
