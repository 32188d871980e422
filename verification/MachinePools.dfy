/** helpers/capi.go: finalizers of machine pools that are stuck in deletion. */
module MachinePools {
  import opened Objects

  const FINALIZER := "rosamachinepools.infrastructure.cluster.x-k8s.io"

  /** `deletedAt` is the deletion timestamp, `cluster` the cluster-name label, empty if there is none. */
  datatype MachinePool = MachinePool(deletedAt: Option<Time>, finalizers: seq<string>, cluster: string)

  datatype CapiCondition = Malformed | CapiCondition(kind: string, reason: string, status: string)

  // ----------------------------------------------------------------- filter

  /** The cluster says it waits for its workers to go. */
  predicate Waits(conditions: seq<CapiCondition>) {
    CapiCondition("Deleting", "WaitingForWorkersDeletion", "True") in conditions
  }

  /** No controller will take the finalizer away: the cluster is gone, or waits for the workers. */
  predicate Blocked(clusters: map<string, seq<CapiCondition>>, cluster: string) {
    cluster !in clusters || Waits(clusters[cluster])
  }

  predicate Stuck(pool: MachinePool, clusters: map<string, seq<CapiCondition>>, now: Time) {
    && pool.deletedAt.Some? && FINALIZER in pool.finalizers
    && now - pool.deletedAt.value >= HOUR
    && pool.cluster != "" && Blocked(clusters, pool.cluster)
  }

  /** The finalizers without this one, wherever it stands. */
  function Without(finalizers: seq<string>, f: string): seq<string> {
    if finalizers == [] then []
    else
      var last := finalizers[|finalizers| - 1];
      Without(finalizers[..|finalizers| - 1], f) + if last == f then [] else [last]
  }

  lemma {:induction false} WithoutMembers(finalizers: seq<string>, f: string)
    ensures forall x :: x in Without(finalizers, f) <==> x in finalizers && x != f
  {
    if finalizers != [] {
      var init := finalizers[..|finalizers| - 1];
      WithoutMembers(init, f);
      assert finalizers == init + [finalizers[|finalizers| - 1]];
    }
  }

  function Freed(pool: MachinePool): MachinePool {
    pool.(finalizers := Without(pool.finalizers, FINALIZER))
  }

  /** What the store makes of an updated object: one under deletion goes with its last finalizer. */
  function Put(pools: map<string, MachinePool>, name: string, pool: MachinePool): map<string, MachinePool> {
    if pool.deletedAt.Some? && pool.finalizers == [] then pools - {name} else pools[name := pool]
  }

  /** The pools after freeing exactly the stuck ones among these names; all else is as before. */
  ghost predicate ExactlyFreed(pools: map<string, MachinePool>, pools': map<string, MachinePool>, names: set<string>,
                               clusters: map<string, seq<CapiCondition>>, now: Time) {
    forall n :: FreedAt(pools, pools', n, n in names, clusters, now)
  }

  /** ... as far as one name is concerned. */
  predicate FreedAt(pools: map<string, MachinePool>, pools': map<string, MachinePool>, n: string, chosen: bool,
                    clusters: map<string, seq<CapiCondition>>, now: Time) {
    if n in pools && chosen && Stuck(pools[n], clusters, now) then
      if Freed(pools[n]).finalizers == [] then n !in pools' else n in pools' && pools'[n] == Freed(pools[n])
    else (n in pools' <==> n in pools) && (n in pools ==> pools'[n] == pools[n])
  }

  // ------------------------------------------------------------------- pass

  class CapiClient {
    var pools: map<string, MachinePool>
    var clusters: map<string, seq<CapiCondition>>
    var installed: bool                               // is the ROSAMachinePool kind there?

    method Fails() returns (failed: bool)
    {
      failed := *;
    }

    /** The pools of the namespace, in any order. */
    method List() returns (r: Reply<seq<string>>)
      ensures r.NotFound? ==> !installed
      ensures r.Ok? ==> installed && NoDup(r.value) && forall n :: n in r.value <==> n in pools
      ensures !r.Conflict?
    {
      var failed := Fails();
      if failed {
        return Failed;
      }
      if !installed {
        return NotFound;
      }
      var names := Enumerate(pools.Keys);
      r := Ok(names);
    }

    /** A failed write may or may not have happened. */
    method Update(name: string, pool: MachinePool) returns (ok: bool)
      requires name in pools
      modifies this`pools
      ensures pools == Put(old(pools), name, pool) || (!ok && pools == old(pools))
    {
      var failed := Fails();
      var lost: bool := *;
      if !(failed && lost) {
        pools := Put(pools, name, pool);
      }
      ok := !failed;
    }

    /** clusterWaitingForWorkersDeletion: none if the cluster could not be read. */
    method ClusterWaitingForWorkersDeletion(cluster: string) returns (waiting: Option<bool>)
      ensures waiting.Some? ==> (waiting.value <==> Blocked(clusters, cluster))
      ensures waiting.Some? ==>
                (waiting.value <==>
                   cluster in clusters ==>
                     exists i :: 0 <= i < |clusters[cluster]|
                                 && clusters[cluster][i] == CapiCondition("Deleting", "WaitingForWorkersDeletion", "True"))
    {
      var failed := Fails();
      if failed {
        return None;
      }
      if cluster !in clusters {
        return Some(true);
      }
      var conditions := clusters[cluster];
      for i := 0 to |conditions|
        invariant !Waits(conditions[..i])
      {
        assert conditions[..i + 1] == conditions[..i] + [conditions[i]];
        match conditions[i]
        case Malformed =>
        case CapiCondition(kind, reason, status) =>
          if kind == "Deleting" && reason == "WaitingForWorkersDeletion" && status == "True" {
            return Some(true);
          }
      }
      assert conditions[..|conditions|] == conditions;
      waiting := Some(false);
    }

    /** RemoveStuckROSAMachinePoolFinalizers: none on error. Otherwise the finalizer is gone from exactly the stuck
        pools and nothing else has changed; on an error that holds for some of the pools. */
    method RemoveStuckFinalizers(now: Time) returns (patched: Option<bool>)
      modifies this`pools
      ensures patched.Some? && installed ==> ExactlyFreed(old(pools), pools, old(pools).Keys, clusters, now)
      ensures patched.Some? && !installed ==> pools == old(pools)
      ensures patched.Some? ==>
                (patched.value <==> installed && exists n | n in old(pools) :: Stuck(old(pools)[n], clusters, now))
      ensures patched.None? ==>
                exists names :: names <= old(pools).Keys && ExactlyFreed(old(pools), pools, names, clusters, now)
    {
      var listed := List();
      NothingFreed(pools, clusters, now);
      if listed.NotFound? {
        return Some(false);
      }
      if !listed.Ok? {
        return None;
      }
      var names := listed.value;
      var any := false;
      for i := 0 to |names|
        invariant ExactlyFreed(old(pools), pools, SetOf(names[..i]), clusters, now)
        invariant any <==> exists j | 0 <= j < i :: Stuck(old(pools)[names[j]], clusters, now)
      {
        OneMore(old(pools), pools, names, i, clusters, now);
        var stuck := FreeIfStuck(names[i], now);
        if stuck.None? {
          return None;
        }
        any := any || stuck.value;
      }
      assert names[..|names|] == names;
      assert SetOf(names) == old(pools).Keys;
      patched := Some(any);
    }

    /** The body of the loop: none on error. */
    method FreeIfStuck(name: string, now: Time) returns (stuck: Option<bool>)
      requires name in pools
      modifies this`pools
      ensures stuck.Some? ==> (stuck.value <==> Stuck(old(pools)[name], clusters, now))
      ensures stuck.Some? ==>
                var pool := old(pools)[name];
                (stuck.value <==>
                   && pool.deletedAt.Some? && pool.deletedAt.value + 3_600_000_000_000 <= now
                   && "rosamachinepools.infrastructure.cluster.x-k8s.io" in pool.finalizers && pool.cluster != ""
                   && (pool.cluster in clusters ==> Waits(clusters[pool.cluster])))
      ensures stuck.Some? ==> pools == if stuck.value then Put(old(pools), name, Freed(old(pools)[name])) else old(pools)
      ensures stuck.None? ==>
                pools == old(pools) || (Stuck(old(pools)[name], clusters, now)
                    && pools == Put(old(pools), name, Freed(old(pools)[name])))
    {
      var pool := pools[name];
      if pool.deletedAt.None? || FINALIZER !in pool.finalizers {
        return Some(false);
      }
      if now - pool.deletedAt.value < HOUR {
        return Some(false);
      }
      if pool.cluster == "" {
        return Some(false);
      }
      var waiting := ClusterWaitingForWorkersDeletion(pool.cluster);
      if waiting.None? {
        return None;
      }
      if !waiting.value {
        return Some(false);
      }
      var updated := Update(name, Freed(pool));
      stuck := if updated then Some(true) else None;
    }
  }

  // ------------------------------------------------------------------ lemmas

  function SetOf(names: seq<string>): set<string> {
    set n | n in names
  }

  lemma NothingFreed(pools: map<string, MachinePool>, clusters: map<string, seq<CapiCondition>>, now: Time)
    ensures ExactlyFreed(pools, pools, {}, clusters, now)
  {
  }

  lemma OneMore(before: map<string, MachinePool>, pools: map<string, MachinePool>, names: seq<string>, i: nat,
                clusters: map<string, seq<CapiCondition>>, now: Time)
    requires i < |names| && NoDup(names) && forall n :: n in names <==> n in before
    requires ExactlyFreed(before, pools, SetOf(names[..i]), clusters, now)
    ensures var n := names[i];
            && n in pools && pools[n] == before[n] && SetOf(names[..i + 1]) <= before.Keys
                && SetOf(names[..i]) <= before.Keys
            && (if Stuck(before[n], clusters, now) then ExactlyFreed(before, Put(pools, n, Freed(before[n])),
                SetOf(names[..i + 1]), clusters, now)
                else ExactlyFreed(before, pools, SetOf(names[..i + 1]), clusters, now))
  {
    hide Stuck, Freed;
    var n := names[i];
    assert n !in names[..i];
    assert names[..i + 1] == names[..i] + [n];
    assert FreedAt(before, pools, n, n in SetOf(names[..i]), clusters, now);
    FreedStaysDeleted(before[n]);
    StuckIsDeleted(before[n], clusters, now);
    var put := if Stuck(before[n], clusters, now) then Put(pools, n, Freed(before[n])) else pools;
    var next := SetOf(names[..i + 1]);
    forall m ensures FreedAt(before, put, m, m in next, clusters, now) {
      assert FreedAt(before, pools, m, m in SetOf(names[..i]), clusters, now);
    }
  }

  lemma StuckIsDeleted(pool: MachinePool, clusters: map<string, seq<CapiCondition>>, now: Time)
    ensures Stuck(pool, clusters, now) ==> pool.deletedAt.Some?
  {
  }

  lemma FreedStaysDeleted(pool: MachinePool)
    ensures Freed(pool).deletedAt == pool.deletedAt
  {
  }

  /** A second pass at once finds nothing stuck, so it changes nothing. */
  lemma SecondPassIsIdle(pools: map<string, MachinePool>, pools': map<string, MachinePool>, pools'': map<string,
      MachinePool>,
                         clusters: map<string, seq<CapiCondition>>, now: Time)
    requires ExactlyFreed(pools, pools', pools.Keys, clusters, now)
    requires ExactlyFreed(pools', pools'', pools'.Keys, clusters, now)
    ensures forall n | n in pools' :: !Stuck(pools'[n], clusters, now)
    ensures pools'' == pools'
  {
    forall n | n in pools' ensures !Stuck(pools'[n], clusters, now) {
      assert FreedAt(pools, pools', n, n in pools.Keys, clusters, now);
      if n in pools {
        WithoutMembers(pools[n].finalizers, FINALIZER);
      }
    }
    forall n ensures (n in pools'' <==> n in pools') && (n in pools' ==> pools''[n] == pools'[n]) {
      assert FreedAt(pools', pools'', n, n in pools'.Keys, clusters, now);
    }
  }

  /** All other finalizers stay, in their order; if this was the only one the pool is gone. */
  lemma OthersStay(pool: MachinePool)
    ensures forall f :: f in Freed(pool).finalizers <==> f in pool.finalizers && f != FINALIZER
    ensures Freed(pool).finalizers == [] <==> forall f | f in pool.finalizers :: f == FINALIZER
  {
    WithoutMembers(pool.finalizers, FINALIZER);
    if Freed(pool).finalizers != [] {
      assert Freed(pool).finalizers[0] in Freed(pool).finalizers;
    }
  }
}
