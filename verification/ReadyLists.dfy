/** Ready lists: what they consist of, and how they change with a namespace. */
module ReadyLists {
  import opened Objects
  import opened Protocol
  import opened Invariant
  import opened ApiServer
  import opened Namespaces

  function ReadyOf(s: State, p: string, order: seq<string>): seq<Item> {
    ReadyItems(Listing(s.namespaces, p, order))
  }

  /** A namespace of this pool that may be handed out. */
  predicate Free(ns: Namespace, pool: string) {
    && ns.pool == Some(pool) && |ns.owners| == 1 && ns.owners[0].kind == PoolKind
    && EnvStatus in ns.annotations && ns.annotations[EnvStatus] == Ready
  }

  predicate NoneFree(m: map<string, Namespace>, pool: string) {
    forall n | n in m :: !Free(m[n], pool)
  }

  lemma ReadyIsFree(s: State, pool: string, ready: seq<Item>)
    requires exists items :: Lists(s.namespaces, pool, items) && ready == ReadyItems(items)
    ensures ready == [] <==> NoneFree(s.namespaces, pool)
    ensures forall i | 0 <= i < |ready| :: ready[i].name in s.namespaces && Free(s.namespaces[ready[i].name], pool)
  {
    hide ReadyItems;
    var items :| Lists(s.namespaces, pool, items) && ready == ReadyItems(items);
    ReadyItemsMembers(items);
    forall n | n in s.namespaces && Free(s.namespaces[n], pool) ensures ready != [] {
      assert Item(n, s.namespaces[n]) in ready;
    }
    forall i | 0 <= i < |ready| ensures ready[i].name in s.namespaces && Free(s.namespaces[ready[i].name], pool) {
      assert ready[i] in ready;
    }
    if ready != [] {
      assert ready[0].name in s.namespaces && Free(s.namespaces[ready[0].name], pool);
    }
  }

  /** The status is "error" now, and all else is as before. */
  ghost predicate InErrorNow(ns: Namespace, ns': Namespace) {
    && ns'.pool == ns.pool && ns'.owners == ns.owners && ns'.terminating == ns.terminating
    && EnvStatus in ns'.annotations && ns'.annotations[EnvStatus] == Error
    && forall key | key != EnvStatus ::
         && (key in ns.annotations <==> key in ns'.annotations)
         && (key in ns.annotations ==> ns'.annotations[key] == ns.annotations[key])
  }

  /** Item by item, a listing holds the same names as long as keys and labels stay. */
  lemma {:induction false} ListingPointwise(m: map<string, Namespace>, m': map<string, Namespace>, p: string,
      order: seq<string>)
    requires m.Keys == m'.Keys && forall n | n in m :: m'[n].pool == m[n].pool
    ensures Paired(m, m', Listing(m, p, order), Listing(m', p, order))
  {
    if order != [] {
      var n := order[0];
      ListingPointwise(m, m', p, order[1..]);
      if n in m && m[n].pool == Some(p) {
        PairMore(m, m', n, Listing(m, p, order[1..]), Listing(m', p, order[1..]));
      }
    }
  }

  /** The two lists hold the same names, with the namespaces of the one map and of the other. */
  ghost predicate Paired(m: map<string, Namespace>, m': map<string, Namespace>, l: seq<Item>, l': seq<Item>) {
    && |l| == |l'|
    && forall i | 0 <= i < |l| ::
         && l[i].name in m && l[i].name in m'
         && l[i] == Item(l[i].name, m[l[i].name]) && l'[i] == Item(l[i].name, m'[l[i].name])
  }

  lemma PairMore(m: map<string, Namespace>, m': map<string, Namespace>, n: string, l: seq<Item>, l': seq<Item>)
    requires n in m && n in m' && Paired(m, m', l, l')
    ensures Paired(m, m', [Item(n, m[n])] + l, [Item(n, m'[n])] + l')
  {
  }

  /** Taking the first ready namespace out of readiness drops the head of the ready list. */
  lemma {:induction false} HeadDropped(items: seq<Item>, items': seq<Item>, n: string)
    requires |items| == |items'| && NoDup(Names(items))
    requires forall i | 0 <= i < |items| ::
               items'[i].name == items[i].name
                   && if items[i].name == n then !IsReady(items'[i].ns) else items'[i] == items[i]
    requires ReadyItems(items) != [] && ReadyItems(items)[0].name == n
    ensures ReadyItems(items') == ReadyItems(items)[1..]
  {
    hide IsReady, Names, ReadyItems, NoDup;
    var k := |items| - 1;
    ReadyItemsSnoc(items);
    ReadyItemsSnoc(items');
    var init, init' := items[..k], items'[..k];
    PrefixNoDup(items);
    NewName(items);
    ReadyItemsMembers(init);
    var r := ReadyItems(init);
    if r == [] {
      assert items[k].name == n;
      assert forall i | 0 <= i < k :: init[i] in init && init'[i] == init[i];
      assert init == init';
    } else {
      assert r[0] in r && r[0] in init;
      HeadDropped(init, init', n);
    }
  }

  lemma ReadyItemsSnoc(items: seq<Item>)
    ensures if items == [] then ReadyItems(items) == []
            else
              var last := items[|items| - 1];
              ReadyItems(items) == ReadyItems(items[..|items| - 1]) + if IsReady(last.ns) then [last] else []
  {
    hide IsReady;
  }

  lemma PrefixNoDup(items: seq<Item>)
    requires items != [] && NoDup(Names(items))
    ensures NoDup(Names(items[..|items| - 1]))
  {
    assert Names(items[..|items| - 1]) == Names(items)[..|items| - 1];
  }

  lemma {:induction false} SameReady(items: seq<Item>, items': seq<Item>)
    requires |items| == |items'|
    requires forall i | 0 <= i < |items| :: items'[i] == items[i] || (!IsReady(items[i].ns) && !IsReady(items'[i].ns))
    ensures ReadyItems(items') == ReadyItems(items)
  {
    hide IsReady;
    if items != [] {
      SameReady(items[..|items| - 1], items'[..|items| - 1]);
    }
  }

  lemma FirstOfReady(s: State, p: string, order: seq<string>)
    requires Covers(order, s.namespaces) && ReadyOf(s, p, order) != []
    ensures var x := ReadyOf(s, p, order)[0];
            x.name in s.namespaces && s.namespaces[x.name] == x.ns && x.ns.pool == Some(p) && IsReady(x.ns)
  {
    var r := ReadyOf(s, p, order);
    ListingMembers(s.namespaces, p, order);
    ReadyItemsMembers(Listing(s.namespaces, p, order));
    assert r[0] in r;
  }

  lemma HeadMarked(s: State, t: State, p: string, order: seq<string>)
    requires Covers(order, s.namespaces) && ReadyOf(s, p, order) != []
    requires var n := ReadyOf(s, p, order)[0].name;
             && SameBut(s.namespaces, t.namespaces, n) && n in s.namespaces && n in t.namespaces
             && t.namespaces[n].pool == s.namespaces[n].pool && !IsReady(t.namespaces[n])
    ensures ReadyOf(t, p, order) == ReadyOf(s, p, order)[1..]
  {
    hide IsReady, ReadyItems, Listing;
    ListingMembers(s.namespaces, p, order);
    ListingPointwise(s.namespaces, t.namespaces, p, order);
    HeadDropped(Listing(s.namespaces, p, order), Listing(t.namespaces, p, order), ReadyOf(s, p, order)[0].name);
  }

  lemma {:induction false} ReadyCount(items: seq<Item>)
    requires NoDup(Names(items))
    ensures |ReadyItems(items)| == |set x | x in ReadyItems(items) :: x.name|
  {
    if items != [] {
      var init, last := items[..|items| - 1], items[|items| - 1];
      PrefixNoDup(items);
      ReadyCount(init);
      var a, b := set x | x in ReadyItems(init) :: x.name, set x | x in ReadyItems(items) :: x.name;
      ReadyItemsMembers(init);
      NewName(items);
      if IsReady(last.ns) {
        assert ReadyItems(items) == ReadyItems(init) + [last];
        assert b == a + {last.name};
      } else {
        assert ReadyItems(items) == ReadyItems(init);
      }
    }
  }

  lemma NewName(items: seq<Item>)
    requires items != [] && NoDup(Names(items))
    ensures forall x | x in items[..|items| - 1] :: x.name != items[|items| - 1].name
  {
    var k := |items| - 1;
    assert Names(items)[k] == items[k].name;
    assert forall j | 0 <= j < k :: Names(items)[j] == items[j].name && items[..k][j] == items[j];
  }
}
