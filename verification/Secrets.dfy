/** helpers/namespaces.go: CopySecretsFrom, which fills a namespace with the secrets of another. */
module Secrets {
  import opened Objects

  // ------------------------------------------------------------- the store

  /** A secret with the two annotations the copy looks at. */
  datatype Secret = Secret(name: string, integration: Option<string>, ignore: Option<string>, content: string)

  datatype Created = Stored | AlreadyExists | NotStored

  /** The secrets of the target namespace. A failed call may or may not have had its effect. */
  class SecretStore {
    var secrets: map<string, string>
    ghost var faultless: bool

    method Fails() returns (failed: bool)
      modifies this`faultless
      ensures faultless == (old(faultless) && !failed)
    {
      failed := *;
      if failed {
        faultless := false;
      }
    }

    method Create(name: string, content: string) returns (r: Created)
      modifies this
      ensures r.Stored? ==> name !in old(secrets) && secrets == old(secrets)[name := content]
      ensures r.AlreadyExists? ==> name in old(secrets) && secrets == old(secrets)
      ensures r.NotStored? ==> secrets == old(secrets) || secrets == old(secrets)[name := content]
      ensures faultless == (old(faultless) && !r.NotStored?)
    {
      var failed := Fails();
      var lost: bool := *;
      if name !in secrets && !(failed && lost) {
        secrets := secrets[name := content];
        return if failed then NotStored else Stored;
      }
      r := if failed then NotStored else AlreadyExists;
    }

    method Delete(name: string) returns (ok: bool)
      modifies this
      ensures ok ==> name in old(secrets) && secrets == old(secrets) - {name}
      ensures !ok ==> secrets == old(secrets) || secrets == old(secrets) - {name}
      ensures ok <== name in old(secrets) && faultless
      ensures faultless ==> old(faultless)
    {
      var failed := Fails();
      var lost: bool := *;
      ok := !failed && name in secrets;
      if !(failed && lost) {
        secrets := secrets - {name};
      }
    }

    // ------------------------------------------------------------ the copy

    /** CopySecretsFrom, `items` being the secrets of the source: if they can be listed, each lands in exactly one of
        five lists, nil is returned exactly if none failed, and outside the failed names the target is exactly the copy
        asked for. If not, nothing is copied and an error is returned. */
    method CopySecretsFrom(items: seq<Secret>, overwrite: bool) returns (ok: bool, listed: bool, report: Report)
      requires NoDup(NamesOf(items))
      modifies this
      ensures !listed ==> !ok && secrets == old(secrets)
      ensures listed ==> SkippedExactly(items, report)
      ensures listed ==> multiset(report.successful) + multiset(report.failed) == multiset(Sorted(items, Eligible))
      ensures listed ==> (ok <==> report.failed == [])
      ensures listed ==> SameExcept(secrets, Copied(old(secrets), items, overwrite), report.failed)
      ensures faultless ==> ok && old(faultless)
      ensures listed ==> EachInItsList(items, report)
      ensures listed ==> forall i | 0 <= i < |items| && items[i].name in report.successful ::
                if overwrite || items[i].name !in old(secrets)
                then items[i].name in secrets && secrets[items[i].name] == items[i].content
                else items[i].name in secrets && secrets[items[i].name] == old(secrets)[items[i].name]
      ensures listed ==> forall n | NotAsked(items, n) ::
                (n in secrets <==> n in old(secrets)) && (n in secrets ==> secrets[n] == old(secrets)[n])
    {
      hide ClassOf, Sorted, Copied, SameExcept, NamesOf, Reported, EachInItsList, NotAsked, SkippedExactly;
      report := Report([], [], [], [], []);
      var unlisted := Fails();
      listed := !unlisted;
      if unlisted {
        ok := false;
        return;
      }
      NothingCopied(secrets, items, overwrite);
      for i := 0 to |items|
        invariant Reported(items[..i], report)
        invariant SameExcept(secrets, Copied(old(secrets), items[..i], overwrite), report.failed)
        invariant faultless ==> report.failed == [] && old(faultless)
      {
        var secret := items[i];
        NextReported(items, i, report);
        NextCopied(old(secrets), items, i, overwrite);
        match ClassOf(secret)
        case Missing => report := report.(missing := report.missing + [secret.name]);
        case Mismatch => report := report.(mismatch := report.mismatch + [secret.name]);
        case Ignored => report := report.(ignored := report.ignored + [secret.name]);
        case Eligible =>
          ghost var before := secrets;
          var copied := CopyOne(secret, overwrite);
          OneCopied(before, secrets, Copied(old(secrets), items[..i], overwrite), Copied(old(secrets), items[..i + 1],
              overwrite),
                    report.failed, secret, overwrite, copied);
          if copied {
            report := report.(successful := report.successful + [secret.name]);
          } else {
            report := report.(failed := report.failed + [secret.name]);
          }
      }
      assert items[..|items|] == items;
      AllReported(items, report);
      ok := report.failed == [];
      SortedRight(items, report);
      CopiedRight(items, report, old(secrets), secrets, overwrite);
    }

    /** The copy for the pool, when a namespace is prepared, and the overwriting one for the reservation that takes it:
        if both succeed, the namespace has the pool's secrets overridden by the reservation's. */
    method CopyForPoolThenReservation(fromPool: seq<Secret>, fromReservation: seq<Secret>) returns (ok: bool)
      requires NoDup(NamesOf(fromPool)) && NoDup(NamesOf(fromReservation))
      modifies this
      ensures ok ==> secrets == Contents(fromPool) + old(secrets) + Contents(fromReservation)
      ensures ok && old(secrets) == map[] ==> secrets == Contents(fromPool) + Contents(fromReservation)
      ensures faultless ==> ok && old(faultless)
    {
      hide Contents, Copied, ClassOf, Sorted, NamesOf, SkippedExactly, SameExcept;
      ghost var before := secrets;
      var prepared, listed, report := CopySecretsFrom(fromPool, false);
      if !prepared {
        return false;
      }
      ExactCopy(secrets, Copied(before, fromPool, false));
      ghost var between := secrets;
      var taken, listedToo, secondReport := CopySecretsFrom(fromReservation, true);
      if !taken {
        return false;
      }
      ExactCopy(secrets, Copied(between, fromReservation, true));
      CopiesCompose(before, fromPool, fromReservation);
      ok := true;
    }

    /** The same copy twice, as when reserving a namespace is tried again: if both succeed, the target is what one copy
        makes of it. */
    method CopyTwice(items: seq<Secret>, overwrite: bool) returns (ok: bool)
      requires NoDup(NamesOf(items))
      modifies this
      ensures ok ==> secrets == Copied(old(secrets), items, overwrite)
      ensures faultless ==> ok && old(faultless)
    {
      hide Contents, Copied, ClassOf, Sorted, NamesOf, SkippedExactly, SameExcept;
      ghost var before := secrets;
      var once, listed, report := CopySecretsFrom(items, overwrite);
      if !once {
        return false;
      }
      ExactCopy(secrets, Copied(before, items, overwrite));
      ghost var between := secrets;
      var again, listedToo, secondReport := CopySecretsFrom(items, overwrite);
      if !again {
        return false;
      }
      ExactCopy(secrets, Copied(between, items, overwrite));
      CopyAgain(before, items, overwrite);
      ok := true;
    }

    /** helpers/namespaces.go, lines 249-303 */
    method CopyOne(secret: Secret, overwrite: bool) returns (ok: bool)
      modifies this
      ensures SameExcept(old(secrets), secrets, [secret.name])
      ensures ok && (overwrite || secret.name !in old(secrets)) ==> secrets == old(secrets)[secret.name := secret.content]
      ensures ok && !overwrite && secret.name in old(secrets) ==> secrets == old(secrets)
      ensures faultless ==> ok && old(faultless)
    {
      var unread := Fails();                 // utils.CopySecret reads the source once more
      if unread {
        return false;
      }
      var r := Create(secret.name, secret.content);
      match r
      case Stored => return true;
      case NotStored => return false;
      case AlreadyExists =>
        if overwrite {
          var deleted := Delete(secret.name);
          if !deleted {
            return false;
          }
          r := Create(secret.name, secret.content);
          return r.Stored?;
        }
        return true;
    }
  }

  // ------------------------------------------------- which are to be copied

  /** Managed by qontract, from one of the two providers, and not marked to be ignored. */
  predicate Asked(s: Secret) {
    && s.integration.Some? && s.integration.value in {"openshift-vault-secrets", "openshift-rhcs-certs"}
    && s.ignore != Some("true")
  }

  /** Each secret is in the list its annotations put it in, and one that is to be copied in exactly one of the last two. */
  ghost predicate EachInItsList(items: seq<Secret>, r: Report) {
    && (forall i | 0 <= i < |items| :: items[i].name in r.missing <==> items[i].integration.None?)
    && (forall i | 0 <= i < |items| ::
          items[i].name in r.mismatch <==>
          items[i].integration.Some?
          && items[i].integration.value !in {"openshift-vault-secrets", "openshift-rhcs-certs"})
    && (forall i | 0 <= i < |items| ::
          items[i].name in r.ignored <==>
          && items[i].integration.Some?
          && items[i].integration.value in {"openshift-vault-secrets", "openshift-rhcs-certs"}
          && items[i].ignore == Some("true"))
    && (forall i | 0 <= i < |items| :: items[i].name in r.successful || items[i].name in r.failed <==> Asked(items[i]))
    && (forall i | 0 <= i < |items| :: !(items[i].name in r.successful && items[i].name in r.failed))
  }

  /** No secret of this name is to be copied. */
  ghost predicate NotAsked(items: seq<Secret>, n: string) {
    forall i | 0 <= i < |items| && items[i].name == n :: !Asked(items[i])
  }

  // --------------------------------------------------------- how the code sorts

  datatype Class = Missing | Mismatch | Ignored | Eligible

  const VAULT_PROVIDER := "openshift-vault-secrets"
  const RHCS_PROVIDER := "openshift-rhcs-certs"

  function ClassOf(s: Secret): Class {
    if s.integration.None? then Missing
    else if s.integration.value != VAULT_PROVIDER && s.integration.value != RHCS_PROVIDER then Mismatch
    else if s.ignore == Some("true") then Ignored
    else Eligible
  }

  datatype Report = Report(missing: seq<string>, mismatch: seq<string>, ignored: seq<string>,
                           successful: seq<string>, failed: seq<string>)

  function NamesOf(items: seq<Secret>): seq<string> {
    seq(|items|, i requires 0 <= i < |items| => items[i].name)
  }

  /** The names of one class, in order. */
  function Sorted(items: seq<Secret>, c: Class): seq<string> {
    if items == [] then []
    else
      var last := items[|items| - 1];
      Sorted(items[..|items| - 1], c) + if ClassOf(last) == c then [last.name] else []
  }

  predicate SkippedExactly(items: seq<Secret>, r: Report) {
    && r.missing == Sorted(items, Missing)
    && r.mismatch == Sorted(items, Mismatch)
    && r.ignored == Sorted(items, Ignored)
  }

  /** The content to be copied, by name. */
  function Contents(items: seq<Secret>): map<string, string> {
    if items == [] then map[]
    else
      var last := items[|items| - 1];
      Contents(items[..|items| - 1]) + if ClassOf(last) == Eligible then map[last.name := last.content] else map[]
  }

  /** What the copy makes of a target. */
  function Copied(target: map<string, string>, items: seq<Secret>, overwrite: bool): map<string, string> {
    if overwrite then target + Contents(items) else Contents(items) + target
  }

  ghost predicate SameExcept(m: map<string, string>, m': map<string, string>, names: seq<string>) {
    forall n | n !in names :: (n in m <==> n in m') && (n in m ==> m[n] == m'[n])
  }

  lemma ExactCopy(m: map<string, string>, m': map<string, string>)
    requires SameExcept(m, m', [])
    ensures m == m'
  {
    forall n ensures n in m <==> n in m' {
      assert n !in [];
    }
    assert forall n | n in m :: n !in [] && m[n] == m'[n];
  }

  /** The report so far. */
  predicate Reported(items: seq<Secret>, r: Report) {
    && SkippedExactly(items, r)
    && multiset(r.successful) + multiset(r.failed) == multiset(Sorted(items, Eligible))
    && forall n | n in r.failed :: n in NamesOf(items)
  }

  lemma AllReported(items: seq<Secret>, r: Report)
    requires Reported(items, r)
    ensures SkippedExactly(items, r)
    ensures multiset(r.successful) + multiset(r.failed) == multiset(Sorted(items, Eligible))
    ensures forall n | n in r.failed :: n in NamesOf(items)
  {
  }

  lemma NextReported(items: seq<Secret>, i: nat, r: Report)
    requires i < |items| && NoDup(NamesOf(items)) && Reported(items[..i], r)
    ensures items[i].name !in r.failed
    ensures var n := items[i].name; var next := items[..i + 1];
            match ClassOf(items[i])
            case Missing => Reported(next, r.(missing := r.missing + [n]))
            case Mismatch => Reported(next, r.(mismatch := r.mismatch + [n]))
            case Ignored => Reported(next, r.(ignored := r.ignored + [n]))
            case Eligible =>
              Reported(next, r.(successful := r.successful + [n])) && Reported(next, r.(failed := r.failed + [n]))
  {
    hide ClassOf, Sorted, NamesOf;
    NextName(items, i);
    NextSorted(items, i, Missing);
    NextSorted(items, i, Mismatch);
    NextSorted(items, i, Ignored);
    NextSorted(items, i, Eligible);
    assert multiset(r.successful + [items[i].name]) == multiset(r.successful) + multiset{items[i].name};
    assert multiset(r.failed + [items[i].name]) == multiset(r.failed) + multiset{items[i].name};
  }

  lemma NothingCopied(target: map<string, string>, items: seq<Secret>, overwrite: bool)
    ensures Reported(items[..0], Report([], [], [], [], []))
    ensures SameExcept(target, Copied(target, items[..0], overwrite), [])
  {
  }

  /** One copy more, or one failure more. */
  lemma OneCopied(m: map<string, string>, m': map<string, string>, t: map<string, string>, t': map<string, string>,
                  failed: seq<string>, secret: Secret, overwrite: bool, copied: bool)
    requires SameExcept(m, t, failed) && secret.name !in failed
    requires t' == if overwrite || secret.name !in t then t[secret.name := secret.content] else t
    requires SameExcept(m, m', [secret.name])
    requires copied ==> m' == if overwrite || secret.name !in m then m[secret.name := secret.content] else m
    ensures SameExcept(m', t', if copied then failed else failed + [secret.name])
  {
  }

  lemma NextName(items: seq<Secret>, i: nat)
    requires i < |items| && NoDup(NamesOf(items))
    ensures NamesOf(items[..i + 1]) == NamesOf(items[..i]) + [items[i].name] && items[i].name !in NamesOf(items[..i])
  {
    assert forall j | 0 <= j < i :: NamesOf(items)[j] == NamesOf(items[..i])[j];
    assert NamesOf(items)[i] == items[i].name;
  }

  lemma NextSorted(items: seq<Secret>, i: nat, c: Class)
    requires i < |items|
    ensures Sorted(items[..i + 1], c) == Sorted(items[..i], c) + if ClassOf(items[i]) == c then [items[i].name] else []
  {
    hide ClassOf;
    assert items[..i + 1][..i] == items[..i];
  }

  /** The next secret and the target: it is as before there, and gets the new content unless it is to be kept. */
  lemma NextCopied(target: map<string, string>, items: seq<Secret>, i: nat, overwrite: bool)
    requires i < |items| && NoDup(NamesOf(items))
    ensures var t, t' := Copied(target, items[..i], overwrite), Copied(target, items[..i + 1],
            overwrite); var n := items[i].name;
            && (n in t <==> n in target)
            && t' == if ClassOf(items[i]) == Eligible && (overwrite || n !in t) then t[n := items[i].content] else t
  {
    hide ClassOf, Contents;
    NextName(items, i);
    ContentsNames(items[..i]);
    NextContents(items, i);
    PutLast(target, Contents(items[..i]), items[i].name, items[i].content);
  }

  lemma NextContents(items: seq<Secret>, i: nat)
    requires i < |items|
    ensures Contents(items[..i + 1])
            == if ClassOf(items[i]) ==
                Eligible then Contents(items[..i])[items[i].name := items[i].content] else Contents(items[..i])
  {
    hide ClassOf;
    assert items[..i + 1][..i] == items[..i];
  }

  lemma PutLast(m: map<string, string>, c: map<string, string>, n: string, v: string)
    ensures m + c[n := v] == (m + c)[n := v]
    ensures c[n := v] + m == if n in m then c + m else (c + m)[n := v]
  {
  }

  lemma {:induction false} ContentsNames(items: seq<Secret>)
    ensures forall n | n in Contents(items) :: n in NamesOf(items)
  {
    if items != [] {
      var init := items[..|items| - 1];
      ContentsNames(init);
      assert NamesOf(items) == NamesOf(init) + [items[|items| - 1].name];
    }
  }

  // ------------------------------------------------------------ theorems

  /** Every secret of the source is in exactly one of the five lists, once. */
  lemma EverySecretOnce(items: seq<Secret>, r: Report)
    requires NoDup(NamesOf(items)) && SkippedExactly(items, r)
    requires multiset(r.successful) + multiset(r.failed) == multiset(Sorted(items, Eligible))
    ensures multiset(r.missing) + multiset(r.mismatch) + multiset(r.ignored) + multiset(r.successful) + multiset(r.failed)
            == multiset(NamesOf(items))
    ensures forall n | n in NamesOf(items) :: multiset(NamesOf(items))[n] == 1
  {
    ClassesPartition(items);
    assert forall c :: Bag(items, c) == multiset(Sorted(items, c));
    OnceEach(NamesOf(items));
  }

  lemma {:induction false} ClassesPartition(items: seq<Secret>)
    ensures Bag(items, Missing) + Bag(items, Mismatch) + Bag(items, Ignored) + Bag(items,
            Eligible) == multiset(NamesOf(items))
  {
    hide ClassOf, Bag, NamesOf;
    if items == [] {
      EmptyBags(items);
    } else {
      var k := |items| - 1;
      var n := items[k].name;
      ClassesPartition(items[..k]);
      NextBag(items, Missing);
      NextBag(items, Mismatch);
      NextBag(items, Ignored);
      NextBag(items, Eligible);
      NamesBag(items);
      match ClassOf(items[k])
      case Missing =>
      case Mismatch =>
      case Ignored =>
      case Eligible =>
    }
  }

  function Bag(items: seq<Secret>, c: Class): multiset<string> {
    multiset(Sorted(items, c))
  }

  lemma EmptyBags(items: seq<Secret>)
    requires items == []
    ensures NamesOf(items) == [] && forall c :: Bag(items, c) == multiset{}
  {
  }

  lemma NextBag(items: seq<Secret>, c: Class)
    requires items != []
    ensures var k := |items| - 1;
            Bag(items, c) == Bag(items[..k], c) + if ClassOf(items[k]) == c then multiset{items[k].name} else multiset{}
  {
    hide ClassOf;
  }

  lemma NamesBag(items: seq<Secret>)
    requires items != []
    ensures var k := |items| - 1; multiset(NamesOf(items)) == multiset(NamesOf(items[..k])) + multiset{items[k].name}
  {
    assert NamesOf(items) == NamesOf(items[..|items| - 1]) + [items[|items| - 1].name];
  }

  lemma {:induction false} OnceEach(names: seq<string>)
    requires NoDup(names)
    ensures forall n | n in names :: multiset(names)[n] == 1
  {
    if names != [] {
      var init, last := names[..|names| - 1], names[|names| - 1];
      OnceEach(init);
      assert names == init + [last];
      assert last !in init;
    }
  }

  /** The copy of the pool into a new namespace, followed by the overwriting one of a reservation, gives the pool's
      secrets overridden by the reservation's, and whatever the namespace had besides. */
  lemma CopiesCompose(target: map<string, string>, fromPool: seq<Secret>, fromReservation: seq<Secret>)
    ensures var both := Copied(Copied(target, fromPool, false), fromReservation, true);
            && both == Contents(fromPool) + target + Contents(fromReservation)
            && (target == map[] ==> both == Contents(fromPool) + Contents(fromReservation))
  {
    hide Contents;
    assert Contents(fromPool) + map[] == Contents(fromPool);
  }

  /** Doing it again changes nothing, with or without overwriting. */
  lemma CopyAgain(target: map<string, string>, items: seq<Secret>, overwrite: bool)
    ensures Copied(Copied(target, items, overwrite), items, overwrite) == Copied(target, items, overwrite)
  {
    var c := Contents(items);
    assert (target + c) + c == target + c;
    assert c + (c + target) == c + target;
  }

  /** Exactly the secrets that are to be copied are in the content copied. */
  lemma {:induction false} ContentsExact(items: seq<Secret>, i: nat)
    requires NoDup(NamesOf(items)) && i < |items|
    ensures items[i].name in Contents(items) <==> Asked(items[i])
    ensures Asked(items[i]) ==> Contents(items)[items[i].name] == items[i].content
  {
    var k := |items| - 1;
    var init := items[..k];
    assert forall j | 0 <= j < k :: NamesOf(init)[j] == NamesOf(items)[j];
    assert NamesOf(items)[k] == items[k].name && NamesOf(items)[i] == items[i].name;
    ContentsNames(init);
    if i < k {
      ContentsExact(init, i);
    } else {
      assert items[k].name !in NamesOf(init);
    }
  }

  lemma {:induction false} SortedMember(items: seq<Secret>, c: Class, i: nat)
    requires NoDup(NamesOf(items)) && i < |items|
    ensures items[i].name in Sorted(items, c) <==> ClassOf(items[i]) == c
  {
    hide ClassOf;
    var k := |items| - 1;
    var init := items[..k];
    assert forall j | 0 <= j < k :: NamesOf(init)[j] == NamesOf(items)[j];
    assert NamesOf(items)[k] == items[k].name && NamesOf(items)[i] == items[i].name;
    SortedNames(init, c);
    if i < k {
      SortedMember(init, c, i);
    }
  }

  lemma {:induction false} SortedNames(items: seq<Secret>, c: Class)
    ensures forall n | n in Sorted(items, c) :: n in NamesOf(items)
  {
    hide ClassOf;
    if items != [] {
      var init := items[..|items| - 1];
      SortedNames(init, c);
      assert NamesOf(items) == NamesOf(init) + [items[|items| - 1].name];
    }
  }

  lemma {:induction false} SortedOnce(items: seq<Secret>, c: Class)
    requires NoDup(NamesOf(items))
    ensures NoDup(Sorted(items, c))
  {
    hide ClassOf, NamesOf;
    if items != [] {
      var k := |items| - 1;
      assert items[..k + 1] == items;
      NextName(items, k);
      assert NoDup(NamesOf(items[..k])) by {
        assert forall j | 0 <= j < |NamesOf(items[..k])| :: NamesOf(items[..k])[j] == NamesOf(items)[j];
      }
      SortedOnce(items[..k], c);
      SortedNames(items[..k], c);
      assert items[k].name !in Sorted(items[..k], c);
    }
  }

  lemma SortedRight(items: seq<Secret>, r: Report)
    requires NoDup(NamesOf(items)) && SkippedExactly(items, r)
    requires multiset(r.successful) + multiset(r.failed) == multiset(Sorted(items, Eligible))
    ensures EachInItsList(items, r)
  {
    hide Sorted, NamesOf;
    SortedOnce(items, Eligible);
    OnceEach(Sorted(items, Eligible));
    forall i, c | 0 <= i < |items| ensures items[i].name in Sorted(items, c) <==> ClassOf(items[i]) == c {
      SortedMember(items, c, i);
    }
    forall n ensures n in r.successful || n in r.failed <==> n in Sorted(items, Eligible) {
      assert (multiset(r.successful) + multiset(r.failed))[n] == multiset(Sorted(items, Eligible))[n];
    }
    forall n ensures !(n in r.successful && n in r.failed) {
      assert (multiset(r.successful) + multiset(r.failed))[n] == multiset(r.successful)[n] + multiset(r.failed)[n];
    }
  }

  lemma CopiedRight(items: seq<Secret>, r: Report, m: map<string, string>, m': map<string, string>, overwrite: bool)
    requires NoDup(NamesOf(items)) && EachInItsList(items, r) && SameExcept(m', Copied(m, items, overwrite), r.failed)
    requires forall n | n in r.failed :: n in NamesOf(items)
    ensures forall i | 0 <= i < |items| && items[i].name in r.successful ::
              if overwrite || items[i].name !in m then items[i].name in m' && m'[items[i].name] == items[i].content
              else items[i].name in m' && m'[items[i].name] == m[items[i].name]
    ensures forall n | NotAsked(items, n) :: (n in m' <==> n in m) && (n in m' ==> m'[n] == m[n])
  {
    hide Contents, Asked;
    forall i | 0 <= i < |items| ensures items[i].name in Contents(items) <==> Asked(items[i])
      ensures Asked(items[i]) ==> Contents(items)[items[i].name] == items[i].content
    {
      ContentsExact(items, i);
    }
    ContentsNames(items);
    forall n | NotAsked(items, n) ensures n !in Contents(items) && n !in r.failed {
      if n in NamesOf(items) {
        var i :| 0 <= i < |items| && items[i].name == n;
      }
    }
  }
}
