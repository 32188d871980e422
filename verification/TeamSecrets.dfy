/** helpers/reservation.go: the secrets a team asks for, copied into its namespace. */
module TeamSecrets {
  import opened Objects
  import opened Secrets

  datatype Available = Available(name: string, content: string)

  /** A secret to copy, and the name it gets unless that is empty. */
  datatype SecretsData = SecretsData(name: string, destName: string)

  datatype Team = Team(name: string, secrets: seq<SecretsData>)

  // --------------------------------------------------------------- lookups

  predicate IsFirst(names: seq<string>, i: int, name: string) {
    0 <= i < |names| && names[i] == name && name !in names[..i]
  }

  function TeamNames(teams: seq<Team>): seq<string> {
    seq(|teams|, i requires 0 <= i < |teams| => teams[i].name)
  }

  function AvailableNames(available: seq<Available>): seq<string> {
    seq(|available|, i requires 0 <= i < |available| => available[i].name)
  }

  method FindTeamByName(teams: seq<Team>, name: string) returns (team: Option<Team>)
    ensures team.None? <==> name !in TeamNames(teams)
    ensures team.Some? ==> exists i :: IsFirst(TeamNames(teams), i, name) && teams[i] == team.value
  {
    for i := 0 to |teams|
      invariant name !in TeamNames(teams)[..i]
    {
      assert TeamNames(teams)[i] == teams[i].name;
      if teams[i].name == name {
        assert IsFirst(TeamNames(teams), i, name);
        return Some(teams[i]);
      }
    }
    team := None;
  }

  method FindSecretByName(available: seq<Available>, name: string) returns (secret: Option<Available>)
    ensures secret == Find(available, name)
    ensures secret.None? <==> forall i | 0 <= i < |available| :: available[i].name != name
    ensures secret.Some? ==>
              exists i :: 0 <= i < |available| && available[i] == secret.value && secret.value.name == name
                          && forall j | 0 <= j < i :: available[j].name != name
  {
    FindExact(available, name);
    assert forall i | 0 <= i < |available| :: AvailableNames(available)[i] == available[i].name;
    for i := 0 to |available|
      invariant Find(available, name) == Find(available[i..], name)
    {
      if available[i].name == name {
        return Some(available[i]);
      }
    }
    secret := None;
  }

  function Find(available: seq<Available>, name: string): Option<Available> {
    if available == [] then None
    else if available[0].name == name then Some(available[0])
    else Find(available[1..], name)
  }

  lemma {:induction false} FindExact(available: seq<Available>, name: string)
    ensures Find(available, name).None? <==> name !in AvailableNames(available)
    ensures Find(available, name).Some? ==>
              exists i :: IsFirst(AvailableNames(available), i, name) && available[i] == Find(available, name).value
  {
    if available != [] {
      var rest := available[1..];
      FindExact(rest, name);
      assert AvailableNames(available) == [available[0].name] + AvailableNames(rest);
      if available[0].name == name {
        assert IsFirst(AvailableNames(available), 0, name);
      } else if Find(rest, name).Some? {
        var i :| IsFirst(AvailableNames(rest), i, name) && rest[i] == Find(rest, name).value;
        assert AvailableNames(available)[..i + 1] == [available[0].name] + AvailableNames(rest)[..i];
        assert IsFirst(AvailableNames(available), i + 1, name);
      }
    }
  }

  // ------------------------------------------------------------- the copy

  function DestinationName(data: SecretsData): string {
    if data.destName != "" then data.destName else data.name
  }

  /** The copies asked for of secrets that are there: destination name and content, in order. */
  function Wanted(team: seq<SecretsData>, available: seq<Available>): seq<Available> {
    if team == [] then []
    else
      var last := team[|team| - 1];
      Wanted(team[..|team| - 1], available) + WantedOne(last, available)
  }

  function WantedOne(data: SecretsData, available: seq<Available>): seq<Available> {
    match Find(available, data.name)
    case None => []
    case Some(secret) => [Available(DestinationName(data), secret.content)]
  }

  function Added(target: map<string, string>, wanted: seq<Available>): map<string, string> {
    if wanted == [] then target
    else Added(target, wanted[..|wanted| - 1])[wanted[|wanted| - 1].name := wanted[|wanted| - 1].content]
  }

  /** The destination names are distinct and not taken. */
  predicate Fits(target: map<string, string>, wanted: seq<Available>) {
    NoDup(AvailableNames(wanted)) && forall n | n in AvailableNames(wanted) :: n !in target
  }

  /** The team asks for it, and it is there. */
  predicate Found(available: seq<Available>, data: SecretsData) {
    data.name in AvailableNames(available)
  }

  /** Every secret the team asks for that is there has been copied, the first of its name, under the name asked for, and
      nothing else has changed. */
  ghost predicate CopiedFor(target: map<string, string>, target': map<string, string>, available: seq<Available>,
                            team: seq<SecretsData>) {
    && (forall i | 0 <= i < |team| :: HasCopy(target', available, team[i]))
    && forall n | NotAskedFor(available, team, n) :: SameAt(target, target', n)
  }

  /** The copy is there, of the first secret of that name if there is one. */
  ghost predicate HasCopy(target: map<string, string>, available: seq<Available>, data: SecretsData) {
    forall j | IsFirst(AvailableNames(available), j, data.name) ::
      var n := if data.destName == "" then data.name else data.destName;
      n in target && target[n] == available[j].content
  }

  predicate SameAt(target: map<string, string>, target': map<string, string>, n: string) {
    (n in target' <==> n in target) && (n in target' ==> target'[n] == target[n])
  }

  /** No copy is to have this name. */
  ghost predicate NotAskedFor(available: seq<Available>, team: seq<SecretsData>, n: string) {
    forall i | 0 <= i < |team| && Found(available, team[i]) ::
      n != if team[i].destName == "" then team[i].name else team[i].destName
  }

  /** The names asked for, of the secrets that are there, are distinct and not taken. */
  ghost predicate Distinct(target: map<string, string>, available: seq<Available>, team: seq<SecretsData>) {
    && (forall i | 0 <= i < |team| && Found(available, team[i]) :: DestinationName(team[i]) !in target)
    && forall i, j | 0 <= i < j < |team| && Found(available, team[i]) && Found(available, team[j]) ::
         DestinationName(team[i]) != DestinationName(team[j])
  }

  /** copyTeamSecrets stops at the first copy that cannot be made. Without API failures it succeeds exactly if the
      destinations fit; then all copies are there, and otherwise those before the first that does not fit. */
  method CopyTeamSecrets(store: SecretStore, available: seq<Available>, team: seq<SecretsData>) returns (ok: bool)
    modifies store
    ensures ok ==> Fits(old(store.secrets), Wanted(team, available))
    ensures ok ==> store.secrets == Added(old(store.secrets), Wanted(team, available))
    ensures store.faultless ==> (ok <==> Fits(old(store.secrets), Wanted(team, available)))
    ensures store.faultless && !ok ==>
              exists i :: 0 <= i < |Wanted(team, available)| && Fits(old(store.secrets), Wanted(team, available)[..i])
                          && !Fits(old(store.secrets), Wanted(team, available)[..i + 1])
                          && store.secrets == Added(old(store.secrets), Wanted(team, available)[..i])
    ensures store.faultless ==> old(store.faultless)
    ensures ok ==> CopiedFor(old(store.secrets), store.secrets, available, team)
    ensures store.faultless ==> (ok <==> Distinct(old(store.secrets), available, team))
  {
    hide Fits, Added, Wanted, Find, DestinationName, CopiedFor, Distinct;
    ghost var wanted := Wanted(team, available);
    FitsIffDistinct(store.secrets, available, team);
    NothingWanted(store.secrets, team, available);
    for i := 0 to |team|
      invariant Wanted(team[..i], available) <= wanted
      invariant Fits(old(store.secrets), Wanted(team[..i], available))
      invariant store.secrets == Added(old(store.secrets), Wanted(team[..i], available))
      invariant store.faultless ==> old(store.faultless)
    {
      NextWanted(old(store.secrets), team, available, i);
      var secret := FindSecretByName(available, team[i].name);
      if secret.None? {
        continue;
      }
      var copied := CopySecretToNamespace(store, secret.value, team[i]);
      if !copied {
        FitsInPart(old(store.secrets), wanted, |Wanted(team[..i + 1], available)|);
        assert wanted[..|Wanted(team[..i], available)|] == Wanted(team[..i], available);
        assert wanted[..|Wanted(team[..i + 1], available)|] == Wanted(team[..i + 1], available);
        return false;
      }
    }
    assert team[..|team|] == team;
    ok := true;
    AllCopied(old(store.secrets), available, team);
  }

  /** One copy, under the destination name; what is there already is not overwritten. */
  method CopySecretToNamespace(store: SecretStore, secret: Available, data: SecretsData) returns (ok: bool)
    modifies store
    ensures ok ==> DestinationName(data) !in old(store.secrets)
    ensures ok ==> store.secrets == old(store.secrets)[DestinationName(data) := secret.content]
    ensures ok ==>
              store.secrets
              == old(store.secrets)[(if data.destName == "" then data.name else data.destName) := secret.content]
    ensures store.faultless && !ok ==> DestinationName(data) in old(store.secrets) && store.secrets == old(store.secrets)
    ensures store.faultless ==> old(store.faultless)
  {
    var destination := data.name;
    if data.destName != "" {
      destination := data.destName;
    }
    var unread := store.Fails();             // utils.CopySecret reads the source once more
    if unread {
      return false;
    }
    var r := store.Create(destination, secret.content);
    ok := r.Stored?;
  }

  /** CopyReservationSecrets. A pool that cannot be read counts as one without teams: the error is only logged, and
      nothing is copied. */
  method CopyReservationSecrets(store: SecretStore, pool: Option<seq<Team>>, available: Option<seq<Available>>,
      name: string) returns (ok: bool)
    modifies store
    ensures available.None? ==> !ok && store.secrets == old(store.secrets)
    ensures available.Some? && (pool.None? || name !in TeamNames(pool.value)) ==> ok && store.secrets == old(store.secrets)
    ensures available.Some? && pool.Some? && name in TeamNames(pool.value) ==>
              exists i :: IsFirst(TeamNames(pool.value), i, name)
                          && var team := pool.value[i].secrets; var wanted := Wanted(team, available.value);
                             && (ok ==> store.secrets == Added(old(store.secrets), wanted))
                             && (store.faultless ==> (ok <==> Fits(old(store.secrets), wanted)))
                             && (ok ==> CopiedFor(old(store.secrets), store.secrets, available.value, team))
  {
    hide Wanted, Fits, Added, CopiedFor;
    var teams := if pool.Some? then pool.value else [];
    if available.None? {
      return false;
    }
    var team := FindTeamByName(teams, name);
    if team.None? {
      return true;
    }
    ok := CopyTeamSecrets(store, available.value, team.value.secrets);
  }

  // -------------------------------------------------------------- lemmas

  lemma NothingWanted(target: map<string, string>, team: seq<SecretsData>, available: seq<Available>)
    ensures Wanted(team[..0], available) == [] && Fits(target, []) && Added(target, []) == target
    ensures Wanted(team[..0], available) <= Wanted(team, available)
  {
  }

  lemma NextWanted(target: map<string, string>, team: seq<SecretsData>, available: seq<Available>, i: nat)
    requires i < |team|
    ensures var w, w' := Wanted(team[..i], available), Wanted(team[..i + 1], available);
            && w' <= Wanted(team, available)
            && match Find(available, team[i].name)
               case None => w' == w
               case Some(secret) =>
                 var x := Available(DestinationName(team[i]), secret.content);
                 && w' == w + [x]
                 && Added(target, w') == Added(target, w)[x.name := x.content]
                 && (Fits(target, w) ==> (Fits(target, w') <==> x.name !in Added(target, w)))
  {
    hide Fits, Added, Find, DestinationName;
    assert team[..i + 1][..i] == team[..i];
    WantedPrefix(team, available, i + 1);
    var found := Find(available, team[i].name);
    if found.Some? {
      OneMoreFits(target, Wanted(team[..i], available), Available(DestinationName(team[i]), found.value.content));
    }
  }

  lemma {:induction false} WantedPrefix(team: seq<SecretsData>, available: seq<Available>, i: nat)
    requires i <= |team|
    ensures Wanted(team[..i], available) <= Wanted(team, available)
    decreases |team|
  {
    hide WantedOne;
    if i < |team| {
      assert team[..|team| - 1][..i] == team[..i];
      WantedPrefix(team[..|team| - 1], available, i);
    } else {
      assert team[..i] == team;
    }
  }

  lemma OneMoreFits(target: map<string, string>, w: seq<Available>, x: Available)
    ensures Added(target, w + [x]) == Added(target, w)[x.name := x.content]
    ensures Fits(target, w) ==> (Fits(target, w + [x]) <==> x.name !in Added(target, w))
  {
    assert (w + [x])[..|w|] == w;
    AddedNames(target, w);
    assert AvailableNames(w + [x]) == AvailableNames(w) + [x.name];
    if Fits(target, w) && x.name in AvailableNames(w) {
      var j :| 0 <= j < |w| && AvailableNames(w)[j] == x.name;
      assert AvailableNames(w + [x])[j] == AvailableNames(w + [x])[|w|];
    }
  }

  lemma {:induction false} FitsIffDistinct(target: map<string, string>, available: seq<Available>, team: seq<SecretsData>)
    ensures Fits(target, Wanted(team, available)) <==> Distinct(target, available, team)
  {
    hide Find, DestinationName, Fits, Distinct, Found, WantedOne;
    if team == [] {
      NothingWanted(target, team, available);
      NothingAskedFor(target, available);
    } else {
      var init, last := team[..|team| - 1], team[|team| - 1];
      FitsIffDistinct(target, available, init);
      DistinctSnoc(target, available, init, last);
      assert team == init + [last];
      OneWanted(last, available);
      WantedNames(init, available);
      var w, one := Wanted(init, available), WantedOne(last, available);
      if Found(available, last) {
        assert one == [one[0]];
        FitsSnoc(target, w, one[0]);
      } else {
        assert w + one == w;
      }
    }
  }

  lemma NothingAskedFor(target: map<string, string>, available: seq<Available>)
    ensures Distinct(target, available, [])
  {
  }

  lemma DistinctSnoc(target: map<string, string>, available: seq<Available>, team: seq<SecretsData>, last: SecretsData)
    ensures Distinct(target, available, team + [last]) <==>
              Distinct(target, available, team)
              && (Found(available, last) ==>
                    DestinationName(last) !in target
                    && NotAskedFor(available, team, DestinationName(last)))
  {
    hide Found;
    var more := team + [last];
    assert forall i | 0 <= i < |team| :: more[i] == team[i];
    assert more[|team|] == last;
  }

  lemma FitsSnoc(target: map<string, string>, w: seq<Available>, x: Available)
    ensures Fits(target, w + [x]) <==> Fits(target, w) && x.name !in target && x.name !in AvailableNames(w)
  {
    var names := AvailableNames(w);
    assert AvailableNames(w + [x]) == names + [x.name];
    if Fits(target, w + [x]) {
      assert (names + [x.name])[|w|] in names + [x.name];
      assert forall i | 0 <= i < |w| :: (names + [x.name])[i] == names[i] && names[i] in names + [x.name];
    }
  }

  lemma OneWanted(data: SecretsData, available: seq<Available>)
    ensures if Found(available, data) then Find(available, data.name).Some? && |WantedOne(data, available)| == 1
                && WantedOne(data, available)[0] == Available(DestinationName(data), Find(available, data.name).value.content)
            else WantedOne(data, available) == []
  {
    hide Find, DestinationName;
    FindExact(available, data.name);
  }

  lemma {:induction false} WantedNames(team: seq<SecretsData>, available: seq<Available>)
    ensures forall n :: n in AvailableNames(Wanted(team, available)) <==> !NotAskedFor(available, team, n)
  {
    hide Found, WantedOne;
    if team != [] {
      var init, last := team[..|team| - 1], team[|team| - 1];
      WantedNames(init, available);
      OneWanted(last, available);
      var w, one := Wanted(init, available), WantedOne(last, available);
      assert AvailableNames(w + one) == AvailableNames(w) + AvailableNames(one);
      assert AvailableNames(one) == if Found(available, last) then [DestinationName(last)] else [];
      forall n ensures NotAskedFor(available, team, n) <==>
                         NotAskedFor(available, init, n) && (Found(available, last) ==> DestinationName(last) != n)
      {
        assert forall i | 0 <= i < |init| :: init[i] == team[i];
      }
    }
  }

  /** What is copied is the first secret of each name. */
  lemma {:induction false} WantedContents(team: seq<SecretsData>, available: seq<Available>, i: nat, j: nat)
    requires i < |team| && IsFirst(AvailableNames(available), j, team[i].name)
    ensures Available(DestinationName(team[i]), available[j].content) in Wanted(team, available)
  {
    hide DestinationName;
    var k := |team| - 1;
    if i < k {
      WantedContents(team[..k], available, i, j);
    } else {
      FindExact(available, team[i].name);
    }
  }

  lemma {:induction false} AddedContents(target: map<string, string>, w: seq<Available>, x: Available)
    requires x in w && NoDup(AvailableNames(w))
    ensures x.name in Added(target, w) && Added(target, w)[x.name] == x.content
  {
    var init, last := w[..|w| - 1], w[|w| - 1];
    assert w == init + [last];
    assert forall i | 0 <= i < |init| :: AvailableNames(init)[i] == AvailableNames(w)[i];
    if x in init {
      var i :| 0 <= i < |init| && init[i] == x;
      assert AvailableNames(w)[i] != AvailableNames(w)[|w| - 1];
      AddedContents(target, init, x);
    }
  }

  lemma {:induction false} AddedElsewhere(target: map<string, string>, w: seq<Available>, n: string)
    requires n !in AvailableNames(w)
    ensures (n in Added(target, w) <==> n in target) && (n in target ==> Added(target, w)[n] == target[n])
  {
    if w != [] {
      var init := w[..|w| - 1];
      assert AvailableNames(w) == AvailableNames(init) + [w[|w| - 1].name];
      AddedElsewhere(target, init, n);
    }
  }

  lemma AllCopied(target: map<string, string>, available: seq<Available>, team: seq<SecretsData>)
    requires Fits(target, Wanted(team, available))
    ensures CopiedFor(target, Added(target, Wanted(team, available)), available, team)
  {
    hide Added, Wanted, Found, NotAskedFor;
    var w := Wanted(team, available);
    var target' := Added(target, w);
    forall i | 0 <= i < |team| ensures HasCopy(target', available, team[i]) {
      forall j | IsFirst(AvailableNames(available), j, team[i].name)
        ensures DestinationName(team[i]) in target' && target'[DestinationName(team[i])] == available[j].content
      {
        WantedContents(team, available, i, j);
        AddedContents(target, w, Available(DestinationName(team[i]), available[j].content));
      }
    }
    WantedNames(team, available);
    forall n | NotAskedFor(available, team, n) ensures SameAt(target, target', n) {
      AddedElsewhere(target, w, n);
    }
  }

  lemma {:induction false} AddedNames(target: map<string, string>, w: seq<Available>)
    ensures forall n :: n in Added(target, w) <==> n in target || n in AvailableNames(w)
  {
    if w != [] {
      var init := w[..|w| - 1];
      AddedNames(target, init);
      assert AvailableNames(w) == AvailableNames(init) + [w[|w| - 1].name];
    }
  }

  /** What fits, fits in every part. */
  lemma FitsInPart(target: map<string, string>, w: seq<Available>, i: nat)
    requires i <= |w|
    ensures Fits(target, w) ==> Fits(target, w[..i])
  {
    assert forall j | 0 <= j < i :: AvailableNames(w[..i])[j] == AvailableNames(w)[j];
  }

  /** Running it again on its own result, or on what is there of it after `i` copies, fails as soon as anything has been
      copied; and if nothing has, it is as if it had not been run. */
  lemma RerunFails(target: map<string, string>, w: seq<Available>, i: nat)
    requires i <= |w|
    ensures Fits(Added(target, w[..i]), w) <==> i == 0 && Fits(target, w)
  {
    if i > 0 {
      AddedNames(target, w[..i]);
      assert AvailableNames(w[..i])[0] == AvailableNames(w)[0];
      assert AvailableNames(w[..i])[0] in AvailableNames(w[..i]);
      assert AvailableNames(w)[0] in AvailableNames(w);
    }
  }
}
