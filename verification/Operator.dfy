/** The operator as a whole: its four workers take turns, in any order and any number of times. */
module Operator {
  import opened Objects
  import opened Protocol
  import opened Invariant
  import opened ApiServer
  import opened PoolPlans
  import opened ReservationPlans
  import Guarantees
  import PoolController
  import ReservationController
  import ClowdEnvController
  import Poller
  import SizeLimit

  /** From `before` on there is at most one claim. */
  ghost predicate ClaimsOnce(before: seq<Action>, acts: seq<Action>) {
    forall i, j | |before| <= i < j < |acts| :: !(Claims(acts[i]) && Claims(acts[j]))
  }

  lemma NoClaims(acts: seq<Action>)
    ensures ClaimsOnce(acts, acts)
  {
  }

  /** Claims are the reservation controller's, and a pass of it makes at most one. */
  lemma OnePassClaimsOnce(before: seq<Action>, acts: seq<Action>, k: string)
    requires before <= acts && OwnOf(before, ReservationWorker) <= OwnOf(acts, ReservationWorker)
    requires PassSteps(OwnOf(acts, ReservationWorker)[|OwnOf(before, ReservationWorker)|..], k)
    ensures ClaimsOnce(before, acts)
  {
    hide OwnOf, PassSteps;
    var who, since := ReservationWorker, acts[|before|..];
    assert acts == before + since;
    OwnOfAppend(before, since, who);
    var steps := OwnOf(since, who);
    assert OwnOf(acts, who)[|OwnOf(before, who)|..] == steps;
    PassClaimsOnce(steps, k);
    forall i, j | |before| <= i < j < |acts| ensures !(Claims(acts[i]) && Claims(acts[j])) {
      if Claims(acts[i]) && Claims(acts[j]) {
        var i', j' := OwnOfTwo(since, i - |before|, j - |before|, who);
      }
    }
  }

  class Operator {
    const client: Server
    const pools: PoolController.NamespacePoolReconciler
    const reservations: ReservationController.NamespaceReservationReconciler
    const envs: ClowdEnvController.ClowdenvironmentReconciler
    const poller: Poller.Poller

    constructor (client: Server, pick: set<string> -> string)
      requires client.Valid() && Fresh(pick)
      ensures Valid() && this.client == client
    {
      this.client := client;
      pools := new PoolController.NamespacePoolReconciler(client, pick);
      reservations := new ReservationController.NamespaceReservationReconciler(client);
      envs := new ClowdEnvController.ClowdenvironmentReconciler(client);
      poller := new Poller.Poller(client);
    }

    ghost predicate Valid()
      reads this, client
    {
      && client.Valid() && Fresh(pools.pick)
      && pools.client == client && reservations.client == client && envs.client == client && poller.client == client
    }

    /** One turn of a worker on some object. In one of the reservation controller at most one namespace is claimed. */
    method Turn(who: Actor)
      requires Valid() && client.Serves(who)
      modifies client
      ensures Valid() && client.Continues()
      ensures client.calm ==> client.Undisturbing()
      ensures who == ReservationWorker ==> ClaimsOnce(old(client.acts), client.acts)
    {
      hide Server.Valid, Inv, IsRun, OwnOf, Undisturbed, Fresh, PassSteps, ClaimsOnce;
      ghost var acts0 := client.acts;
      NoClaims(acts0);
      var name: string, text: string, frontend: bool := *, *, *;
      var order: seq<string>, clusterOrder: seq<string> := *, *;
      if !NoDup(order) {
        return;
      }
      match who
      case PoolWorker => var out := pools.Reconcile(name, order);
      case ReservationWorker =>
        var out := reservations.Reconcile(name, order, clusterOrder);
        client.OwnNow();
        OnePassClaimsOnce(acts0, client.acts, name);
      case EnvWorker => var out := envs.Reconcile(name, frontend, text);
      case PollWorker =>
        if client.s.populated {
          poller.PollPass(order);
        } else {
          var ok := poller.PopulateActiveReservations();
        }
      case Outside =>
    }

    /** Whatever the order, and with any steps of the others between any two calls, the whole is a run of the
        protocol, so all that holds of every run holds here. `alone` says that nothing came in between the calls of
        one turn; then the steps are undisturbed as well. */
    method Serve(turns: nat) returns (ghost alone: bool)
      requires Valid()
      modifies client
      ensures Valid() && old(client.acts) <= client.acts && old(client.run) <= client.run
      ensures alone ==> client.Undisturbing()
    {
      hide Inv, IsRun, OwnOf, Undisturbed;
      alone := true;
      for i := 0 to turns
        invariant Valid() && old(client.acts) <= client.acts && old(client.run) <= client.run
        invariant alone ==> client.Undisturbing()
      {
        client.TimePasses();
        var who: Actor := *;
        client.Begin(who);
        Turn(who);
        alone := alone && client.calm;
      }
    }

    /** With turns that nothing comes in between, a namespace stays with the reservation that owns it, and is alive
        exactly if it was, for as long as the reservation exists. */
    twostate lemma ClaimsAreSafe(k: string, uid: nat, n: string)
      requires old(client.Valid()) && client.Valid() && old(client.acts) <= client.acts && old(client.run) <= client.run
      requires client.Undisturbing()
      requires Guarantees.Stays(client.run, |old(client.acts)|, |client.acts|, k, uid)
      requires Guarantees.Owns(old(client.s), n, k, uid)
      ensures Guarantees.Alive(client.s, n) <==> Guarantees.Alive(old(client.s), n)
      ensures n in client.s.namespaces ==> client.s.namespaces[n].owners == [Owner(ReservationKind, k, uid)]
    {
      hide Inv, IsRun, OwnOf, Undisturbed, Guarantees.Owns, Guarantees.Alive, Guarantees.Stays;
      Guarantees.ClaimedNamespaceIsSafe(client.run, client.acts, |old(client.acts)|, |client.acts|, k, uid, n);
    }

    /** With turns that nothing comes in between, a pool at or below its size limit stays there, as long as "ready" is
        not written over an error or a deletion and no namespace of an earlier pool of that name is left. */
    twostate lemma LimitIsKept(p: string, limit: int)
      requires old(client.Valid()) && client.Valid() && old(client.acts) <= client.acts && old(client.run) <= client.run
      requires client.Undisturbing()
      requires p in old(client.s).pools && old(client.s).pools[p].spec.sizeLimit == Some(limit)
      requires Total(old(client.s), p) <= limit
      requires forall m | |old(client.acts)| <= m <= |client.acts| :: SizeLimit.SamePool(old(client.s), client.run[m], p)
      requires forall m {:trigger client.acts[m]} | |old(client.acts)| <= m < |client.acts| ::
                 !SizeLimit.ReadyOverFault(client.run[m], client.acts[m], p)
      requires forall m {:trigger client.run[m]} | |old(client.acts)| <= m < |client.acts| ::
                 SizeLimit.NoLeftovers(client.run[m], p)
      ensures Total(client.s, p) <= limit
    {
      hide Inv, IsRun, Undisturbed, Total, SizeLimit.ReadyOverFault, SizeLimit.NoLeftovers;
      SizeLimit.SizeLimitHoldsUndisturbed(client.run, client.acts, p, limit, |old(client.acts)|, |client.acts|);
    }
  }
}
