/** The two searches for the coordinator (src/player.cpp, src/listener.cpp), over the same client list. */
module Coordinator {
  import opened Messages
  import opened Membership
  import opened Connector

  /** The first client with the largest id, which must not be zero. */
  ghost predicate IsLeader(cs: seq<Client>, k: int) {
    && 0 <= k < |cs| && cs[k].bullyId > 0
    && (forall j :: 0 <= j < |cs| ==> cs[j].bullyId <= cs[k].bullyId)
    && (forall j :: 0 <= j < k ==> cs[j].bullyId < cs[k].bullyId)
  }

  ghost predicate Leaderless(cs: seq<Client>) {
    forall j :: 0 <= j < |cs| ==> cs[j].bullyId == 0
  }

  /** The leader carries the listener's own id; without a leader, that id is zero. */
  ghost predicate IsCoordinator(cl: ClientList) {
    if Leaderless(cl.clients) then cl.bullyId == 0
    else exists k :: IsLeader(cl.clients, k) && cl.clients[k].bullyId == cl.bullyId
  }

  method FindCoordinator(cl: ClientList) returns (ip: string)
    ensures Leaderless(cl.clients) ==> ip == ""
    ensures forall k :: IsLeader(cl.clients, k) ==> ip == cl.clients[k].ip
  {
    var coordinator := Client("", 0, 0);
    ghost var leader := 0;
    for i := 0 to |cl.clients|
      invariant forall j :: 0 <= j < i ==> cl.clients[j].bullyId <= coordinator.bullyId
      invariant coordinator.bullyId == 0 ==> coordinator.ip == ""
      invariant coordinator.bullyId > 0 ==>
        leader < i && coordinator == cl.clients[leader]
        && forall j :: 0 <= j < leader ==> cl.clients[j].bullyId < coordinator.bullyId
    {
      if cl.clients[i].bullyId > coordinator.bullyId {
        coordinator, leader := cl.clients[i], i;
      }
    }
    ip := coordinator.ip;
  }

  method IsThisCoordinator(cl: ClientList) returns (b: bool)
    ensures b <==> IsCoordinator(cl)
  {
    var coordinatorId := 0;
    for i := 0 to |cl.clients|
      invariant forall j :: 0 <= j < i ==> cl.clients[j].bullyId <= coordinatorId
      invariant coordinatorId == 0 || exists j :: 0 <= j < i && cl.clients[j].bullyId == coordinatorId
    {
      if cl.clients[i].bullyId > coordinatorId {
        coordinatorId := cl.clients[i].bullyId;
      }
    }
    b := coordinatorId == cl.bullyId;
    LeaderExists(cl.clients);
    if !Leaderless(cl.clients) {
      var k :| IsLeader(cl.clients, k);
      assert cl.clients[k].bullyId == coordinatorId;
    }
  }

  /** Every list has exactly one leader, unless no id in it is positive. */
  lemma {:induction false} LeaderExists(cs: seq<Client>)
    ensures Leaderless(cs) || exists k :: IsLeader(cs, k)
    ensures forall k, l :: IsLeader(cs, k) && IsLeader(cs, l) ==> k == l
  {
    if cs != [] {
      var init, n := cs[..|cs| - 1], |cs| - 1;
      LeaderExists(init);
      if Leaderless(init) {
        assert forall j :: 0 <= j < n ==> cs[j] == init[j];
        assert cs[n].bullyId > 0 ==> IsLeader(cs, n);
      } else {
        var k :| IsLeader(init, k);
        assert forall j :: 0 <= j < n ==> cs[j] == init[j];
        assert cs[n].bullyId > cs[k].bullyId ==> IsLeader(cs, n);
        assert cs[n].bullyId <= cs[k].bullyId ==> IsLeader(cs, k);
      }
    }
  }

  /**
   * Every list the connector can copy for a broadcast is empty or has a leader, with an address and an id
   * above zero.
   */
  lemma ConnectorListsHaveLeaders(steps: seq<Step>)
    requires Feasible(steps)
    ensures
      var cs := Clients(After(steps).clients);
      cs == [] || exists k :: IsLeader(cs, k) && cs[k].ip != "" && cs[k].bullyId >= 1
  {
    RunKeepsInv(steps);
    var cs := Clients(After(steps).clients);
    LeaderExists(cs);
    if cs != [] {
      assert ValidClient(cs[0]);
      var k :| IsLeader(cs, k);
      assert ValidClient(cs[k]);
    }
  }

  /**
   * On a list the connector produced, the sender's search returns the empty string only for the
   * empty list, and the listener claims to be the coordinator exactly when the member the sender
   * would address carries the listener's own id; on the empty list, when that id is zero.
   */
  method BothSearches(ghost steps: seq<Step>, cl: ClientList) returns (ip: string, mine: bool)
    requires Feasible(steps) && cl.clients == Clients(After(steps).clients)
    ensures ip == "" <==> cl.clients == []
    ensures cl.clients == [] ==> (mine <==> cl.bullyId == 0)
    ensures cl.clients != [] ==>
      exists k :: IsLeader(cl.clients, k) && ip == cl.clients[k].ip && (mine <==> cl.clients[k].bullyId == cl.bullyId)
    ensures cl.clients != [] && mine ==> cl.bullyId != 0
  {
    ConnectorListsHaveLeaders(steps);
    ip := FindCoordinator(cl);
    mine := IsThisCoordinator(cl);
    LeaderExists(cl.clients);
  }
}
