/**
 * The connector's member list (src/connector.cpp): the vector it keeps, the four operations on it,
 * and what the list means in terms of the history of events alone.
 */
module Membership {
  import opened Messages

  /** Clock readings and durations in nanoseconds. */
  type Time = int
  const SECOND: Time := 1_000_000_000
  const TIMEOUT: Time := 3 * SECOND

  datatype Entry = Entry(client: Client, timeout: Time)

  /** What happens to the list, each under one lock or in one assignment. A sweep acts on the clock it read earlier. */
  datatype Event =
    | Connected(client: Client, at: Time)
    | Disconnected(ip: string)
    | StatusFrom(ip: string, at: Time)
    | Swept(now: Time)

  // ----- The operations, on values -----

  predicate Listed(es: seq<Entry>, ip: string) {
    exists k :: 0 <= k < |es| && es[k].client.ip == ip
  }

  /** The first n entries without those the test picks, in order. */
  function KeptOf(es: seq<Entry>, gone: Entry -> bool, n: nat): seq<Entry>
    requires n <= |es|
  {
    if n == 0 then [] else KeptOf(es, gone, n - 1) + (if gone(es[n - 1]) then [] else [es[n - 1]])
  }

  /** `std::erase_if`. */
  function EraseIf(es: seq<Entry>, gone: Entry -> bool): seq<Entry> {
    KeptOf(es, gone, |es|)
  }

  function HasIp(ip: string): Entry -> bool {
    (e: Entry) => e.client.ip == ip
  }

  function PastTimeout(now: Time): Entry -> bool {
    (e: Entry) => e.timeout + TIMEOUT < now
  }

  function Refreshed(es: seq<Entry>, ip: string, at: Time): (r: seq<Entry>)
    ensures |r| == |es|
    ensures forall k :: 0 <= k < |es| ==> r[k] == if es[k].client.ip == ip then es[k].(timeout := at) else es[k]
  {
    seq(|es|, k requires 0 <= k < |es| => if es[k].client.ip == ip then es[k].(timeout := at) else es[k])
  }

  function Apply(es: seq<Entry>, e: Event): seq<Entry> {
    match e
    case Connected(client, at) => if Listed(es, client.ip) then es else es + [Entry(client, at)]
    case Disconnected(ip) => EraseIf(es, HasIp(ip))
    case StatusFrom(ip, at) => Refreshed(es, ip, at)
    case Swept(now) => EraseIf(es, PastTimeout(now))
  }

  /** The list after the first n events. */
  function ReplayTo(log: seq<Event>, n: nat): seq<Entry>
    requires n <= |log|
  {
    if n == 0 then [] else Apply(ReplayTo(log, n - 1), log[n - 1])
  }

  function Replay(log: seq<Event>): seq<Entry> {
    ReplayTo(log, |log|)
  }

  function Clients(es: seq<Entry>): (cs: seq<Client>)
    ensures |cs| == |es| && forall k :: 0 <= k < |es| ==> cs[k] == es[k].client
  {
    seq(|es|, k requires 0 <= k < |es| => es[k].client)
  }

  // ----- The vector -----

  class ClientTable {
    var clients: seq<Entry>

    constructor ()
      ensures clients == []
    {
      clients := [];
    }

    /** CONNECT: looked for by ip, appended when new. */
    method AddClient(client: Client, now: Time) returns (added: bool)
      modifies this
      ensures clients == Apply(old(clients), Connected(client, now))
      ensures added <==> !Listed(old(clients), client.ip)
    {
      for i := 0 to |clients|
        invariant clients == old(clients)
        invariant forall k :: 0 <= k < i ==> clients[k].client.ip != client.ip
      {
        if clients[i].client.ip == client.ip {
          return false;
        }
      }
      clients := clients + [Entry(client, now)];
      added := true;
    }

    /** DISCONNECT. */
    method RemoveClient(toRemove: Client)
      modifies this
      ensures clients == Apply(old(clients), Disconnected(toRemove.ip))
    {
      var _ := Erase(HasIp(toRemove.ip));
    }

    /** `std::erase_if` on the vector, and how many it erased. */
    method Erase(gone: Entry -> bool) returns (erased: nat)
      modifies this
      ensures clients == EraseIf(old(clients), gone)
      ensures erased == |old(clients)| - |clients|
      ensures erased == 0 ==> clients == old(clients)
    {
      var kept: seq<Entry> := [];
      erased := 0;
      for i := 0 to |clients|
        invariant clients == old(clients) && kept == KeptOf(clients, gone, i)
        invariant erased == i - |kept| && (erased == 0 ==> kept == clients[..i])
      {
        if gone(clients[i]) {
          erased := erased + 1;
        } else {
          kept := kept + [clients[i]];
        }
      }
      clients := kept;
    }

    /** SEND_STATUS: every entry with the sender's ip is stamped. */
    method RefreshTimeout(toRefresh: Client, now: Time)
      modifies this
      ensures clients == Apply(old(clients), StatusFrom(toRefresh.ip, now))
    {
      for i := 0 to |clients|
        invariant |clients| == |old(clients)|
        invariant forall k :: 0 <= k < i ==> clients[k] == Refreshed(old(clients), toRefresh.ip, now)[k]
        invariant forall k :: i <= k < |clients| ==> clients[k] == old(clients)[k]
      {
        if clients[i].client.ip == toRefresh.ip {
          clients := clients[i := clients[i].(timeout := now)];
        }
      }
    }

    /** The cleanup pass, with the number of entries it erased. */
    method EraseTimedOut(now: Time) returns (erased: nat)
      modifies this
      ensures clients == Apply(old(clients), Swept(now))
      ensures erased == |old(clients)| - |clients|
      ensures erased == 0 ==> clients == old(clients)
    {
      erased := Erase(PastTimeout(now));
    }

    /** The copy taken under the lock before a broadcast. */
    method SnapshotList() returns (list: seq<Client>)
      ensures list == Clients(clients)
    {
      list := [];
      for i := 0 to |clients|
        invariant |list| == i && forall k :: 0 <= k < i ==> list[k] == clients[k].client
      {
        list := list + [clients[i].client];
      }
    }
  }

  // ----- What the list means, from the log alone -----

  /** The time a client listed since event i was last heard of, before event n: its joining, or its last status. */
  function LastHeard(log: seq<Event>, ip: string, i: nat, n: nat): Time
    requires i < n <= |log| && log[i].Connected?
  {
    if n - 1 == i then log[i].at
    else if log[n - 1].StatusFrom? && log[n - 1].ip == ip then log[n - 1].at
    else LastHeard(log, ip, i, n - 1)
  }

  /** Event j ends a membership begun at event i: a goodbye, or a sweep over 3 s after the last sign of life. */
  predicate Ends(log: seq<Event>, ip: string, i: nat, j: nat)
    requires i < j < |log| && log[i].Connected?
  {
    || log[j] == Disconnected(ip)
    || (log[j].Swept? && LastHeard(log, ip, i, j) + TIMEOUT < log[j].now)
  }

  /** Event i is a CONNECT by ip, and nothing before event n ended what it began. */
  ghost predicate Lasts(log: seq<Event>, ip: string, i: nat, n: nat)
    requires i < n <= |log|
  {
    && log[i].Connected? && log[i].client.ip == ip
    && forall j :: i < j < n ==> !Ends(log, ip, i, j)
  }

  /** Event i began a membership: a CONNECT by a client that was not a member then. */
  ghost predicate Joins(log: seq<Event>, ip: string, i: nat)
    requires i < |log|
    decreases i, 1
  {
    log[i].Connected? && log[i].client.ip == ip && !Member(log, ip, i)
  }

  /** The client is a member after n events: it joined once, and nothing ended that since. */
  ghost predicate Member(log: seq<Event>, ip: string, n: nat)
    requires n <= |log|
    decreases n, 0
  {
    exists i :: 0 <= i < n && Joins(log, ip, i) && Lasts(log, ip, i, n)
  }

  // ----- The list agrees with the log -----

  /** Event i explains an entry listed after n events: it began the membership, which lasts. */
  ghost predicate Explained(log: seq<Event>, n: nat, e: Entry, i: nat)
    requires n <= |log|
  {
    && i < n && Joins(log, e.client.ip, i) && Lasts(log, e.client.ip, i, n)
    && log[i].client == e.client && e.timeout == LastHeard(log, e.client.ip, i, n)
  }

  /** The joining events of all members, one for each entry and in the order of the list. */
  ghost predicate Explains(log: seq<Event>, n: nat, es: seq<Entry>, joins: seq<nat>)
    requires n <= |log|
  {
    && |joins| == |es|
    && (forall k :: 0 <= k < |es| ==> Explained(log, n, es[k], joins[k]))
    && (forall k, l :: 0 <= k < l < |joins| ==> joins[k] < joins[l])
    && (forall i, ip :: 0 <= i < n && Joins(log, ip, i) && Lasts(log, ip, i, n) ==> i in joins)
  }

  /** Where the kept entries stood. */
  ghost function KeptIndexes(es: seq<Entry>, gone: Entry -> bool, n: nat): seq<nat>
    requires n <= |es|
  {
    if n == 0 then [] else KeptIndexes(es, gone, n - 1) + (if gone(es[n - 1]) then [] else [n - 1])
  }

  lemma {:induction false} KeptFrom(es: seq<Entry>, gone: Entry -> bool, n: nat)
    requires n <= |es|
    ensures |KeptIndexes(es, gone, n)| == |KeptOf(es, gone, n)|
    ensures forall k :: 0 <= k < |KeptOf(es, gone, n)| ==>
      var i := KeptIndexes(es, gone, n)[k];
      i < n && KeptOf(es, gone, n)[k] == es[i] && !gone(es[i])
  {
    if n > 0 { KeptFrom(es, gone, n - 1); }
  }

  lemma {:induction false} KeptInOrder(es: seq<Entry>, gone: Entry -> bool, n: nat)
    requires n <= |es|
    ensures forall k, l :: 0 <= k < l < |KeptIndexes(es, gone, n)| ==>
      KeptIndexes(es, gone, n)[k] < KeptIndexes(es, gone, n)[l]
  {
    if n > 0 {
      KeptFrom(es, gone, n - 1);
      KeptInOrder(es, gone, n - 1);
    }
  }

  lemma {:induction false} KeptAll(es: seq<Entry>, gone: Entry -> bool, n: nat, j: nat) returns (k: nat)
    requires j < n <= |es| && !gone(es[j])
    ensures k < |KeptIndexes(es, gone, n)| && KeptIndexes(es, gone, n)[k] == j
  {
    if j == n - 1 {
      k := |KeptIndexes(es, gone, n - 1)|;
    } else {
      k := KeptAll(es, gone, n - 1, j);
    }
  }

  /** One event further, a membership goes on or ends. */
  lemma LastsOn(log: seq<Event>, ip: string, i: nat, n: nat)
    requires i < n < |log| && log[i].Connected?
    ensures Lasts(log, ip, i, n + 1) <==> Lasts(log, ip, i, n) && !Ends(log, ip, i, n)
    ensures LastHeard(log, ip, i, n + 1)
         == if log[n].StatusFrom? && log[n].ip == ip then log[n].at else LastHeard(log, ip, i, n)
  {
  }

  /** A member, by the log, is a listed client. */
  lemma MemberIsListed(log: seq<Event>, n: nat, es: seq<Entry>, joins: seq<nat>, ip: string)
    requires n <= |log| && Explains(log, n, es, joins)
    ensures Member(log, ip, n) <==> Listed(es, ip)
  {
    if Member(log, ip, n) {
      var i :| 0 <= i < n && Joins(log, ip, i) && Lasts(log, ip, i, n);
      var k :| 0 <= k < |joins| && joins[k] == i;
      assert Explained(log, n, es[k], i);
      assert es[k].client.ip == ip;
    }
    if Listed(es, ip) {
      var k :| 0 <= k < |es| && es[k].client.ip == ip;
      assert Explained(log, n, es[k], joins[k]);
    }
  }

  lemma ExplainConnected(log: seq<Event>, n: nat, es: seq<Entry>, joins: seq<nat>) returns (more: seq<nat>)
    requires n < |log| && Explains(log, n, es, joins) && log[n].Connected?
    ensures Explains(log, n + 1, Apply(es, log[n]), more)
  {
    var ip := log[n].client.ip;
    MemberIsListed(log, n, es, joins, ip);
    var after := Apply(es, log[n]);
    more := if Listed(es, ip) then joins else joins + [n];
    forall k | 0 <= k < |after|
      ensures Explained(log, n + 1, after[k], more[k])
    {
      if k < |es| {
        assert Explained(log, n, es[k], joins[k]);
        LastsOn(log, es[k].client.ip, joins[k], n);
      }
    }
    forall i, jp | 0 <= i < n + 1 && Joins(log, jp, i) && Lasts(log, jp, i, n + 1)
      ensures i in more
    {
      if i < n {
        LastsOn(log, jp, i, n);
        assert i in joins;
      }
    }
  }

  lemma ExplainErased(log: seq<Event>, n: nat, es: seq<Entry>, joins: seq<nat>, gone: Entry -> bool)
    returns (fewer: seq<nat>)
    requires n < |log| && Explains(log, n, es, joins)
    requires !log[n].Connected? && !log[n].StatusFrom? && Apply(es, log[n]) == EraseIf(es, gone)
    requires forall k :: 0 <= k < |es| ==>
      Explained(log, n, es[k], joins[k]) && (gone(es[k]) <==> Ends(log, es[k].client.ip, joins[k], n))
    ensures Explains(log, n + 1, Apply(es, log[n]), fewer)
  {
    var idx, after := KeptIndexes(es, gone, |es|), EraseIf(es, gone);
    KeptFrom(es, gone, |es|);
    KeptInOrder(es, gone, |es|);
    hide KeptIndexes, KeptOf, Ends;
    fewer := seq(|idx|, k requires 0 <= k < |idx| => joins[idx[k]]);
    forall k | 0 <= k < |after|
      ensures Explained(log, n + 1, after[k], fewer[k])
    {
      LastsOn(log, after[k].client.ip, fewer[k], n);
    }
    forall i, jp | 0 <= i < n + 1 && Joins(log, jp, i) && Lasts(log, jp, i, n + 1)
      ensures i in fewer
    {
      LastsOn(log, jp, i, n);
      var j: nat :| j < |joins| && joins[j] == i;
      var k := KeptAll(es, gone, |es|, j);
      assert fewer[k] == i;
    }
  }

  lemma ExplainStatus(log: seq<Event>, n: nat, es: seq<Entry>, joins: seq<nat>)
    requires n < |log| && Explains(log, n, es, joins) && log[n].StatusFrom?
    ensures Explains(log, n + 1, Apply(es, log[n]), joins)
  {
    var after := Apply(es, log[n]);
    forall k | 0 <= k < |after|
      ensures Explained(log, n + 1, after[k], joins[k])
    {
      assert Explained(log, n, es[k], joins[k]);
      LastsOn(log, es[k].client.ip, joins[k], n);
    }
    forall i, jp | 0 <= i < n + 1 && Joins(log, jp, i) && Lasts(log, jp, i, n + 1)
      ensures i in joins
    {
      assert i < n;
      LastsOn(log, jp, i, n);
    }
  }

  /**
   * For every history: the list holds exactly the members the log defines, each once, in joining
   * order, with the client record of its joining and the time it was last heard of.
   */
  lemma {:induction false} ReplayExplained(log: seq<Event>, n: nat) returns (joins: seq<nat>)
    requires n <= |log|
    ensures Explains(log, n, ReplayTo(log, n), joins)
  {
    if n == 0 {
      joins := [];
    } else {
      var m := n - 1;
      var es := ReplayTo(log, m);
      joins := ReplayExplained(log, m);
      match log[m]
      case Connected(_, _) => joins := ExplainConnected(log, m, es, joins);
      case StatusFrom(_, _) => ExplainStatus(log, m, es, joins);
      case Disconnected(ip) =>
        assert forall k :: 0 <= k < |es| ==> Explained(log, m, es[k], joins[k]);
        joins := ExplainErased(log, m, es, joins, HasIp(ip));
      case Swept(now) =>
        assert forall k :: 0 <= k < |es| ==> Explained(log, m, es[k], joins[k]);
        joins := ExplainErased(log, m, es, joins, PastTimeout(now));
    }
  }

  /** Membership in the list is membership by the log, and no ip is listed twice. */
  lemma ListIsMembership(log: seq<Event>, ip: string)
    ensures Listed(Replay(log), ip) <==> Member(log, ip, |log|)
    ensures forall k, l :: 0 <= k < l < |Replay(log)| ==> Replay(log)[k].client.ip != Replay(log)[l].client.ip
  {
    var es := Replay(log);
    var joins := ReplayExplained(log, |log|);
    MemberIsListed(log, |log|, es, joins, ip);
    forall k, l | 0 <= k < l < |es|
      ensures es[k].client.ip != es[l].client.ip
    {
      assert Explained(log, |log|, es[k], joins[k]) && Explained(log, |log|, es[l], joins[l]);
      if es[k].client.ip == es[l].client.ip {
        LastsBefore(log, es[k].client.ip, joins[k], joins[l], |log|);
        assert Member(log, es[l].client.ip, joins[l]);
      }
    }
  }

  lemma LastsBefore(log: seq<Event>, ip: string, i: nat, m: nat, n: nat)
    requires i < m <= n <= |log| && Lasts(log, ip, i, n)
    ensures Lasts(log, ip, i, m)
  {
  }

  // ----- Timeouts -----

  /** No sweep between events i and n reads a clock over 3 s past the client's last sign of life. */
  ghost predicate Timely(log: seq<Event>, ip: string, i: nat, n: nat)
    requires i < n <= |log| && log[i].Connected?
  {
    forall j :: i < j < n && log[j].Swept? ==> log[j].now <= LastHeard(log, ip, i, j) + TIMEOUT
  }

  /** A member that no sweep finds silent for over 3 s is listed until it says goodbye. */
  lemma TimelyMemberStays(log: seq<Event>, ip: string, i: nat)
    requires i < |log| && Joins(log, ip, i) && Timely(log, ip, i, |log|)
    ensures Listed(Replay(log), ip) || exists j :: i < j < |log| && log[j] == Disconnected(ip)
  {
    ListIsMembership(log, ip);
    if !(exists j :: i < j < |log| && log[j] == Disconnected(ip)) {
      assert Lasts(log, ip, i, |log|);
    }
  }

  /**
   * A silent client is gone after the first sweep over 3 s past its last sign of life, and stays out until it
   * joins again.
   */
  lemma SilentClientGoes(log: seq<Event>, ip: string, i: nat, j: nat)
    requires i < j < |log| && Joins(log, ip, i) && Lasts(log, ip, i, j)
    requires log[j].Swept? && log[j].now > LastHeard(log, ip, i, j) + TIMEOUT
    requires forall k :: j < k < |log| ==> !(log[k].Connected? && log[k].client.ip == ip)
    ensures !Listed(Replay(log), ip)
  {
    ListIsMembership(log, ip);
    forall k | 0 <= k < |log| && Joins(log, ip, k)
      ensures !Lasts(log, ip, k, |log|)
    {
      if k < i {
        assert !Lasts(log, ip, k, i);
      } else if k == i {
        assert Ends(log, ip, i, j);
      } else {
        LastsBefore(log, ip, i, k, j);
        assert Member(log, ip, k);
      }
    }
  }
}
