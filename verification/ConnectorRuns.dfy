/**
 * Runs of the connector, told from their steps alone: what the clock reads, what goes into the log,
 * who is in touch, and what is broadcast.
 */
module ConnectorRuns {
  import opened CTypes
  import opened Messages
  import opened Membership
  import opened Connector

  // ----- The clock -----

  /** What the clock reads after a run: what it was last set to. */
  function ClockOf(steps: seq<Step>): Time {
    if steps == [] then 0
    else match steps[|steps| - 1]
      case Tick(later) => later
      case _ => ClockOf(steps[..|steps| - 1])
  }

  /** What the clock read when the cleanup loop last woke. */
  function WokenAt(steps: seq<Step>): Time {
    if steps == [] then 0
    else if steps[|steps| - 1].CleanerWake? then ClockOf(steps[..|steps| - 1])
    else WokenAt(steps[..|steps| - 1])
  }

  /** The events of a run, each with the time it happened at; a sweep with the time its pass began at. */
  function History(steps: seq<Step>): seq<Event> {
    if steps == [] then []
    else
      var before := steps[..|steps| - 1];
      match steps[|steps| - 1]
      case HandleConnect(client) => History(before) + [Connected(client, ClockOf(before))]
      case HandleDisconnect(ip) => History(before) + [Disconnected(ip)]
      case HandleStatus(ip) => History(before) + [StatusFrom(ip, ClockOf(before))]
      case CleanerSweep => History(before) + [Swept(WokenAt(before))]
      case _ => History(before)
  }

  /** The log of every run is its history: every stamp is the time of its own step. */
  lemma {:induction false} LogIsHistory(steps: seq<Step>)
    requires Feasible(steps)
    ensures
      var s := After(steps);
      && s.clock == ClockOf(steps) && s.log == History(steps)
      && (s.sweepAt.Some? ==> s.sweepAt.value == WokenAt(steps))
  {
    hide Apply, Clients, Listed;
    if steps != [] {
      LogIsHistory(steps[..|steps| - 1]);
    }
  }

  lemma {:induction false} PrefixFeasible(steps: seq<Step>, n: nat)
    requires Feasible(steps) && n <= |steps|
    ensures Feasible(steps[..n])
    decreases |steps|
  {
    if n == |steps| {
      assert steps[..n] == steps;
    } else {
      assert steps[..|steps| - 1][..n] == steps[..n];
      PrefixFeasible(steps[..|steps| - 1], n);
    }
  }

  lemma {:induction false} ClockGoesOn(steps: seq<Step>, n: nat)
    requires Feasible(steps) && n <= |steps|
    ensures ClockOf(steps[..n]) <= ClockOf(steps)
    decreases |steps|
  {
    hide Do;
    if n == |steps| {
      assert steps[..n] == steps;
    } else {
      assert steps[..|steps| - 1][..n] == steps[..n];
      ClockGoesOn(steps[..|steps| - 1], n);
      LogIsHistory(steps[..|steps| - 1]);
    }
  }

  // ----- Members in touch -----

  /** A client that was not a member connects at the end of this run. */
  ghost predicate JoinsLast(joined: seq<Step>, client: Client) {
    && joined != [] && joined[|joined| - 1] == HandleConnect(client)
    && Feasible(joined) && !Listed(After(joined[..|joined| - 1]).clients, client.ip)
  }

  /** When a client that joined was last heard of: its last status since, or its joining. */
  function SignOfLife(joined: seq<Step>, later: seq<Step>, ip: string): Time {
    if later == [] then ClockOf(joined)
    else if later[|later| - 1] == HandleStatus(ip) then ClockOf(joined + later)
    else SignOfLife(joined, later[..|later| - 1], ip)
  }

  /** At no point is its last sign of life over 3 s old, nor does it say goodbye. */
  ghost predicate InTouch(joined: seq<Step>, later: seq<Step>, ip: string) {
    later == [] ||
    (&& InTouch(joined, later[..|later| - 1], ip)
     && later[|later| - 1] != HandleDisconnect(ip)
     && ClockOf(joined + later) <= SignOfLife(joined, later, ip) + 3 * SECOND)
  }

  /** The client's entry carries its last sign of life, and a pass under way would leave it. */
  ghost predicate Held(s: State, ip: string, sign: Time) {
    && (exists k :: 0 <= k < |s.clients| && s.clients[k].client.ip == ip && s.clients[k].timeout == sign)
    && (s.sweepAt.Some? ==> s.sweepAt.value <= sign + 3 * SECOND)
  }

  lemma EraseLeaves(es: seq<Entry>, gone: Entry -> bool, k: nat)
    requires k < |es| && !gone(es[k])
    ensures es[k] in EraseIf(es, gone)
  {
    var i := KeptAll(es, gone, |es|, k);
    KeptFrom(es, gone, |es|);
  }

  lemma StepHolds(s: State, step: Step, ip: string, sign: Time)
    requires Inv(s) && Enabled(s, step) && Held(s, ip, sign) && step != HandleDisconnect(ip)
    requires sign <= s.clock && (step != HandleStatus(ip) ==> Do(s, step).clock <= sign + 3 * SECOND)
    ensures Held(Do(s, step), ip, if step == HandleStatus(ip) then s.clock else sign)
  {
    hide ReplayTo, Listed, EraseIf, Clients;
    var k :| 0 <= k < |s.clients| && s.clients[k].client.ip == ip && s.clients[k].timeout == sign;
    var next := Do(s, step);
    match step
    case HandleDisconnect(jp) => EraseLeaves(s.clients, HasIp(jp), k);
    case CleanerSweep => EraseLeaves(s.clients, PastTimeout(s.sweepAt.value), k);
    case HandleStatus(jp) => assert next.clients[k].client.ip == ip;
    case HandleConnect(_) => assert next.clients[k] == s.clients[k];
    case _ =>
  }

  lemma JoiningHolds(joined: seq<Step>, client: Client)
    requires JoinsLast(joined, client)
    ensures Held(After(joined), client.ip, ClockOf(joined))
  {
    var before := joined[..|joined| - 1];
    RunKeepsInv(before);
    LogIsHistory(before);
    hide Listed, Clients, ReplayTo;
    var s := After(joined);
    assert s.clients[|s.clients| - 1] == Entry(client, ClockOf(joined));
  }

  lemma {:induction false} InTouchHolds(joined: seq<Step>, later: seq<Step>, client: Client)
    requires JoinsLast(joined, client) && Feasible(joined + later) && InTouch(joined, later, client.ip)
    ensures Held(After(joined + later), client.ip, SignOfLife(joined, later, client.ip))
    ensures SignOfLife(joined, later, client.ip) <= ClockOf(joined + later)
  {
    hide Held, JoinsLast, Inv, Enabled, Do;
    if later == [] {
      assert joined + later == joined;
      JoiningHolds(joined, client);
    } else {
      var steps, init, step := joined + later, later[..|later| - 1], later[|later| - 1];
      assert steps[..|steps| - 1] == joined + init;
      InTouchHolds(joined, init, client);
      RunKeepsInv(joined + init);
      LogIsHistory(joined + init);
      LogIsHistory(steps);
      ClockGoesOn(steps, |steps| - 1);
      StepHolds(After(joined + init), step, client.ip, SignOfLife(joined, init, client.ip));
    }
  }

  /** In every run, a client that joins and stays in touch is listed at every later point. */
  lemma InTouchStaysListed(joined: seq<Step>, later: seq<Step>, client: Client)
    requires JoinsLast(joined, client) && Feasible(joined + later) && InTouch(joined, later, client.ip)
    ensures Listed(After(joined + later).clients, client.ip)
  {
    InTouchHolds(joined, later, client);
  }

  /** So a client is listed for the 3 s after its joining, whatever else happens, unless it says goodbye. */
  lemma JoinedStaysListed(joined: seq<Step>, later: seq<Step>, client: Client)
    requires JoinsLast(joined, client) && Feasible(joined + later)
    requires HandleDisconnect(client.ip) !in later
    requires ClockOf(joined + later) <= ClockOf(joined) + 3 * SECOND
    ensures Listed(After(joined + later).clients, client.ip)
  {
    AllInTouch(joined, later, client);
    InTouchStaysListed(joined, later, client);
  }

  lemma {:induction false} AllInTouch(joined: seq<Step>, later: seq<Step>, client: Client)
    requires Feasible(joined + later) && HandleDisconnect(client.ip) !in later
    requires ClockOf(joined + later) <= ClockOf(joined) + 3 * SECOND
    ensures InTouch(joined, later, client.ip) && ClockOf(joined) <= SignOfLife(joined, later, client.ip)
  {
    hide Enabled, Do;
    var steps := joined + later;
    assert steps[..|joined|] == joined;
    ClockGoesOn(steps, |joined|);
    if later != [] {
      var init := later[..|later| - 1];
      assert steps[..|steps| - 1] == joined + init;
      ClockGoesOn(steps, |steps| - 1);
      AllInTouch(joined, init, client);
    }
  }

  // ----- What a sweep does -----

  predicate ConnectsAgain(later: seq<Step>, ip: string) {
    exists k :: 0 <= k < |later| && later[k].HandleConnect? && later[k].client.ip == ip
  }

  /** Every entry of the client carries its last sign of life. */
  ghost predicate Stamped(es: seq<Entry>, ip: string, sign: Time) {
    forall k :: 0 <= k < |es| && es[k].client.ip == ip ==> es[k].timeout == sign
  }

  lemma StepStamped(s: State, step: Step, ip: string, sign: Time)
    requires Enabled(s, step) && Stamped(s.clients, ip, sign)
    requires !(step.HandleConnect? && step.client.ip == ip)
    ensures Stamped(Do(s, step).clients, ip, if step == HandleStatus(ip) then s.clock else sign)
  {
    hide Listed, EraseIf, Clients;
    match step
    case HandleDisconnect(jp) => EraseKeepsEntries(s.clients, HasIp(jp));
    case CleanerSweep => EraseKeepsEntries(s.clients, PastTimeout(s.sweepAt.value));
    case _ =>
  }

  lemma JoiningStamps(joined: seq<Step>, client: Client)
    requires JoinsLast(joined, client)
    ensures Stamped(After(joined).clients, client.ip, ClockOf(joined))
  {
    var before := joined[..|joined| - 1];
    LogIsHistory(before);
    hide Clients;
  }

  lemma {:induction false} RunStamped(joined: seq<Step>, later: seq<Step>, client: Client)
    requires JoinsLast(joined, client) && Feasible(joined + later) && !ConnectsAgain(later, client.ip)
    ensures Stamped(After(joined + later).clients, client.ip, SignOfLife(joined, later, client.ip))
  {
    hide Stamped, JoinsLast, Enabled, Do;
    if later == [] {
      assert joined + later == joined;
      JoiningStamps(joined, client);
    } else {
      var steps, init := joined + later, later[..|later| - 1];
      assert steps[..|steps| - 1] == joined + init;
      assert forall k :: 0 <= k < |init| ==> init[k] == later[k];
      RunStamped(joined, init, client);
      LogIsHistory(joined + init);
      LogIsHistory(steps);
      StepStamped(After(joined + init), later[|later| - 1], client.ip, SignOfLife(joined, init, client.ip));
      SameClock(After(joined + init), later[|later| - 1]);
    }
  }

  lemma SameClock(s: State, step: Step)
    requires Enabled(s, step)
    ensures !step.Tick? ==> Do(s, step).clock == s.clock
  {
  }

  lemma SweepOne(es: seq<Entry>, ip: string, sign: Time, now: Time)
    requires Stamped(es, ip, sign) && Listed(es, ip)
    ensures Listed(EraseIf(es, PastTimeout(now)), ip) <==> now <= sign + 3 * SECOND
  {
    var k :| 0 <= k < |es| && es[k].client.ip == ip;
    if now <= sign + 3 * SECOND {
      EraseLeaves(es, PastTimeout(now), k);
    } else {
      KeptFrom(es, PastTimeout(now), |es|);
    }
  }

  /** Who does not connect does not become a member. */
  lemma {:induction false} UnlistedStays(before: seq<Step>, later: seq<Step>, ip: string)
    requires Feasible(before) && Feasible(before + later) && !ConnectsAgain(later, ip)
    requires !Listed(After(before).clients, ip)
    ensures !Listed(After(before + later).clients, ip)
  {
    hide Enabled, Do, Listed;
    if later == [] {
      assert before + later == before;
    } else {
      var steps, init := before + later, later[..|later| - 1];
      assert steps[..|steps| - 1] == before + init;
      assert forall k :: 0 <= k < |init| ==> init[k] == later[k];
      UnlistedStays(before, init, ip);
      StepUnlisted(After(before + init), later[|later| - 1], ip);
    }
  }

  lemma StepUnlisted(s: State, step: Step, ip: string)
    requires Enabled(s, step) && !Listed(s.clients, ip) && !(step.HandleConnect? && step.client.ip == ip)
    ensures !Listed(Do(s, step).clients, ip)
  {
    hide EraseIf, Clients;
    match step
    case HandleDisconnect(jp) => EraseKeepsEntries(s.clients, HasIp(jp));
    case CleanerSweep => EraseKeepsEntries(s.clients, PastTimeout(s.sweepAt.value));
    case HandleConnect(client) =>
      forall k | 0 <= k < |Do(s, step).clients|
        ensures Do(s, step).clients[k].client.ip != ip
      {
        if k < |s.clients| { assert s.clients[k].client.ip != ip; }
      }
    case _ =>
  }

  /**
   * Exactly which members a pass removes: a member stays if and only if the pass began no more than
   * 3 s after its last sign of life, wherever in the run either lies.
   */
  lemma SweepExactly(joined: seq<Step>, later: seq<Step>, client: Client)
    requires JoinsLast(joined, client) && Feasible(joined + later + [CleanerSweep]) && !ConnectsAgain(later, client.ip)
    requires Feasible(joined + later) && Listed(After(joined + later).clients, client.ip)
    ensures Listed(After(joined + later + [CleanerSweep]).clients, client.ip)
       <==> WokenAt(joined + later) <= SignOfLife(joined, later, client.ip) + 3 * SECOND
  {
    var before, steps := joined + later, joined + later + [CleanerSweep];
    RunStamped(joined, later, client);
    SweptList(before);
    hide Feasible, After, JoinsLast, EraseIf, Stamped, Listed;
    SweepOne(After(before).clients, client.ip, SignOfLife(joined, later, client.ip), WokenAt(before));
  }

  lemma SweptList(before: seq<Step>)
    requires Feasible(before) && Feasible(before + [CleanerSweep])
    ensures After(before + [CleanerSweep]).clients == EraseIf(After(before).clients, PastTimeout(WokenAt(before)))
  {
    var steps := before + [CleanerSweep];
    assert steps[..|steps| - 1] == before;
    LogIsHistory(before);
    hide EraseIf;
  }

  // ----- Broadcasts -----

  /** A step that gives reason for a broadcast: a new member, a goodbye, or a sweep that takes a member out. */
  ghost predicate GivesReason(before: seq<Step>, step: Step)
    requires Feasible(before) && Enabled(After(before), step)
  {
    var was, now := After(before).clients, Do(After(before), step).clients;
    match step
    case HandleConnect(client) => !Listed(was, client.ip)
    case HandleDisconnect(_) => true
    case CleanerSweep => exists k :: 0 <= k < |was| && !Listed(now, was[k].client.ip)
    case _ => false
  }

  ghost function Reasons(steps: seq<Step>): nat
    requires Feasible(steps)
  {
    if steps == [] then 0
    else
      var before := steps[..|steps| - 1];
      Reasons(before) + (if GivesReason(before, steps[|steps| - 1]) then 1 else 0)
  }

  function Copies(steps: seq<Step>): nat {
    if steps == [] then 0
    else Copies(steps[..|steps| - 1]) + (if CopierOf(steps[|steps| - 1]).Some? then 1 else 0)
  }

  function Sends(steps: seq<Step>): nat {
    if steps == [] then 0
    else Sends(steps[..|steps| - 1]) + (if SenderOf(steps[|steps| - 1]).Some? then 1 else 0)
  }

  function Owing(s: State): nat {
    (if s.handler.Owed? then 1 else 0) + (if s.cleaner.Owed? then 1 else 0)
  }

  function Underway(s: State): nat {
    (if s.handler.Sending? then 1 else 0) + (if s.cleaner.Sending? then 1 else 0)
  }

  /** A list that loses an entry loses an ip, as none is listed twice. */
  lemma ShorterLosesOne(es: seq<Entry>, gone: Entry -> bool)
    requires forall k, l :: 0 <= k < l < |es| ==> es[k].client.ip != es[l].client.ip
    ensures |EraseIf(es, gone)| < |es| <==> exists k :: 0 <= k < |es| && !Listed(EraseIf(es, gone), es[k].client.ip)
  {
    var after, idx := EraseIf(es, gone), KeptIndexes(es, gone, |es|);
    EraseKeepsEntries(es, gone);
    KeptFrom(es, gone, |es|);
    hide EraseIf, KeptIndexes;
    if |after| < |es| {
      if forall k :: 0 <= k < |es| ==> !gone(es[k]) {
        NoneErased(es, gone, |es|);
        assert false;
      }
      var k :| 0 <= k < |es| && gone(es[k]);
      forall j | 0 <= j < |after|
        ensures after[j].client.ip != es[k].client.ip
      {
        assert after[j] == es[idx[j]] && idx[j] != k;
      }
    } else {
      forall k | 0 <= k < |es|
        ensures Listed(after, es[k].client.ip)
      {
        assert after[k].client.ip == es[k].client.ip;
      }
    }
  }

  lemma {:induction false} NoneErased(es: seq<Entry>, gone: Entry -> bool, n: nat)
    requires n <= |es| && forall k :: 0 <= k < n ==> !gone(es[k])
    ensures |KeptOf(es, gone, n)| == n
  {
    if n > 0 { NoneErased(es, gone, n - 1); }
  }

  lemma StepOwes(before: seq<Step>, step: Step)
    requires Feasible(before) && Enabled(After(before), step)
    ensures
      var s, next := After(before), Do(After(before), step);
      && Owing(next) + (if CopierOf(step).Some? then 1 else 0)
          == Owing(s) + (if GivesReason(before, step) then 1 else 0)
      && Underway(next) + (if SenderOf(step).Some? then 1 else 0)
          == Underway(s) + (if CopierOf(step).Some? then 1 else 0)
  {
    var s := After(before);
    RunKeepsInv(before);
    ListIsMembership(s.log, "");
    hide Feasible, After, EraseIf, Clients, ReplayTo;
    if step.CleanerSweep? {
      ShorterLosesOne(s.clients, PastTimeout(s.sweepAt.value));
    }
    hide Listed;
  }

  /**
   * In every run, every new member, goodbye and sweep that takes a member out makes one copy of the
   * list, and every copy is sent once: what is missing is still owed or under way.
   */
  lemma {:induction false} BroadcastsCounted(steps: seq<Step>)
    requires Feasible(steps)
    ensures Reasons(steps) == Copies(steps) + Owing(After(steps))
    ensures Copies(steps) == Sends(steps) + Underway(After(steps))
  {
    hide Enabled, Do, GivesReason, Owing, Underway;
    if steps == [] {
      NothingOwedAtFirst();
    } else {
      BroadcastsCounted(steps[..|steps| - 1]);
      StepOwes(steps[..|steps| - 1], steps[|steps| - 1]);
    }
  }

  lemma NothingOwedAtFirst()
    ensures Owing(INIT) == 0 && Underway(INIT) == 0
  {
  }

  /** Neither thread is ever stuck: each can take a next step, and a handler owing nothing takes any message. */
  lemma NeverStuck(steps: seq<Step>, message: Step) returns (handle: Step, clean: Step)
    requires Feasible(steps)
    requires message.HandleDisconnect? || message.HandleStatus?
      || (message.HandleConnect? && ValidClient(message.client))
    ensures Enabled(After(steps), handle) && (handle == message || handle.HandlerSnapshot? || handle.HandlerSend?)
    ensures Enabled(After(steps), clean)
    ensures clean.CleanerWake? || clean.CleanerSweep? || clean.CleanerSnapshot? || clean.CleanerSend?
    ensures After(steps).handler.Nothing? ==> handle == message
  {
    var s := After(steps);
    handle := match s.handler case Nothing => message case Owed => HandlerSnapshot case Sending(_) => HandlerSend;
    clean := if s.sweepAt.Some? then CleanerSweep
      else match s.cleaner case Nothing => CleanerWake case Owed => CleanerSnapshot case Sending(_) => CleanerSend;
  }
}
