/**
 * The connector's two threads (src/connector.cpp): the message handler and the cleanup loop change
 * the member list under a lock, then each copies it under the lock and sends the copy to every
 * member. Locked sections and single assignments are atomic steps; anything may happen in between.
 */
module Connector {
  import opened CTypes
  import opened Messages
  import opened Membership

  /** What a thread still has to do for the broadcast it owes. */
  datatype Broadcast = Nothing | Owed | Sending(list: seq<Client>)

  datatype State = State(
    clients: seq<Entry>,
    clock: Time,
    handler: Broadcast,
    cleaner: Broadcast,
    sweepAt: Option<Time>,        // the clock reading of a cleanup pass under way, if any
    lastSnapshot: seq<Client>,    // the list as last copied for a broadcast
    lastSent: seq<Client>,        // the list last put on the wire
    log: seq<Event>)

  datatype Step =
    | Tick(later: Time)
    | HandleConnect(client: Client)
    | HandleDisconnect(ip: string)
    | HandleStatus(ip: string)
    | HandlerSnapshot
    | HandlerSend
    | CleanerWake
    | CleanerSweep
    | CleanerSnapshot
    | CleanerSend

  const INIT := State([], 0, Nothing, Nothing, None, [], [], [])

  /** The handler takes the next message only when it owes nothing; the cleanup loop likewise. */
  predicate Enabled(s: State, step: Step) {
    match step
    case Tick(later) => s.clock <= later
    case HandleConnect(client) => s.handler.Nothing? && client.ip != "" && client.bullyId >= 1
    case HandleDisconnect(_) => s.handler.Nothing?
    case HandleStatus(_) => s.handler.Nothing?
    case HandlerSnapshot => s.handler.Owed?
    case HandlerSend => s.handler.Sending?
    case CleanerWake => s.cleaner.Nothing? && s.sweepAt.None?
    case CleanerSweep => s.sweepAt.Some?
    case CleanerSnapshot => s.cleaner.Owed?
    case CleanerSend => s.cleaner.Sending?
  }

  function Happened(s: State, e: Event): State {
    s.(clients := Apply(s.clients, e), log := s.log + [e])
  }

  function Do(s: State, step: Step): State
    requires Enabled(s, step)
  {
    match step
    case Tick(later) => s.(clock := later)
    case HandleConnect(client) =>
      Happened(s, Connected(client, s.clock)).(handler := if Listed(s.clients, client.ip) then Nothing else Owed)
    case HandleDisconnect(ip) => Happened(s, Disconnected(ip)).(handler := Owed)
    case HandleStatus(ip) => Happened(s, StatusFrom(ip, s.clock))
    case HandlerSnapshot => s.(handler := Sending(Clients(s.clients)), lastSnapshot := Clients(s.clients))
    case HandlerSend => s.(handler := Nothing, lastSent := s.handler.list)
    case CleanerWake => s.(sweepAt := Some(s.clock))
    case CleanerSweep =>
      var after := Happened(s, Swept(s.sweepAt.value));
      after.(sweepAt := None, cleaner := if |after.clients| < |s.clients| then Owed else s.cleaner)
    case CleanerSnapshot => s.(cleaner := Sending(Clients(s.clients)), lastSnapshot := Clients(s.clients))
    case CleanerSend => s.(cleaner := Nothing, lastSent := s.cleaner.list)
  }

  /** A run: any interleaving of enabled steps. */
  ghost predicate Feasible(steps: seq<Step>)
    decreases |steps|, 0
  {
    steps == [] || (Feasible(steps[..|steps| - 1]) && Enabled(After(steps[..|steps| - 1]), steps[|steps| - 1]))
  }

  ghost function After(steps: seq<Step>): State
    requires Feasible(steps)
    decreases |steps|, 1
  {
    if steps == [] then INIT else Do(After(steps[..|steps| - 1]), steps[|steps| - 1])
  }

  // ----- What every reachable state satisfies -----

  ghost predicate ValidClient(c: Client) {
    c.ip != "" && c.bullyId >= 1
  }

  ghost predicate Inv(s: State) {
    && s.clients == Replay(s.log)
    && (s.lastSnapshot == Clients(s.clients) || s.handler.Owed? || s.cleaner.Owed?)
    && (s.sweepAt.Some? ==> s.cleaner.Nothing? && s.sweepAt.value <= s.clock)
    && (forall k :: 0 <= k < |s.clients| ==> ValidClient(s.clients[k].client) && s.clients[k].timeout <= s.clock)
  }

  lemma {:induction false} ReplayPrefix(log: seq<Event>, e: Event, n: nat)
    requires n <= |log|
    ensures ReplayTo(log + [e], n) == ReplayTo(log, n)
  {
    if n > 0 { ReplayPrefix(log, e, n - 1); }
  }

  lemma ReplaySnoc(log: seq<Event>, e: Event)
    ensures Replay(log + [e]) == Apply(Replay(log), e)
  {
    ReplayPrefix(log, e, |log|);
  }

  lemma EraseKeepsEntries(es: seq<Entry>, gone: Entry -> bool)
    ensures |EraseIf(es, gone)| <= |es|
    ensures forall k :: 0 <= k < |EraseIf(es, gone)| ==> EraseIf(es, gone)[k] in es
    ensures |EraseIf(es, gone)| == |es| ==> EraseIf(es, gone) == es
  {
    KeptShorter(es, gone, |es|);
    KeptFrom(es, gone, |es|);
  }

  lemma {:induction false} KeptShorter(es: seq<Entry>, gone: Entry -> bool, n: nat)
    requires n <= |es|
    ensures |KeptOf(es, gone, n)| <= n && (|KeptOf(es, gone, n)| == n ==> KeptOf(es, gone, n) == es[..n])
  {
    if n > 0 { KeptShorter(es, gone, n - 1); }
  }

  lemma StepKeepsInv(s: State, step: Step)
    requires Inv(s) && Enabled(s, step)
    ensures Inv(Do(s, step))
  {
    hide EraseIf, ReplayTo;
    match step
    case HandleConnect(client) => ReplaySnoc(s.log, Connected(client, s.clock));
    case HandleDisconnect(ip) =>
      ReplaySnoc(s.log, Disconnected(ip));
      EraseKeepsEntries(s.clients, HasIp(ip));
    case HandleStatus(ip) => ReplaySnoc(s.log, StatusFrom(ip, s.clock));
    case CleanerSweep =>
      ReplaySnoc(s.log, Swept(s.sweepAt.value));
      EraseKeepsEntries(s.clients, PastTimeout(s.sweepAt.value));
    case _ =>
  }

  /** At every point of every interleaving: the last copy is the list, or a thread still owes a broadcast. */
  lemma {:induction false} RunKeepsInv(steps: seq<Step>)
    requires Feasible(steps)
    ensures Inv(After(steps))
  {
    if steps != [] {
      RunKeepsInv(steps[..|steps| - 1]);
      StepKeepsInv(After(steps[..|steps| - 1]), steps[|steps| - 1]);
    }
  }

  predicate Quiescent(s: State) {
    s.handler.Nothing? && s.cleaner.Nothing?
  }

  /**
   * When neither thread owes a broadcast, the last copy holds exactly the members the log of events
   * defines, each ip once and each with an address and a nonzero id.
   */
  lemma QuiescentSnapshot(steps: seq<Step>)
    requires Feasible(steps) && Quiescent(After(steps))
    ensures
      var s := After(steps);
      && (forall ip :: Member(s.log, ip, |s.log|) <==>
            exists k :: 0 <= k < |s.lastSnapshot| && s.lastSnapshot[k].ip == ip)
      && (forall k, l :: 0 <= k < l < |s.lastSnapshot| ==> s.lastSnapshot[k].ip != s.lastSnapshot[l].ip)
      && (forall k :: 0 <= k < |s.lastSnapshot| ==> ValidClient(s.lastSnapshot[k]))
  {
    RunKeepsInv(steps);
    var s := After(steps);
    ListIsMembership(s.log, "");
    forall ip
      ensures Member(s.log, ip, |s.log|) <==> exists k :: 0 <= k < |s.lastSnapshot| && s.lastSnapshot[k].ip == ip
    {
      ListIsMembership(s.log, ip);
      if Listed(s.clients, ip) {
        var k :| 0 <= k < |s.clients| && s.clients[k].client.ip == ip;
        assert s.lastSnapshot[k].ip == ip;
      }
    }
  }

  // ----- Keeping in touch -----

  /** A sweep acts on a clock reading no later than the present, or than the stamp of any status logged after it. */
  ghost predicate StampsInOrder(s: State) {
    forall j :: 0 <= j < |s.log| && s.log[j].Swept? ==> SweepsEarlier(s.log, s.clock, j)
  }

  ghost predicate SweepsEarlier(log: seq<Event>, clock: Time, j: nat)
    requires j < |log| && log[j].Swept?
  {
    log[j].now <= clock && forall m :: j < m < |log| && log[m].StatusFrom? ==> log[j].now <= log[m].at
  }

  lemma {:induction false} RunStampsInOrder(steps: seq<Step>)
    requires Feasible(steps)
    ensures StampsInOrder(After(steps))
  {
    if steps != [] {
      RunStampsInOrder(steps[..|steps| - 1]);
      RunKeepsInv(steps[..|steps| - 1]);
      StepStamps(After(steps[..|steps| - 1]), steps[|steps| - 1]);
      hide StampsInOrder, Inv, Do, Enabled;
    }
  }

  lemma StepStamps(s: State, step: Step)
    requires Inv(s) && StampsInOrder(s) && Enabled(s, step)
    ensures StampsInOrder(Do(s, step))
  {
    hide Apply, ReplayTo, Clients, Listed, ValidClient;
  }

  /** From joining at event i on, no two signs of life are over 3 s apart, and the last is not over 3 s old. */
  ghost predicate Gapless(log: seq<Event>, ip: string, i: nat, clock: Time)
    requires i < |log| && log[i].Connected?
  {
    && (forall m :: i < m < |log| && log[m].StatusFrom? && log[m].ip == ip ==>
          log[m].at <= LastHeard(log, ip, i, m) + TIMEOUT)
    && clock <= LastHeard(log, ip, i, |log|) + TIMEOUT
  }

  /**
   * A sweep reads a time no later than the client's next sign of life, or the present if there is none; that
   * bounds its silence.
   */
  lemma {:induction false} SweepWithinGap(log: seq<Event>, clock: Time, ip: string, i: nat, j: nat, n: nat)
    requires i < j < n <= |log| && log[i].Connected? && log[j].Swept? && SweepsEarlier(log, clock, j)
    requires Gapless(log, ip, i, clock) && LastHeard(log, ip, i, n) == LastHeard(log, ip, i, j)
    ensures log[j].now <= LastHeard(log, ip, i, j) + TIMEOUT
    decreases |log| - n
  {
    if n < |log| && !(log[n].StatusFrom? && log[n].ip == ip) {
      assert LastHeard(log, ip, i, n + 1) == LastHeard(log, ip, i, n);
      SweepWithinGap(log, clock, ip, i, j, n + 1);
    }
  }

  /**
   * At every point of every interleaving: a member whose signs of life are never over 3 s apart is
   * listed, unless it has said goodbye.
   */
  lemma GaplessMemberStays(steps: seq<Step>, ip: string, i: nat)
    requires Feasible(steps)
    requires var s := After(steps); i < |s.log| && Joins(s.log, ip, i) && Gapless(s.log, ip, i, s.clock)
    ensures
      var s := After(steps);
      Listed(s.clients, ip) || exists j :: i < j < |s.log| && s.log[j] == Disconnected(ip)
  {
    var s := After(steps);
    RunKeepsInv(steps);
    RunStampsInOrder(steps);
    hide Feasible, After, Joins, Listed, Gapless, Timely, StampsInOrder;
    GaplessIsTimely(s, ip, i);
    TimelyMemberStays(s.log, ip, i);
  }

  lemma GaplessIsTimely(s: State, ip: string, i: nat)
    requires StampsInOrder(s) && i < |s.log| && s.log[i].Connected? && Gapless(s.log, ip, i, s.clock)
    ensures Timely(s.log, ip, i, |s.log|)
  {
    forall j | i < j < |s.log| && s.log[j].Swept?
      ensures s.log[j].now <= LastHeard(s.log, ip, i, j) + TIMEOUT
    {
      assert LastHeard(s.log, ip, i, j + 1) == LastHeard(s.log, ip, i, j);
      hide LastHeard, Gapless, StampsInOrder;
      SweepWithinGap(s.log, s.clock, ip, i, j, j + 1);
    }
  }

  // ----- What is last put on the wire -----

  datatype Thread = Handler | Cleaner

  function CopierOf(step: Step): Option<Thread> {
    match step case HandlerSnapshot => Some(Handler) case CleanerSnapshot => Some(Cleaner) case _ => None
  }

  function SenderOf(step: Step): Option<Thread> {
    match step case HandlerSend => Some(Handler) case CleanerSend => Some(Cleaner) case _ => None
  }

  /** The thread that copied the list last. */
  function CopiedLast(steps: seq<Step>): Option<Thread> {
    if steps == [] then None
    else if CopierOf(steps[|steps| - 1]).Some? then CopierOf(steps[|steps| - 1])
    else CopiedLast(steps[..|steps| - 1])
  }

  /** The thread that sent a list last. */
  function SentLast(steps: seq<Step>): Option<Thread> {
    if steps == [] then None
    else if SenderOf(steps[|steps| - 1]).Some? then SenderOf(steps[|steps| - 1])
    else SentLast(steps[..|steps| - 1])
  }

  /** The members when a thread last copied the list; none if no thread did. */
  ghost function CopyOf(steps: seq<Step>, who: Option<Thread>): seq<Client>
    requires Feasible(steps)
  {
    if steps == [] || who.None? then []
    else if CopierOf(steps[|steps| - 1]) == who then Clients(After(steps[..|steps| - 1]).clients)
    else CopyOf(steps[..|steps| - 1], who)
  }

  /** What the copies and sends of a run, with the threads' last copies h and c, have left in its state. */
  ghost predicate Traced(s: State, copied: Option<Thread>, sent: Option<Thread>, h: seq<Client>, c: seq<Client>) {
    && s.lastSnapshot == Pick(copied, h, c)
    && (s.handler.Sending? ==> s.handler.list == h)
    && (s.cleaner.Sending? ==> s.cleaner.list == c)
    && (!(sent == Some(Handler) && s.handler.Sending?) && !(sent == Some(Cleaner) && s.cleaner.Sending?)
        ==> s.lastSent == Pick(sent, h, c))
  }

  function Pick(who: Option<Thread>, h: seq<Client>, c: seq<Client>): seq<Client> {
    match who case None => [] case Some(Handler) => h case Some(Cleaner) => c
  }

  lemma StepTraced(s: State, step: Step, copied: Option<Thread>, sent: Option<Thread>, h: seq<Client>, c: seq<Client>)
    requires Inv(s) && Enabled(s, step) && Traced(s, copied, sent, h, c)
    ensures Traced(Do(s, step),
                   if CopierOf(step).Some? then CopierOf(step) else copied,
                   if SenderOf(step).Some? then SenderOf(step) else sent,
                   if CopierOf(step) == Some(Handler) then Clients(s.clients) else h,
                   if CopierOf(step) == Some(Cleaner) then Clients(s.clients) else c)
  {
    hide Apply, Clients, Listed, ValidClient;
  }

  ghost predicate RunIsTraced(steps: seq<Step>)
    requires Feasible(steps)
  {
    Traced(After(steps), CopiedLast(steps), SentLast(steps), CopyOf(steps, Some(Handler)), CopyOf(steps, Some(Cleaner)))
  }

  lemma {:induction false} RunTraced(steps: seq<Step>)
    requires Feasible(steps)
    ensures RunIsTraced(steps)
  {
    hide Inv, Enabled, Do, Clients;
    if steps == [] {
      TracedAtStart();
    } else {
      var before, step := steps[..|steps| - 1], steps[|steps| - 1];
      RunTraced(before);
      RunKeepsInv(before);
      StepTraced(After(before), step, CopiedLast(before), SentLast(before), CopyOf(before, Some(Handler)),
                 CopyOf(before, Some(Cleaner)));
      hide Traced;
    }
  }

  lemma TracedAtStart()
    ensures Traced(INIT, None, None, [], [])
  {
  }

  lemma CopyIsPicked(steps: seq<Step>, who: Option<Thread>)
    requires Feasible(steps)
    ensures CopyOf(steps, who) == Pick(who, CopyOf(steps, Some(Handler)), CopyOf(steps, Some(Cleaner)))
  {
    hide Feasible, After;
  }

  /**
   * Exactly when the list last sent is the membership, whenever no broadcast is pending: the thread
   * that copied last also sent last, or the two threads' last copies are the same.
   */
  lemma LastSentExactly(steps: seq<Step>)
    requires Feasible(steps) && Quiescent(After(steps))
    ensures After(steps).lastSent == Clients(After(steps).clients)
       <==> (CopiedLast(steps) == SentLast(steps) || CopyOf(steps, SentLast(steps)) == CopyOf(steps, CopiedLast(steps)))
  {
    RunKeepsInv(steps);
    RunTraced(steps);
    CopyIsPicked(steps, CopiedLast(steps));
    CopyIsPicked(steps, SentLast(steps));
    hide CopyOf, CopiedLast, SentLast, Feasible, After, Clients;
  }

  /** No thread copies the list while the other is still sending an earlier copy. */
  ghost predicate SendsApart(steps: seq<Step>)
    requires Feasible(steps)
  {
    steps == [] ||
    (SendsApart(steps[..|steps| - 1]) && StepApart(After(steps[..|steps| - 1]), steps[|steps| - 1]))
  }

  ghost predicate StepApart(s: State, step: Step) {
    && (step.HandlerSnapshot? ==> !s.cleaner.Sending?)
    && (step.CleanerSnapshot? ==> !s.handler.Sending?)
  }

  /** Only the thread that copied last may still be sending; otherwise it has sent last. */
  ghost predicate InTurn(steps: seq<Step>)
    requires Feasible(steps)
  {
    var s := After(steps);
    && !(s.handler.Sending? && s.cleaner.Sending?)
    && (if s.handler.Sending? then CopiedLast(steps) == Some(Handler)
        else if s.cleaner.Sending? then CopiedLast(steps) == Some(Cleaner)
        else SentLast(steps) == CopiedLast(steps))
  }

  lemma {:induction false} RunInTurn(steps: seq<Step>)
    requires Feasible(steps) && SendsApart(steps)
    ensures InTurn(steps)
  {
    hide Apply, Clients, Listed;
    if steps != [] {
      RunInTurn(steps[..|steps| - 1]);
      RunKeepsInv(steps[..|steps| - 1]);
    }
  }

  ghost predicate WireFollows(s: State) {
    && !(s.handler.Sending? && s.cleaner.Sending?)
    && (if s.handler.Sending? then s.handler.list == s.lastSnapshot
        else if s.cleaner.Sending? then s.cleaner.list == s.lastSnapshot
        else s.lastSent == s.lastSnapshot)
  }

  /** While broadcasts do not overlap, what is being or was last sent is the last copy. */
  lemma RunWireFollows(steps: seq<Step>)
    requires Feasible(steps) && SendsApart(steps)
    ensures WireFollows(After(steps))
  {
    RunTraced(steps);
    RunInTurn(steps);
    hide CopyOf, CopiedLast, SentLast, Feasible, After, SendsApart;
  }

  /** If broadcasts do not overlap, then whenever none is pending the list last sent is the membership. */
  lemma QuiescentWire(steps: seq<Step>)
    requires Feasible(steps) && SendsApart(steps) && Quiescent(After(steps))
    ensures After(steps).lastSent == Clients(After(steps).clients)
  {
    LastSentExactly(steps);
    RunInTurn(steps);
  }

  /**
   * Nothing in the code keeps them apart, and then the claim fails: the cleanup loop copies the
   * list, the handler admits and announces a new member, and the older copy goes out last.
   */
  lemma OverlapLeavesStaleList(a: Client, b: Client, c: Client) returns (steps: seq<Step>)
    requires ValidClient(a) && ValidClient(b) && ValidClient(c)
    requires a.ip != b.ip && b.ip != c.ip && a.ip != c.ip
    ensures Feasible(steps) && Quiescent(After(steps))
    ensures Clients(After(steps).clients) == [b, c] && After(steps).lastSent == [b]
  {
    var joined := TwoJoin(a, b);
    hide Feasible, After, EraseIf;
    steps := Then(joined, CleanerWake);
    SweepFirst(Entry(a, 0), Entry(b, 4 * SECOND), 4 * SECOND);
    steps := Then(steps, CleanerSweep);
    steps := Then(steps, CleanerSnapshot);
    assert Clients(After(steps).clients) == [b];
    steps := Then(steps, HandleConnect(c));
    assert After(steps).clients == [Entry(b, 4 * SECOND), Entry(c, 4 * SECOND)];
    steps := Then(steps, HandlerSnapshot);
    steps := Then(steps, HandlerSend);
    steps := Then(steps, CleanerSend);
    assert Clients(After(steps).clients) == [b, c];
  }

  /** Two clients join at time 0; four seconds later only the second has shown a sign of life. */
  lemma TwoJoin(a: Client, b: Client) returns (steps: seq<Step>)
    requires ValidClient(a) && ValidClient(b) && a.ip != b.ip
    ensures Feasible(steps)
    ensures
      var s := After(steps);
      && s.clients == [Entry(a, 0), Entry(b, 4 * SECOND)] && s.clock == 4 * SECOND
      && s.handler.Nothing? && s.cleaner.Nothing? && s.sweepAt.None?
  {
    assert Feasible([]) && After([]) == INIT;
    hide Feasible, After;
    steps := [];
    steps := Then(steps, HandleConnect(a));
    steps := Then(steps, HandlerSnapshot);
    steps := Then(steps, HandlerSend);
    steps := Then(steps, HandleConnect(b));
    assert After(steps).clients == [Entry(a, 0), Entry(b, 0)];
    steps := Then(steps, HandlerSnapshot);
    steps := Then(steps, HandlerSend);
    steps := Then(steps, Tick(4 * SECOND));
    steps := Then(steps, HandleStatus(b.ip));
    assert After(steps).clients == [Entry(a, 0), Entry(b, 4 * SECOND)];
  }

  lemma Then(steps: seq<Step>, step: Step) returns (more: seq<Step>)
    requires Feasible(steps) && Enabled(After(steps), step)
    ensures Feasible(more) && After(more) == Do(After(steps), step)
  {
    more := steps + [step];
    assert more[..|steps|] == steps;
  }

  lemma SweepFirst(e: Entry, f: Entry, now: Time)
    requires e.timeout + TIMEOUT < now <= f.timeout + TIMEOUT
    ensures EraseIf([e, f], PastTimeout(now)) == [f]
  {
    var es := [e, f];
    assert KeptOf(es, PastTimeout(now), 0) == [];
    assert KeptOf(es, PastTimeout(now), 1) == [];
  }
}
