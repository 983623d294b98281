/**
 * The listener of src/listener.cpp: the messages it handles, on its player and client list, and
 * what holds of every run of messages and frames.
 */
module Listener {
  import opened RealArith
  import opened Messages
  import opened Coordinator
  import opened Playback

  // ----- Handlers, on values -----

  function Controlled(p: Player, op: Uint8): Player {
    if op == START then (if p.paused then p.(paused := !p.paused) else p)
    else if op == STOP then (if !p.paused then p.(paused := !p.paused) else p)
    else if op == SKIP then Skipped(p)
    else p
  }

  /**
   * What a message does to the player. A status received while not the coordinator sets the player's own
   * status back.
   */
  ghost function PlayerAfter(p: Player, cl: ClientList, m: Message): Player
    requires InStatusRange(p.elapsed)
  {
    match m
    case ControlMusic(op) => Controlled(p, op)
    case ChangeSong(songId, addToQueue) => if addToQueue then Queued(p, songId) else p
    case SendStatus(_) => if IsCoordinator(cl) then p else WithStatus(StatusOf(p))
    case _ => p
  }

  function ListAfter(cl: ClientList, m: Message): ClientList {
    match m
    case ConnectorList(list) => cl.(bullyId := list.bullyId)
    case ConnectorListUpdate(clients) => cl.(clients := clients)
    case _ => cl
  }

  class ListenerNode {
    const player: MusicPlayer
    var listenerState: ClientList

    constructor (player: MusicPlayer, listenerState: ClientList)
      ensures this.player == player && this.listenerState == listenerState
    {
      this.player := player;
      this.listenerState := listenerState;
    }

    method CmHandler(op: Uint8)
      requires InStatusRange(player.elapsed)
      modifies player
      ensures player.State() == Controlled(old(player.State()), op)
    {
      var status := player.GetStatus();
      match op
      case 1 =>
        if status.paused {
          player.TogglePause();
        }
      case 2 =>
        if !status.paused {
          player.TogglePause();
        }
      case 3 =>
        player.Skip();
      case _ =>
    }

    method SsHandler()
      requires InStatusRange(player.elapsed)
      modifies player
      ensures player.State()
           == if IsCoordinator(listenerState) then old(player.State()) else WithStatus(StatusOf(old(player.State())))
    {
      var status := player.GetStatus();
      var coordinating := IsThisCoordinator(listenerState);
      if !coordinating {
        player.SetStatus(status);
      }
    }

    /** The dispatch on the message type; replies to other nodes are not part of the state. */
    method MessageHandler(m: Message)
      requires InStatusRange(player.elapsed)
      modifies this, player
      ensures player.State() == PlayerAfter(old(player.State()), old(listenerState), m)
      ensures listenerState == ListAfter(old(listenerState), m)
    {
      match m
      case ControlMusic(op) => CmHandler(op);
      case ChangeSong(songId, addToQueue) =>
        if addToQueue {
          player.AddToQueue(songId);
        }
      case SendStatus(_) => SsHandler();
      case ConnectorList(list) => listenerState := listenerState.(bullyId := list.bullyId);
      case ConnectorListUpdate(clients) => listenerState := listenerState.(clients := clients);
      case _ =>
    }
  }

  // ----- Runs -----

  /** The listener handles messages from the start; the player's loop adds its first songs, then draws frames. */
  datatype Event = Seeded | Frame(delta: real) | Received(m: Message)

  /**
   * A song that played to its end, the seconds the frames credited it with, and those of them status messages
   * dropped.
   */
  datatype Ending = Ending(duration: int, credited: real, lost: real)

  /** A node with the history of its run. */
  datatype World = World(
    player: Player,
    list: ClientList,
    taken: seq<Int32>,      // songs taken from the queue, in order
    accepted: seq<Int32>,   // songs added to it, in order
    seeded: bool,           // the player's loop has begun
    credited: real,         // seconds credited to the current song since it began
    lost: real,             // seconds of them dropped by status messages
    endings: seq<Ending>)

  function Start(p: Player, list: ClientList, seeded: bool): World {
    World(p, list, [], [], seeded, p.elapsed, 0.0, [])
  }

  predicate Enabled(w: World, e: Event) {
    match e
    case Seeded => !w.seeded
    case Frame(delta) => w.seeded && FrameEnabled(w.player, delta) && !Throws(w.player, delta)
    case Received(_) => InStatusRange(w.player.elapsed)
  }

  predicate SkipsSong(w: World, e: Event) {
    e == Received(ControlMusic(SKIP)) && w.player.queue != []
  }

  predicate EndsSong(w: World, e: Event) {
    e.Frame? && Ends(w.player, e.delta)
  }

  /** The seconds an event plays: a frame's, unless it is paused or took no time or a second and more. */
  function PlayedIn(w: World, e: Event): real {
    if e.Frame? && !w.player.paused && 0.0 < e.delta < 1.0 then e.delta else 0.0
  }

  /** The fraction of a second a status drops when another node leads. */
  ghost function Dropped(w: World, e: Event): real {
    if Rounds(w, e) then w.player.elapsed - Trunc(w.player.elapsed) as real else 0.0
  }

  ghost predicate Rounds(w: World, e: Event) {
    e.Received? && e.m.SendStatus? && !IsCoordinator(w.list)
  }

  /** The songs an event adds to the queue. */
  function Added(w: World, e: Event): seq<Int32> {
    if e.Seeded? then SEED
    else if e.Received? && e.m.ChangeSong? && e.m.addToQueue && |w.player.queue| < MAXIMUM_QUEUE_SIZE then [e.m.songId]
    else []
  }

  ghost function Do(w: World, e: Event): World
    requires Enabled(w, e)
  {
    var over := SkipsSong(w, e) || EndsSong(w, e);
    World(
      match e
        case Seeded => Seeding(w.player)
        case Frame(delta) => AfterFrame(w.player, delta)
        case Received(m) => PlayerAfter(w.player, w.list, m),
      if e.Received? then ListAfter(w.list, e.m) else w.list,
      if over then w.taken + [w.player.queue[0]] else w.taken,
      w.accepted + Added(w, e),
      w.seeded || e.Seeded?,
      if over then 0.0 else w.credited + PlayedIn(w, e),
      if over then 0.0 else w.lost + Dropped(w, e),
      if EndsSong(w, e) then w.endings + [Ending(SONGS[w.player.songId], w.credited + PlayedIn(w, e), w.lost)]
      else w.endings)
  }

  ghost predicate Feasible(w: World, events: seq<Event>)
    decreases |events|, 0
  {
    events == [] ||
    (Feasible(w, events[..|events| - 1]) && Enabled(After(w, events[..|events| - 1]), events[|events| - 1]))
  }

  ghost function After(w: World, events: seq<Event>): World
    requires Feasible(w, events)
    decreases |events|, 1
  {
    if events == [] then w else Do(After(w, events[..|events| - 1]), events[|events| - 1])
  }

  // ----- The queue -----

  /** The most songs a run can have queued: the cap or what there was, and the songs the loop began with on top. */
  function Most(start: World, w: World): nat {
    (if |start.player.queue| > MAXIMUM_QUEUE_SIZE then |start.player.queue| else MAXIMUM_QUEUE_SIZE)
    + (if w.seeded && !start.seeded then |SEED| else 0)
  }

  ghost predicate Conserved(start: World, w: World) {
    && w.taken + w.player.queue == start.player.queue + w.accepted
    && w.player.songId == (if w.taken == [] then start.player.songId else w.taken[|w.taken| - 1])
    && |w.player.queue| <= Most(start, w) && (start.seeded ==> w.seeded)
  }

  /** An event takes the front of the queue, or adds to its end. */
  lemma StepQueue(w: World, e: Event)
    requires Enabled(w, e)
    ensures
      var next, q := Do(w, e), w.player.queue;
      if SkipsSong(w, e) || EndsSong(w, e) then
        && q != [] && Added(w, e) == [] && next.player.queue == q[1..] && next.player.songId == q[0]
        && next.taken == w.taken + [q[0]] && next.accepted == w.accepted && next.seeded == w.seeded
      else
        && next.player.queue == q + Added(w, e) && next.player.songId == w.player.songId
        && next.taken == w.taken && next.accepted == w.accepted + Added(w, e)
        && (if next.seeded == w.seeded then |Added(w, e)| <= (if |q| < MAXIMUM_QUEUE_SIZE then 1 else 0)
            else next.seeded && |Added(w, e)| == |SEED|)
  {
    hide IsCoordinator;
  }

  lemma StepConserves(start: World, w: World, e: Event)
    requires Conserved(start, w) && Enabled(w, e)
    ensures Conserved(start, Do(w, e))
  {
    hide Do, Enabled, Added, SkipsSong, EndsSong;
    StepQueue(w, e);
    if SkipsSong(w, e) || EndsSong(w, e) {
      TakeFront(w.taken, w.player.queue);
    } else {
      AppendBoth(w.taken, w.player.queue, start.player.queue, w.accepted, Added(w, e));
    }
  }

  lemma TakeFront(taken: seq<Int32>, q: seq<Int32>)
    requires q != []
    ensures taken + q == taken + [q[0]] + q[1..]
  {
    assert q == [q[0]] + q[1..];
  }

  lemma AppendBoth(taken: seq<Int32>, queue: seq<Int32>, first: seq<Int32>, accepted: seq<Int32>, more: seq<Int32>)
    requires taken + queue == first + accepted
    ensures taken + (queue + more) == first + (accepted + more)
  {
    assert taken + (queue + more) == taken + queue + more;
    assert first + (accepted + more) == first + accepted + more;
  }

  /**
   * Over every run of messages and frames, status messages included: the songs taken followed by
   * the queue are the first queue followed by the songs added, the current song is the last one
   * taken, and the queue never grows beyond 128, but for the five songs the loop begins with.
   */
  lemma {:induction false} QueueConserved(start: World, events: seq<Event>)
    requires start.taken == [] && start.accepted == [] && Feasible(start, events)
    ensures Conserved(start, After(start, events))
  {
    if events == [] {
      assert [] + start.player.queue == start.player.queue + [];
    } else {
      QueueConserved(start, events[..|events| - 1]);
      StepConserves(start, After(start, events[..|events| - 1]), events[|events| - 1]);
    }
  }

  /** At every point of the run the queue is within the cap. */
  ghost predicate CappedRun(start: World, events: seq<Event>)
    requires Feasible(start, events)
  {
    && |After(start, events).player.queue| <= MAXIMUM_QUEUE_SIZE
    && (events == [] || CappedRun(start, events[..|events| - 1]))
  }

  /** When the loop began there was room for the songs it adds: at most 123 were queued. */
  ghost predicate SeedsLow(start: World, events: seq<Event>)
    requires Feasible(start, events)
  {
    events == [] ||
    (var before := events[..|events| - 1];
     && SeedsLow(start, before)
     && (events[|events| - 1].Seeded? ==> |After(start, before).player.queue| + |SEED| <= MAXIMUM_QUEUE_SIZE))
  }

  /** Only the songs the loop begins with can take a queue over the cap. */
  lemma StepCaps(w: World, e: Event)
    requires Enabled(w, e) && |w.player.queue| <= MAXIMUM_QUEUE_SIZE
    ensures |Do(w, e).player.queue| <= MAXIMUM_QUEUE_SIZE
       <==> (e.Seeded? ==> |w.player.queue| + |SEED| <= MAXIMUM_QUEUE_SIZE)
  {
    StepQueue(w, e);
    hide Do, Enabled;
  }

  /** Exactly when the queue keeps the cap: when it had room for the songs the loop begins with. */
  lemma {:induction false} CapExactly(start: World, events: seq<Event>)
    requires Feasible(start, events) && |start.player.queue| <= MAXIMUM_QUEUE_SIZE
    ensures CappedRun(start, events) <==> SeedsLow(start, events)
  {
    hide Do, Enabled;
    if events != [] {
      var before := events[..|events| - 1];
      CapExactly(start, before);
      if CappedRun(start, before) { StepCaps(After(start, before), events[|events| - 1]); }
    }
  }

  /** Once the loop has begun, a queue within the cap stays there, whatever came before. */
  lemma {:induction false} CappedForGood(start: World, events: seq<Event>)
    requires Feasible(start, events) && start.seeded && |start.player.queue| <= MAXIMUM_QUEUE_SIZE
    ensures CappedRun(start, events) && After(start, events).seeded
  {
    hide Do, Enabled;
    if events != [] {
      var before := events[..|events| - 1];
      CappedForGood(start, before);
      SeededOnce(After(start, before), events[|events| - 1]);
      StepCaps(After(start, before), events[|events| - 1]);
    }
  }

  lemma SeededOnce(w: World, e: Event)
    requires Enabled(w, e) && w.seeded
    ensures !e.Seeded? && Do(w, e).seeded
  {
  }

  /** Messages handled before the loop begins can fill the queue, and then it holds 133 songs. */
  lemma SeedOverCap(list: ClientList) returns (events: seq<Event>)
    ensures Feasible(Start(NewPlayer(1), list, false), events)
    ensures |After(Start(NewPlayer(1), list, false), events).player.queue| == MAXIMUM_QUEUE_SIZE + 5
  {
    var w := Start(NewPlayer(1), list, false);
    events := FillQueue(w, MAXIMUM_QUEUE_SIZE);
    hide Feasible, After;
    events := Then(w, events, Seeded);
  }

  lemma {:induction false} FillQueue(w: World, n: nat) returns (events: seq<Event>)
    requires n <= MAXIMUM_QUEUE_SIZE && w.player.queue == [] && InStatusRange(w.player.elapsed)
    ensures Feasible(w, events)
    ensures
      var after := After(w, events);
      |after.player.queue| == n && after.player.elapsed == w.player.elapsed && after.seeded == w.seeded
  {
    events := [];
    if n > 0 {
      events := FillQueue(w, n - 1);
      hide Feasible, After;
      events := Then(w, events, Received(ChangeSong(1, true)));
    }
  }

  lemma Then(w: World, events: seq<Event>, e: Event) returns (more: seq<Event>)
    requires Feasible(w, events) && Enabled(After(w, events), e)
    ensures Feasible(w, more) && After(w, more) == Do(After(w, events), e)
  {
    more := events + [e];
    assert more[..|events|] == events;
  }

  // ----- Pausing -----

  /** What the last START or STOP asked for. */
  function LastCommand(events: seq<Event>, otherwise: bool): bool {
    if events == [] then otherwise
    else match events[|events| - 1]
      case Received(ControlMusic(op)) =>
        if op == START then false else if op == STOP then true else LastCommand(events[..|events| - 1], otherwise)
      case _ => LastCommand(events[..|events| - 1], otherwise)
  }

  lemma StepPauses(w: World, e: Event)
    requires Enabled(w, e)
    ensures Do(w, e).player.paused == LastCommand([e], w.player.paused)
  {
    assert [e][..0] == [];
  }

  /** The player is paused exactly when the last command said so, although the code only toggles. */
  lemma {:induction false} PausedAsTold(start: World, events: seq<Event>)
    requires Feasible(start, events)
    ensures After(start, events).player.paused == LastCommand(events, start.player.paused)
  {
    if events != [] {
      PausedAsTold(start, events[..|events| - 1]);
      StepPauses(After(start, events[..|events| - 1]), events[|events| - 1]);
      assert [events[|events| - 1]][..0] == [];
    }
  }

  // ----- Credit -----

  /**
   * What the frames credited is what the player shows and what statuses dropped; and so it is for the songs
   * that ended.
   */
  ghost predicate Fair(w: World) {
    && Playing(w.player) && 0.0 <= w.lost && w.credited == w.player.elapsed + w.lost
    && (forall k :: 0 <= k < |w.endings| ==> FairEnding(w.endings[k]))
  }

  predicate FairEnding(e: Ending) {
    0.0 <= e.lost && e.duration as real + e.lost < e.credited < e.duration as real + 1.0 + e.lost
  }

  lemma KnownSongs(id: Int32)
    ensures id in SONGS ==> SONGS[id] == 15 || SONGS[id] == 20
  {
  }

  lemma StepFair(w: World, e: Event)
    requires Fair(w) && Enabled(w, e)
    ensures Fair(Do(w, e))
  {
    hide IsCoordinator;
    KnownSongs(w.player.songId);
    KnownSongs(Do(w, e).player.songId);
  }

  /** The seconds played of the current song, summed over the frames since it was taken from the queue. */
  ghost function PlayTime(start: World, events: seq<Event>): real
    requires Feasible(start, events)
  {
    if events == [] then start.player.elapsed
    else
      var before, e := events[..|events| - 1], events[|events| - 1];
      if |After(start, events).taken| > |After(start, before).taken| then 0.0
      else PlayTime(start, before) + PlayedIn(After(start, before), e)
  }

  /** The songs frames brought to their ends, with the seconds played of each. */
  ghost function Ended(start: World, events: seq<Event>): seq<Ending>
    requires Feasible(start, events)
  {
    if events == [] then []
    else
      var before, e := events[..|events| - 1], events[|events| - 1];
      var w := After(start, before);
      if e.Frame? && |After(start, events).taken| > |w.taken| && w.player.songId in SONGS then
        Ended(start, before) + [Ending(SONGS[w.player.songId], PlayTime(start, before) + PlayedIn(w, e), w.lost)]
      else Ended(start, before)
  }

  lemma {:induction false} HistoryKept(p: Player, list: ClientList, seeded: bool, events: seq<Event>)
    requires Feasible(Start(p, list, seeded), events)
    ensures
      var start := Start(p, list, seeded);
      After(start, events).credited == PlayTime(start, events) && After(start, events).endings == Ended(start, events)
  {
    if events != [] {
      var start, before, e := Start(p, list, seeded), events[..|events| - 1], events[|events| - 1];
      HistoryKept(p, list, seeded, before);
      StepHistory(After(start, before), e);
      hide Do, Enabled, EndsSong, SkipsSong, PlayedIn;
    }
  }

  lemma StepHistory(w: World, e: Event)
    requires Enabled(w, e)
    ensures
      var next := Do(w, e);
      && (|next.taken| > |w.taken| <==> SkipsSong(w, e) || EndsSong(w, e))
      && (EndsSong(w, e) <==> e.Frame? && |next.taken| > |w.taken| && w.player.songId in SONGS)
      && next.credited == (if |next.taken| > |w.taken| then 0.0 else w.credited + PlayedIn(w, e))
      && next.endings
         == (if EndsSong(w, e) then w.endings + [Ending(SONGS[w.player.songId], w.credited + PlayedIn(w, e), w.lost)]
             else w.endings)
  {
    hide IsCoordinator, Added, Throws, PlayedIn;
  }

  /**
   * In every run, the time shown and what statuses dropped of it are the seconds played since the song
   * began; and a song that ends was played for more than its duration and what statuses dropped, and
   * for less than one second more than that.
   */
  lemma {:induction false} EndingsFair(p: Player, list: ClientList, seeded: bool, events: seq<Event>)
    requires Playing(p) && Feasible(Start(p, list, seeded), events)
    ensures
      var start := Start(p, list, seeded);
      var w := After(start, events);
      && Fair(w) && w.player.elapsed + w.lost == PlayTime(start, events)
      && (forall k :: 0 <= k < |Ended(start, events)| ==> FairEnding(Ended(start, events)[k]))
  {
    HistoryKept(p, list, seeded, events);
    hide IsCoordinator, Do, Enabled;
    if events != [] {
      var w, init := Start(p, list, seeded), events[..|events| - 1];
      EndingsFair(p, list, seeded, init);
      StepFair(After(w, init), events[|events| - 1]);
    }
  }

  /** No status was received while another node led. */
  ghost predicate Unrounded(w: World, events: seq<Event>)
    requires Feasible(w, events)
  {
    events == [] ||
    (Unrounded(w, events[..|events| - 1]) && !Rounds(After(w, events[..|events| - 1]), events[|events| - 1]))
  }

  /** Then nothing is lost, and the plain bounds hold. */
  lemma {:induction false} NothingLost(p: Player, list: ClientList, seeded: bool, events: seq<Event>)
    requires Feasible(Start(p, list, seeded), events) && Unrounded(Start(p, list, seeded), events)
    ensures
      var w := After(Start(p, list, seeded), events);
      w.lost == 0.0 && forall k :: 0 <= k < |w.endings| ==> w.endings[k].lost == 0.0
  {
    if events != [] {
      NothingLost(p, list, seeded, events[..|events| - 1]);
    }
  }

  /** Once a second is dropped in all, a song can end over a second late: here one of 15 seconds is credited 17.6. */
  lemma RoundingDelaysEnding(list: ClientList, status: Status) returns (events: seq<Event>)
    requires !IsCoordinator(list)
    ensures Feasible(Start(Late(14.9), list, true), events)
    ensures After(Start(Late(14.9), list, true), events).endings == [Ending(15, 17.6, 1.8)]
  {
    hide *;
    var start := Start(Late(14.9), list, true);
    StartsLate(list);
    events := DropAndTick(start, [], status);
    events := DropAndTick(start, events, status);
    LastTick(After(start, events));
    events := Then(start, events, Frame(0.9));
  }

  lemma StartsLate(list: ClientList)
    ensures
      var start := Start(Late(14.9), list, true);
      && Feasible(start, []) && After(start, []) == start
      && start == World(Late(14.9), list, [], [], true, 14.9, 0.0, [])
  {
  }

  lemma LastTick(w: World)
    requires w.player == Late(14.9) && w.seeded
    ensures Enabled(w, Frame(0.9)) && Do(w, Frame(0.9)).endings == w.endings + [Ending(15, w.credited + 0.9, w.lost)]
  {
  }

  lemma DropAndTick(start: World, events: seq<Event>, status: Status) returns (more: seq<Event>)
    requires Feasible(start, events)
    requires var w := After(start, events); w.player == Late(14.9) && w.seeded && !IsCoordinator(w.list)
    ensures Feasible(start, more)
    ensures
      var w := After(start, events);
      After(start, more) == w.(credited := w.credited + 0.9, lost := w.lost + 0.9)
  {
    hide Feasible, After, IsCoordinator;
    more := Then(start, events, Received(SendStatus(status)));
    more := Then(start, more, Frame(0.9));
  }

  /** The first song about to end, with one more in the queue. */
  function Late(elapsed: real): Player {
    Player(1, [2], elapsed, false)
  }

  function TotalDuration(es: seq<Ending>): int {
    if es == [] then 0 else TotalDuration(es[..|es| - 1]) + es[|es| - 1].duration
  }

  function TotalCredit(es: seq<Ending>): real {
    if es == [] then 0.0 else TotalCredit(es[..|es| - 1]) + es[|es| - 1].credited
  }

  function TotalLost(es: seq<Ending>): real {
    if es == [] then 0.0 else TotalLost(es[..|es| - 1]) + es[|es| - 1].lost
  }

  lemma {:induction false} TotalsFair(es: seq<Ending>)
    requires forall k :: 0 <= k < |es| ==> FairEnding(es[k])
    ensures
      var least := TotalDuration(es) as real + TotalLost(es);
      && least <= TotalCredit(es) <= least + |es| as real
      && (es != [] ==> least < TotalCredit(es) < least + |es| as real)
  {
    if es != [] {
      TotalsFair(es[..|es| - 1]);
    }
  }

  /**
   * So k songs played to their ends took between the sum of their durations and of what was lost, and k
   * seconds more.
   */
  lemma PlayingTime(p: Player, list: ClientList, seeded: bool, events: seq<Event>)
    requires Playing(p) && Feasible(Start(p, list, seeded), events)
    ensures
      var es := Ended(Start(p, list, seeded), events);
      var least := TotalDuration(es) as real + TotalLost(es);
      && least <= TotalCredit(es) <= least + |es| as real
      && (Unrounded(Start(p, list, seeded), events) ==> TotalLost(es) == 0.0)
  {
    var es := Ended(Start(p, list, seeded), events);
    EndingsFair(p, list, seeded, events);
    HistoryKept(p, list, seeded, events);
    TotalsFair(es);
    if Unrounded(Start(p, list, seeded), events) {
      NothingLost(p, list, seeded, events);
      NoneLost(es);
    }
  }

  lemma {:induction false} NoneLost(es: seq<Ending>)
    requires forall k :: 0 <= k < |es| ==> es[k].lost == 0.0
    ensures TotalLost(es) == 0.0
  {
    if es != [] {
      NoneLost(es[..|es| - 1]);
    }
  }

  /** A node that is not the coordinator and hears a status after every frame. */
  predicate Chatter(events: seq<Event>) {
    events == [] ||
    (|events| >= 2 && events[|events| - 2].Frame? && events[|events| - 1].Received?
     && events[|events| - 1].m.SendStatus? && Chatter(events[..|events| - 2]))
  }

  /** Such a node never gets on: each status drops the fraction of a second the frame had credited. */
  lemma {:induction false} FollowerStalls(p: Player, list: ClientList, n: nat, seeded: bool, events: seq<Event>)
    requires p.songId in SONGS && p.elapsed == n as real && n < SONGS[p.songId]
    requires !IsCoordinator(list) && Chatter(events) && Feasible(Start(p, list, seeded), events)
    ensures After(Start(p, list, seeded), events).player == p && After(Start(p, list, seeded), events).list == list
    decreases |events|
  {
    if events != [] {
      var w, m := Start(p, list, seeded), |events| - 1;
      var init, framed := events[..m - 1], events[..m];
      assert framed[..m - 1] == init && framed[m - 1] == events[m - 1];
      assert Feasible(w, framed);
      FollowerStalls(p, list, n, seeded, init);
      var before, after := After(w, init), After(w, framed);
      assert after == Do(before, events[m - 1]);
      FrameThenStatus(before, events[m - 1], events[m], n);
    }
  }

  lemma FrameThenStatus(w: World, frame: Event, status: Event, n: nat)
    requires frame.Frame? && status.Received? && status.m.SendStatus? && !IsCoordinator(w.list)
    requires w.player.songId in SONGS && w.player.elapsed == n as real && n < SONGS[w.player.songId]
    requires Enabled(w, frame) && Enabled(Do(w, frame), status)
    ensures Do(Do(w, frame), status).player == w.player && Do(Do(w, frame), status).list == w.list
  {
    hide IsCoordinator;
    var credit := if w.player.paused then 0.0 else Credit(frame.delta);
    assert n as real + 1.0 <= SONGS[w.player.songId] as real;
    assert Do(w, frame).player == w.player.(elapsed := n as real + credit);
    assert Trunc(n as real + credit) == n;
  }
}
