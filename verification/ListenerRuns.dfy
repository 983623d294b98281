/** Runs of a listener, told from their events alone: its client list and id, and the songs it knows. */
module ListenerRuns {
  import opened Messages
  import opened Coordinator
  import opened Playback
  import opened Listener

  /** The members last broadcast to the node. */
  function LastMembers(events: seq<Event>, otherwise: seq<Client>): seq<Client> {
    if events == [] then otherwise
    else match events[|events| - 1]
      case Received(ConnectorListUpdate(clients)) => clients
      case _ => LastMembers(events[..|events| - 1], otherwise)
  }

  /** The id last given to the node. */
  function LastId(events: seq<Event>, otherwise: Uint16): Uint16 {
    if events == [] then otherwise
    else match events[|events| - 1]
      case Received(ConnectorList(list)) => list.bullyId
      case _ => LastId(events[..|events| - 1], otherwise)
  }

  /** After every run the client list is the one last broadcast, and the id the one last given. */
  lemma {:induction false} ListAsTold(start: World, events: seq<Event>)
    requires Feasible(start, events)
    ensures After(start, events).list.clients == LastMembers(events, start.list.clients)
    ensures After(start, events).list.bullyId == LastId(events, start.list.bullyId)
  {
    hide IsCoordinator, AfterFrame, PlayerAfter, Throws;
    if events != [] {
      ListAsTold(start, events[..|events| - 1]);
    }
  }

  // ----- Known songs -----

  predicate Known(songs: seq<Int32>) {
    forall k :: 0 <= k < |songs| ==> songs[k] == 1 || songs[k] == 2
  }

  /** No event adds an unknown song. */
  predicate AddsKnown(events: seq<Event>) {
    forall k :: 0 <= k < |events| && events[k].Received? && events[k].m.ChangeSong? && events[k].m.addToQueue ==>
      Known([events[k].m.songId])
  }

  ghost predicate PlaysKnown(w: World) {
    Known([w.player.songId]) && Known(w.player.queue)
  }

  lemma StepPlaysKnown(w: World, e: Event)
    requires Enabled(w, e) && PlaysKnown(w) && Known(Added(w, e))
    ensures PlaysKnown(Do(w, e))
  {
    StepQueue(w, e);
    hide Do, Enabled, Added, SkipsSong, EndsSong;
    var q := w.player.queue;
    if SkipsSong(w, e) || EndsSong(w, e) {
      assert forall k :: 0 <= k < |q[1..]| ==> q[1..][k] == q[k + 1];
    }
  }

  /** If only known songs are added, no frame of any run throws. */
  lemma {:induction false} KnownSongsPlay(start: World, events: seq<Event>)
    requires Feasible(start, events) && PlaysKnown(start) && AddsKnown(events)
    ensures PlaysKnown(After(start, events))
    ensures forall delta :: FrameEnabled(After(start, events).player, delta) ==>
      !Throws(After(start, events).player, delta)
  {
    if events != [] {
      var before, e := events[..|events| - 1], events[|events| - 1];
      assert forall k :: 0 <= k < |before| ==> before[k] == events[k];
      assert events[|events| - 1] == e;
      KnownSongsPlay(start, before);
      SeedKnown();
      StepPlaysKnown(After(start, before), e);
    }
    forall delta | FrameEnabled(After(start, events).player, delta)
      ensures !Throws(After(start, events).player, delta)
    {
      KnownDraws(After(start, events).player, delta);
    }
  }

  lemma KnownDraws(p: Player, delta: real)
    requires Known([p.songId]) && Known(p.queue) && FrameEnabled(p, delta)
    ensures !Throws(p, delta)
  {
    assert [p.songId][0] == p.songId;
    var queue := AfterFrame(p, delta).queue;
    assert forall k :: 0 <= k < |queue| ==> queue[k] == p.queue[k + |p.queue| - |queue|];
  }

  lemma SeedKnown()
    ensures Known(SEED)
  {
  }
}
