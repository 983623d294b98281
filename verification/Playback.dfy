/** The music player of src/player.cpp: current song, queue, elapsed time and pause, and one frame of its loop. */
module Playback {
  import opened RealArith
  import opened Messages

  /** Seconds each song lasts. */
  const SONGS: map<Int32, int> := map[1 := 15, 2 := 20]

  datatype Player = Player(songId: Int32, queue: seq<Int32>, elapsed: real, paused: bool)

  /** How a pass of the frame body ends: with a progress value, or in the exception for an unknown song. */
  datatype Frame = Drawn(progress: real) | Idle | Threw

  // ----- The methods, on values -----

  function Advance(p: Player): Player
    requires p.queue != []
  {
    p.(songId := p.queue[0], queue := p.queue[1..], elapsed := 0.0)
  }

  function Skipped(p: Player): Player {
    if p.queue != [] then Advance(p) else p
  }

  function Queued(p: Player, songId: Int32): Player {
    if |p.queue| < MAXIMUM_QUEUE_SIZE then p.(queue := p.queue + [songId]) else p
  }

  /** The songs the loop starts with. */
  const SEED: seq<Int32> := [1, 2, 1, 2, 2]

  function NewPlayer(initialSong: Int32): Player {
    Player(initialSong, [], 0.0, false)
  }

  function Seeding(p: Player): Player {
    p.(queue := p.queue + SEED)
  }

  function Credit(delta: real): real {
    if 0.0 < delta < 1.0 then delta else 0.0
  }

  function Credited(p: Player, delta: real): Player {
    p.(elapsed := p.elapsed + Credit(delta))
  }

  predicate Ends(p: Player, delta: real) {
    !p.paused && p.songId in SONGS && Credited(p, delta).elapsed > SONGS[p.songId] as real
  }

  /** A frame waits for a song to play next; it comes to an end when it needs none, or finds one. */
  predicate FrameEnabled(p: Player, delta: real) {
    Ends(p, delta) ==> p.queue != []
  }

  function AfterFrame(p: Player, delta: real): Player
    requires FrameEnabled(p, delta)
  {
    if p.paused then p
    else if Ends(p, delta) then Advance(Credited(p, delta))
    else Credited(p, delta)
  }

  /** Every song shown must be known: the one the frame begins with and those queued when it ends. */
  predicate Throws(p: Player, delta: real)
    requires FrameEnabled(p, delta)
  {
    var queue := AfterFrame(p, delta).queue;
    !p.paused && (p.songId !in SONGS || exists k :: 0 <= k < |queue| && queue[k] !in SONGS)
  }

  /** Between frames the elapsed time is that of a known song under way, or just zero. */
  predicate Playing(p: Player) {
    if p.songId in SONGS then 0.0 <= p.elapsed <= SONGS[p.songId] as real else p.elapsed == 0.0
  }

  function InStatusRange(elapsed: real): bool {
    -0x8000_0000 as real <= elapsed < 0x8000_0000 as real
  }

  function StatusOf(p: Player): Status
    requires InStatusRange(p.elapsed)
  {
    Status(p.songId, Trunc(p.elapsed), p.paused, p.queue)
  }

  function WithStatus(s: Status): Player {
    Player(s.currentSongId, s.queue, s.elapsedTime as real, s.paused)
  }

  class MusicPlayer {
    var songId: Int32
    var songQueue: seq<Int32>
    var elapsed: real
    var paused: bool

    ghost function State(): Player
      reads this
    {
      Player(songId, songQueue, elapsed, paused)
    }

    constructor (initialSong: Int32)
      ensures State() == NewPlayer(initialSong)
    {
      songId, songQueue, elapsed, paused := initialSong, [], 0.0, false;
    }

    /** Called with a song in the queue: the wait for one is over. */
    method NextSong()
      requires songQueue != []
      modifies this
      ensures State() == Advance(old(State()))
    {
      songId := songQueue[0];
      songQueue := songQueue[1..];
      elapsed := 0.0;
    }

    method Skip()
      modifies this
      ensures State() == Skipped(old(State()))
    {
      if songQueue != [] {
        songId := songQueue[0];
        songQueue := songQueue[1..];
        elapsed := 0.0;
      }
    }

    method AddToQueue(songId: Int32)
      modifies this
      ensures State() == Queued(old(State()), songId)
    {
      if |songQueue| < MAXIMUM_QUEUE_SIZE {
        songQueue := songQueue + [songId];
      }
    }

    method SetElapsed(newElapsed: Int32)
      modifies this
      ensures State() == old(State()).(elapsed := newElapsed as real)
    {
      elapsed := newElapsed as real;
    }

    method TogglePause()
      modifies this
      ensures State() == old(State()).(paused := !old(paused))
    {
      paused := !paused;
    }

    method GetStatus() returns (status: Status)
      requires InStatusRange(elapsed)
      ensures status == StatusOf(State())
    {
      status := Status(songId, Trunc(elapsed), paused, songQueue);
    }

    method SetStatus(status: Status)
      modifies this
      ensures State() == WithStatus(status)
    {
      songId := status.currentSongId;
      elapsed := status.elapsedTime as real;
      paused := status.paused;
      songQueue := status.queue;
    }

    /** The songs the loop starts with; they are pushed without a look at the size of the queue. */
    method SeedQueue()
      modifies this
      ensures State() == Seeding(old(State())) && songQueue == old(songQueue) + [1, 2, 1, 2, 2]
    {
      songQueue := songQueue + [1];
      songQueue := songQueue + [2];
      songQueue := songQueue + [1];
      songQueue := songQueue + [2];
      songQueue := songQueue + [2];
    }

    /**
     * The frame body, delta seconds after the one before. The progress it draws is the elapsed time
     * over the duration of the song the frame began with. It throws exactly when that song, or one
     * still in the queue afterwards, is unknown.
     */
    method DrawFrame(delta: real) returns (frame: Frame)
      requires FrameEnabled(State(), delta)
      modifies this
      ensures State() == AfterFrame(old(State()), delta)
      ensures frame.Idle? <==> old(paused)
      ensures frame.Threw? <==> Throws(old(State()), delta)
      ensures frame.Drawn? <==> !old(paused) && old(songId) in SONGS && forall id :: id in songQueue ==> id in SONGS
      ensures frame.Drawn? ==> frame.progress * SONGS[old(songId)] as real == elapsed
      ensures frame.Drawn? && Playing(old(State())) ==> 0.0 <= frame.progress <= 1.0
    {
      if paused {
        return Idle;
      }
      if delta > 0.0 && delta < 1.0 {
        elapsed := elapsed + delta;
      }
      if songId !in SONGS {
        return Threw;
      }
      var duration := SONGS[songId];
      assert duration == 15 || duration == 20;
      if elapsed > duration as real {
        NextSong();
      }
      frame := Drawn(elapsed / duration as real);
      for i := 0 to |songQueue|
        invariant State() == AfterFrame(old(State()), delta) && frame == Drawn(elapsed / duration as real)
        invariant forall j :: 0 <= j < i ==> songQueue[j] in SONGS
      {
        if songQueue[i] !in SONGS {
          assert songQueue[i] in songQueue;
          return Threw;
        }
      }
    }
  }
}
