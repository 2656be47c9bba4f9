/** The audio player (audio-player.c) over the state part of the engine (gst-engine.c). */
module Players {
  import opened Words
  import opened MediaObjects
  import opened PlaylistModel
  import opened Playlists
  import KfyBuffer
  import TagReading

  datatype EngineState = Stopped | Paused | Playing

  /** The engine's cached state and the URI last set on its source.  Every transition may fail. */
  class GstEngine {
    var state: EngineState
    var uri: Option<string>

    constructor ()
      ensures state == Stopped && uri == None
    {
      state := Stopped;
      uri := None;
    }

    /** `gst_engine_set_state` */
    method SetState(target: EngineState, ok: bool) returns (done: bool)
      modifies this`state
      ensures done == (old(state) == target || ok)
      ensures state == if done then target else old(state)
    {
      if state != target {
        if !ok {
          return false;
        }
        state := target;
      }
      return true;
    }

    method Play(ok: bool) returns (done: bool)
      modifies this`state
      ensures done == (old(state) == Playing || ok)
      ensures state == if done then Playing else old(state)
    {
      done := SetState(Playing, ok);
    }

    /** A stopped engine cannot be paused. */
    method Pause(ok: bool) returns (done: bool)
      modifies this`state
      ensures done == (old(state) == Paused || (old(state) == Playing && ok))
      ensures state == if done then Paused else old(state)
    {
      if state == Stopped {
        return false;
      }
      done := SetState(Paused, ok);
    }

    method Stop(ok: bool) returns (done: bool)
      modifies this`state
      ensures done == (old(state) == Stopped || ok)
      ensures state == if done then Stopped else old(state)
    {
      done := SetState(Stopped, ok);
    }

    /** The engine's part in playing a track: stop, set the URI, play. */
    method Restart(uri: string, stop: bool, play: bool) returns (done: bool)
      modifies this
      ensures var stopped := old(state) == Stopped || stop;
              && done == (stopped && play)
              && state == (if !stopped then old(state) else if play then Playing else Stopped)
              && this.uri == (if stopped then Some(uri) else old(this.uri))
    {
      done := Stop(stop);
      if !done {
        return false;
      }
      SetUri(uri);
      done := Play(play);
    }

    method SetUri(uri: string)
      modifies this`uri
      ensures this.uri == Some(uri)
    {
      this.uri := Some(uri);
    }
  }

  datatype Status = Ok | NoMedium | Invalid | NotSupported

  lemma Regroup<T>(others: multiset<T>, active: multiset<T>, m: multiset<T>)
    ensures others + active + m == others + m + active
    ensures others + active + m - m == others + active
    ensures others + active + m - active == others + m
  {
  }

  class AudioPlayer {
    const playlist: Playlist
    const engine: GstEngine
    var active: Media?

    /** The reference of the active-track slot. */
    ghost function Active(): multiset<Media>
      reads this
    {
      if active == null then multiset{} else multiset{active}
    }

    /** Conservation, with the active track as one more owner. */
    ghost predicate Balanced(arena: Arena, others: multiset<Media>)
      reads this, playlist`vec, playlist.reader, arena, arena.all`refCount, arena.all`frees
    {
      playlist.Balanced(arena, others + Active())
    }

    /** An engine that plays or is paused does so with the active track. */
    ghost predicate Agrees()
      reads this, engine
    {
      engine.state != Stopped ==> active != null && engine.uri == Some(active.uri)
    }

    ghost predicate Valid()
      reads this, engine, playlist, playlist.kfy, playlist.kfy.a
    {
      playlist.Valid() && Agrees()
    }

    constructor (ghost arena: Arena)
      requires arena.Valid()
      ensures Valid() && Balanced(arena, arena.held) && active == null && engine.state == Stopped
      ensures playlist.State() == PlaylistModel.Empty()
      ensures fresh(playlist) && fresh(playlist.reader) && fresh(playlist.kfy) && fresh(playlist.kfy.a) && fresh(engine)
    {
      hide Arena.Valid, TagReading.TagReader.Valid, KfyBuffer.Kfy.Valid, Playlist.Balanced;
      engine := new GstEngine();
      playlist := new Playlist(arena);
      active := null;
      new;
      assert arena.held + Active() == arena.held;
    }

    /** Whoever is active is alive: its object has not been freed. */
    lemma ActiveIsAlive(arena: Arena, others: multiset<Media>)
      requires Valid() && Balanced(arena, others) && engine.state != Stopped
      ensures active != null && active in arena.all && active.refCount > 0 && active.frees == 0
      ensures engine.uri == Some(active.uri)
    {
    }

    /** The reference count of every media, in numbers: its occurrences in the vector, its entry in
        the pending-tag map, the active-track slot and the references outside the player.  It has been
        freed, once, exactly if there are none. */
    lemma ReferenceCount(arena: Arena, others: multiset<Media>, m: Media)
      requires Balanced(arena, others) && m in arena.all
      ensures var pending := playlist.reader.pending;
              m.refCount == others[m] + multiset(playlist.vec)[m]
                            + (if m.uri in pending && pending[m.uri] == m then 1 else 0)
                            + (if active == m then 1 else 0)
      ensures m.frees == if m.refCount == 0 then 1 else 0
    {
    }

    /** `audio_player_play_track`.  `stop` and `play` are the outcomes of the two transitions. */
    method PlayTrack(track: int, stop: bool, play: bool, ghost arena: Arena, ghost others: multiset<Media>)
      returns (status: Status)
      requires Valid() && Balanced(arena, others)
      modifies this`active, engine, playlist`index, arena.all`refCount, arena.all`frees, arena`held
      ensures Valid() && Balanced(arena, others)
      ensures status == (if Resolve(|playlist.vec|, track) >= |playlist.vec| then Invalid
                         else if (old(engine.state) == Stopped || stop) && play then Ok
                         else NotSupported)
      ensures status == Ok ==> StartedAt(Resolve(|playlist.vec|, track))
      ensures status != Ok ==> active == old(active) && playlist.index == old(playlist.index)
      ensures status == Invalid ==> engine.state == old(engine.state) && engine.uri == old(engine.uri)
      ensures status == NotSupported ==>
                Failed(old(engine.state), old(engine.uri), playlist.vec[Resolve(|playlist.vec|, track)], stop)
    {
      hide Arena.Valid, TagReading.TagReader.Valid, Playlist.Balanced, Playlist.State, Playlist.Valid, Resolve;
      var m := playlist.At(track, arena, others + Active());
      if m == null {
        return Invalid;
      }
      Regroup(others, Active(), multiset{m});
      var done := PlayMedia(m, track, stop, play, arena, others);
      return if done then Ok else NotSupported;
    }

    /** Playback of `m` could not be started.  The engine has been stopped before, if that could be done. */
    ghost predicate Failed(state: EngineState, uri: Option<string>, m: Media, stop: bool)
      reads engine
    {
      && engine.state == (if stop then Stopped else state)
      && engine.uri == (if state == Stopped || stop then Some(m.uri) else uri)
    }

    /** Playback of the playlist entry `i` has begun. */
    ghost predicate StartedAt(i: nat)
      reads this, engine, playlist
    {
      && engine.state == Playing
      && playlist.index == i < |playlist.vec|
      && active == playlist.vec[i]
      && engine.uri == Some(active.uri)
    }

    /** The rest of it, once the caller owns a reference to the track. */
    method PlayMedia(m: Media, track: int, stop: bool, play: bool, ghost arena: Arena, ghost others: multiset<Media>)
      returns (done: bool)
      requires Valid() && Balanced(arena, others + multiset{m}) && m in arena.all
      requires Resolve(|playlist.vec|, track) < |playlist.vec| && playlist.vec[Resolve(|playlist.vec|, track)] == m
      modifies this`active, engine, playlist`index, arena.all`refCount, arena.all`frees, arena`held
      ensures Valid() && Balanced(arena, others)
      ensures done == ((old(engine.state) == Stopped || stop) && play)
      ensures done ==> StartedAt(Resolve(|playlist.vec|, track))
      ensures !done ==> active == old(active) && playlist.index == old(playlist.index)
      ensures !done ==> Failed(old(engine.state), old(engine.uri), m, stop)
    {
      hide Arena.Valid, TagReading.TagReader.Valid, Playlist.Balanced, Playlist.State, Playlist.Valid, Resolve;
      Regroup(others, Active(), multiset{m});
      done := engine.Restart(m.uri, stop, play);
      if done {
        playlist.SetIndex(track);
        Adopt(m, arena, others);
      } else {
        playlist.Drop(m, arena, others + Active());
      }
    }

    /** The reference `m` moves to the active-track slot, the one there is given up. */
    method Adopt(m: Media, ghost arena: Arena, ghost others: multiset<Media>)
      requires Balanced(arena, others + multiset{m})
      modifies this`active, arena.all`refCount, arena.all`frees, arena`held
      ensures Balanced(arena, others) && active == m
    {
      hide Arena.Valid, TagReading.TagReader.Valid, Playlist.Balanced;
      Regroup(others, Active(), multiset{m});
      assert active == null ==> others + multiset{m} + Active() == others + multiset{m};
      if active != null {
        playlist.IsAlive(arena, others + multiset{m} + Active(), active);
        playlist.Drop(active, arena, others + multiset{m});
      }
      active := m;
    }

    /** `audio_player_play_next`.  At the end of the playlist the engine is left as it is. */
    method PlayNext(pick: Pick, stop: bool, play: bool, ghost arena: Arena, ghost others: multiset<Media>)
      returns (status: Status)
      requires Valid() && Balanced(arena, others) && CanNext(playlist.State(), pick)
      modifies this`active, engine, playlist`index, playlist.kfy, playlist.kfy.a
      modifies arena.all`refCount, arena.all`frees, arena`held
      ensures Valid() && Balanced(arena, others)
      ensures playlist.kfy.a == old(playlist.kfy.a) || fresh(playlist.kfy.a)
      ensures playlist.State() == PlaylistModel.Next(old(playlist.State()), pick).0
      ensures var n := |playlist.vec|;
              var next := PlaylistModel.Next(old(playlist.State()), pick).1;
              && status == (if n == 0 then NoMedium
                            else if next == NONE then Ok
                            else if (old(engine.state) == Stopped || stop) && play then Ok
                            else NotSupported)
              && (next == NONE ==>
                    active == old(active) && engine.state == old(engine.state) && engine.uri == old(engine.uri))
              && (next != NONE && status == Ok ==> StartedAt(next))
              && (status == NotSupported ==>
                    && active == old(active) && next < |playlist.vec|
                    && Failed(old(engine.state), old(engine.uri), playlist.vec[next], stop))
    {
      hide Arena.Valid, TagReading.TagReader.Valid, Playlist.Balanced, Playlist.Valid;
      if |playlist.vec| == 0 {
        return NoMedium;
      }
      var track := playlist.Next(pick);
      if track == NONE {
        return Ok;
      }
      TrackFits(track);
      status := PlayTrack(ToInt(track), stop, play, arena, others);
    }

    lemma TrackFits(track: nat)
      requires playlist.Valid() && track < |playlist.vec|
      ensures track < U32 && Resolve(|playlist.vec|, ToInt(track)) == track
    {
    }

    /** `audio_player_play` */
    method Play(pick: Pick, stop: bool, play: bool, ghost arena: Arena, ghost others: multiset<Media>)
      returns (status: Status)
      requires Valid() && Balanced(arena, others) && CanNext(playlist.State(), pick)
      modifies this`active, engine, playlist`index, playlist.kfy, playlist.kfy.a
      modifies arena.all`refCount, arena.all`frees, arena`held
      ensures Valid() && Balanced(arena, others)
      ensures playlist.kfy.a == old(playlist.kfy.a) || fresh(playlist.kfy.a)
      ensures playlist.State() == if old(engine.state) == Stopped then PlaylistModel.Next(old(playlist.State()), pick).0
                                  else old(playlist.State())
      ensures old(engine.state) == Paused ==> status == (if play then Ok else NotSupported)
      ensures old(engine.state) == Playing ==> status == Ok
      ensures old(engine.state) != Stopped ==>
        && engine.state == (if status == Ok then Playing else Paused)
        && engine.uri == old(engine.uri) && active == old(active) && playlist.index == old(playlist.index)
      ensures var next := PlaylistModel.Next(old(playlist.State()), pick).1;
              old(engine.state) == Stopped ==>
                && status == (if |playlist.vec| == 0 then NoMedium
                              else if next == NONE || play then Ok
                              else NotSupported)
                && (if next != NONE && status == Ok then StartedAt(next)
                    else engine.state == Stopped && active == old(active))
    {
      hide Arena.Valid, TagReading.TagReader.Valid, Playlist.Balanced, Playlist.Valid;
      match engine.state
      case Stopped =>
        status := PlayNext(pick, stop, play, arena, others);
      case Paused =>
        var done := engine.Play(play);
        status := if done then Ok else NotSupported;
      case Playing =>
        status := Ok;
    }

    /** `audio_player_pause` */
    method Pause(ok: bool) returns (done: bool)
      requires Valid()
      modifies engine`state
      ensures Valid()
      ensures done == (old(engine.state) == Paused || (old(engine.state) == Playing && ok))
      ensures engine.state == if done then Paused else old(engine.state)
    {
      done := engine.Pause(ok);
    }

    /** `audio_player_stop` */
    method Stop(ok: bool) returns (done: bool)
      requires Valid()
      modifies engine`state
      ensures Valid()
      ensures done == (old(engine.state) == Stopped || ok)
      ensures engine.state == if done then Stopped else old(engine.state)
    {
      done := engine.Stop(ok);
    }

    /** The tag reader's call-back for a track whose discovery has ended. */
    method Discovered(uri: string, ok: bool, ghost arena: Arena, ghost others: multiset<Media>)
      requires Balanced(arena, others)
      modifies playlist.reader, arena.all, arena`held
      ensures Balanced(arena, others)
      ensures playlist.reader.pending == old(playlist.reader.pending) - {uri}
      ensures forall m :: m in arena.all ==>
                m.parsed == (old(m.parsed) || (ok && uri in old(playlist.reader.pending)
                                               && m == old(playlist.reader.pending)[uri]))
    {
      hide Arena.Valid, TagReading.TagReader.Valid;
      playlist.reader.OnDiscovered(uri, ok, arena, others + Active() + multiset(playlist.vec));
    }

    /** `playlist_at`, for another part of the program. */
    method Borrow(index: int, ghost arena: Arena, ghost others: multiset<Media>) returns (m: Media?)
      requires Valid() && Balanced(arena, others)
      modifies arena.all`refCount, arena`held
      ensures Balanced(arena, if m == null then others else others + multiset{m})
      ensures var i := Resolve(|playlist.vec|, index);
              if i < |playlist.vec| then m == playlist.vec[i] else m == null
    {
      hide Arena.Valid, TagReading.TagReader.Valid, Playlist.Balanced;
      m := playlist.At(index, arena, others + Active());
      if m != null {
        Regroup(others, Active(), multiset{m});
      }
    }

    /** `audio_player_destroy`: every reference of the player and its playlist is given up. */
    method Destroy(ghost arena: Arena, ghost others: multiset<Media>)
      requires Balanced(arena, others)
      modifies playlist`vec, playlist.reader, arena.all`refCount, arena.all`frees, arena`held
      ensures arena.Valid() && arena.held == others
    {
      hide Arena.Valid, TagReading.TagReader.Valid, Playlist.Balanced;
      assert active == null ==> others + Active() == others;
      if active != null {
        playlist.IsAlive(arena, others + Active(), active);
        playlist.Drop(active, arena, others);
      }
      playlist.Destroy(arena, others);
    }
  }
}
