/** Whole runs of the daemon: what the main loop, the command handlers and the engine's call-backs do
    to the player and to the media, in any order and with any outcomes. */
module Sessions {
  import opened Words
  import opened MediaObjects
  import opened Players
  import opened Playlists
  import opened PlaylistModel
  import BatchRemoval
  import KfyBuffer
  import Loading
  import Shuffling
  import TagReading
  import Uris

  datatype Command =
    | CmdPlay(r: nat, alloc: bool, stop: bool, play: bool)
    | CmdNext(r: nat, alloc: bool, stop: bool, play: bool)
    | CmdTrack(index: int, stop: bool, play: bool)
    | CmdPause(ok: bool)
    | CmdStop(ok: bool)
    | CmdAdd(path: string, resolved: Option<string>, outcome: Loading.AddOutcome)
    | CmdLoad(text: string, env: Loading.Env)
    | CmdRemove(indices: seq<int>)
    | CmdClear
    | CmdModes(repeat: bool, shuffle: bool)
    | CmdSort(before: (string, string) -> bool, alloc: bool)
    | CmdDiscovered(uri: string, ok: bool)
    | CmdBorrow(index: int)
    | CmdGiveBack

  ghost predicate WellFormed(c: Command) {
    match c
    case CmdAdd(_, resolved, _) => Uris.Resolves(resolved)
    case CmdLoad(_, env) => forall p :: Uris.Resolves(env.realpath(p))
    case CmdRemove(indices) => forall i :: 0 <= i < |indices| ==> IsInt(indices[i])
    case _ => true
  }

  // ---------------------------------------------------------------- what the commands do, on values

  function InsertBy(m: Media, s: seq<Media>, before: (string, string) -> bool): seq<Media> {
    if s == [] || before(m.uri, s[0].uri) then [m] + s else [s[0]] + InsertBy(m, s[1..], before)
  }

  /** `vector_sort`, for an arbitrary comparison. */
  function SortBy(s: seq<Media>, before: (string, string) -> bool): seq<Media> {
    if s == [] then [] else InsertBy(s[0], SortBy(s[1..], before), before)
  }

  lemma {:induction false} InsertByKeeps(m: Media, s: seq<Media>, before: (string, string) -> bool)
    ensures multiset(InsertBy(m, s, before)) == multiset([m] + s)
  {
    if s != [] && !before(m.uri, s[0].uri) {
      InsertByKeeps(m, s[1..], before);
      assert s == [s[0]] + s[1..];
    }
  }

  lemma {:induction false} SortByIsPermutation(s: seq<Media>, before: (string, string) -> bool)
    ensures multiset(SortBy(s, before)) == multiset(s)
  {
    if s != [] {
      SortByIsPermutation(s[1..], before);
      InsertByKeeps(s[0], SortBy(s[1..], before), before);
      assert s == [s[0]] + s[1..];
    }
  }

  /** The player as its users see it: playlist, engine, active track, the media that wait for their tags,
      and the references that other parts of the program hold. */
  datatype View = View(pl: PlayState<Media>, engine: EngineState, active: Media?, pending: map<string, Media>,
                       borrowed: seq<Media>)

  ghost function ViewOf(p: AudioPlayer, borrowed: seq<Media>): View
    reads p, p.engine, p.playlist, p.playlist.kfy, p.playlist.reader
  {
    View(p.playlist.State(), p.engine.state, p.active, p.playlist.reader.pending, borrowed)
  }

  /** The random number `r`, brought into the range of the next draw. */
  function PickOf<T>(pl: PlayState<T>, r: nat, alloc: bool): Pick {
    var n := |Shuffling.Pool(pl.k)|;
    Pick(if n == 0 then 0 else r % n, alloc)
  }

  lemma PickFits<T>(pl: PlayState<T>, r: nat, alloc: bool)
    requires PlaylistModel.Valid(pl)
    ensures CanNext(pl, PickOf(pl, r, alloc))
  {
  }

  /** Track `i` is asked for. */
  function StartTrack(s: View, i: nat, stop: bool, play: bool): View {
    if i >= |s.pl.tracks| then s
    else if s.engine != Stopped && !stop then s
    else if play then s.(pl := s.pl.(index := i), engine := Playing, active := s.pl.tracks[i])
    else s.(engine := Stopped)
  }

  function Advance(s: View, pick: Pick, stop: bool, play: bool): View
    requires CanNext(s.pl, pick)
  {
    var (pl, i) := Next(s.pl, pick);
    StartTrack(s.(pl := pl), i, stop, play)
  }

  ghost predicate ChangesPlayback(s: View, c: Command, t: View) {
    match c
    case CmdPlay(r, alloc, stop, play) =>
      (match s.engine
       case Stopped =>
         var pick := PickOf(s.pl, r, alloc);
         CanNext(s.pl, pick) && t == Advance(s, pick, stop, play)
       case Paused => t == s.(engine := if play then Playing else Paused)
       case Playing => t == s)
    case CmdNext(r, alloc, stop, play) =>
      var pick := PickOf(s.pl, r, alloc);
      CanNext(s.pl, pick) && t == Advance(s, pick, stop, play)
    case CmdTrack(index, stop, play) => t == StartTrack(s, Resolve(|s.pl.tracks|, index), stop, play)
    case CmdPause(ok) => t == s.(engine := if s.engine == Playing && ok then Paused else s.engine)
    case CmdStop(ok) => t == s.(engine := if ok then Stopped else s.engine)
    case _ => false
  }

  /** A track with the given URI is added, if there is one and all steps succeed. */
  ghost predicate AddsTrack(s: PlayState<Media>, uri: Option<string>, o: Loading.AddOutcome, t: PlayState<Media>) {
    var n := |s.tracks|;
    if uri.Some? && o.vector && Shuffling.AddSucceeds(s.k, 1, o.alloc) then
      && |t.tracks| == n + 1 && t.tracks[..n] == s.tracks && t.tracks[n].uri == uri.value
      && t == s.(tracks := t.tracks, k := Shuffling.Add(s.k, 1, o.alloc))
    else t == s
  }

  ghost predicate ChangesPlaylist(s: PlayState<Media>, before: map<string, Media>, c: Command,
                                  t: PlayState<Media>, after: map<string, Media>)
    requires s.k.size == |s.tracks|
  {
    match c
    case CmdAdd(path, resolved, o) =>
      if |s.tracks| + 1 >= INT_LIMIT then t == s && after == before
      else
        var uri := Uris.New(path, resolved, o.media);
        AddsTrack(s, uri, o, t) && Requests(before, after, uri, o)
    case CmdLoad(text, env) =>
      if |s.tracks| + Loading.Entries(text) >= INT_LIMIT then t == s && after == before
      else
        var report := Loading.Run(text, s.k, env, 0);
        && t == s.(tracks := t.tracks, k := t.k) && Loads(report, s.tracks, t.tracks, s.k, t.k)
        && Keeps(before, after) && (report.ok ==> AllFiled(t.tracks, |s.tracks|, env, after))
    case CmdRemove(indices) => t == BatchRemoval.RemoveArray(s, indices) && after == before
    case CmdClear => t == Clear(s) && after == before
    case CmdModes(repeat, shuffle) => t == s.(repeat := repeat, shuffle := shuffle) && after == before
    case CmdSort(before', alloc) => t == Sort(s, SortBy(s.tracks, before'), alloc) && after == before
    case _ => false
  }

  ghost predicate ChangesSharing(s: View, c: Command, t: View) {
    match c
    case CmdDiscovered(uri, _) => t == s.(pending := s.pending - {uri})
    case CmdBorrow(index) =>
      var i := Resolve(|s.pl.tracks|, index);
      t == if i < |s.pl.tracks| then s.(borrowed := s.borrowed + [s.pl.tracks[i]]) else s
    case CmdGiveBack => t == if s.borrowed == [] then s else s.(borrowed := s.borrowed[1..])
    case _ => false
  }

  predicate IsPlayback(c: Command) {
    c.CmdPlay? || c.CmdNext? || c.CmdTrack? || c.CmdPause? || c.CmdStop?
  }

  predicate IsSharing(c: Command) {
    c.CmdDiscovered? || c.CmdBorrow? || c.CmdGiveBack?
  }

  /** What one command does to what is seen of the player. */
  ghost predicate Changes(s: View, c: Command, t: View) {
    && s.pl.k.size == |s.pl.tracks|
    && if IsPlayback(c) then ChangesPlayback(s, c, t)
       else if IsSharing(c) then ChangesSharing(s, c, t)
       else t == s.(pl := t.pl, pending := t.pending) && ChangesPlaylist(s.pl, s.pending, c, t.pl, t.pending)
  }

  /** The commands lead through these states. */
  ghost predicate Follows(views: seq<View>, commands: seq<Command>) {
    && |views| == |commands| + 1
    && forall i :: 0 <= i < |commands| ==> Changes(views[i], commands[i], views[i + 1])
  }

  lemma FollowsOne(views: seq<View>, commands: seq<Command>, i: nat, t: View)
    requires i < |commands| && Follows(views, commands[..i]) && Changes(views[i], commands[i], t)
    ensures Follows(views + [t], commands[..i + 1])
  {
    hide Changes;
    assert forall j :: 0 <= j < i ==> commands[..i][j] == commands[..i + 1][j];
  }

  // ---------------------------------------------------------------- the commands

  method InRange(p: AudioPlayer, r: nat, alloc: bool) returns (pick: Pick)
    requires p.Valid()
    ensures pick == PickOf(p.playlist.State(), r, alloc) && CanNext(p.playlist.State(), pick)
  {
    var k := p.playlist.kfy;
    var n := if k.end == 0 then k.size else k.end;
    pick := Pick(if n == 0 then 0 else r % n, alloc);
  }

  /** When a state is the one that `Advance` leads to. */
  lemma AdvanceIs(s: View, pick: Pick, stop: bool, play: bool, t: View)
    requires PlaylistModel.Valid(s.pl) && CanNext(s.pl, pick)
    requires t == s.(pl := Next(s.pl, pick).0, engine := t.engine, active := t.active)
    requires var i := Next(s.pl, pick).1;
             if i == NONE then t.engine == s.engine && t.active == s.active
             else if (s.engine == Stopped || stop) && play then
               t.engine == Playing && i < |t.pl.tracks| && t.active == t.pl.tracks[i]
             else t.engine == (if stop then Stopped else s.engine) && t.active == s.active
    ensures t == Advance(s, pick, stop, play)
  {
    NextIsValid(s.pl, pick);
    NextSetsIndex(s.pl, pick);
    hide Next, Shuffling.Valid;
  }

  method NextTo(p: AudioPlayer, pick: Pick, stop: bool, play: bool, ghost arena: Arena, ghost borrowed: seq<Media>)
    requires p.Valid() && p.Balanced(arena, multiset(borrowed)) && CanNext(p.playlist.State(), pick)
    modifies p, p.engine, p.playlist`index, p.playlist.kfy, p.playlist.kfy.a
    modifies arena.all`refCount, arena.all`frees, arena`held
    ensures p.Valid() && p.Balanced(arena, multiset(borrowed))
    ensures ViewOf(p, borrowed) == Advance(old(ViewOf(p, borrowed)), pick, stop, play)
    ensures p.playlist.kfy.a == old(p.playlist.kfy.a) || fresh(p.playlist.kfy.a)
  {
    p.playlist.StateIsValid();
    hide Arena.Valid, TagReading.TagReader.Valid, Playlist.Balanced, AudioPlayer.Balanced, Next, PlaylistModel.Valid;
    hide AudioPlayer.Valid, CanNext, Advance;
    var status := p.PlayNext(pick, stop, play, arena, multiset(borrowed));
    AdvanceIs(old(ViewOf(p, borrowed)), pick, stop, play, ViewOf(p, borrowed));
  }

  method PlayTo(p: AudioPlayer, pick: Pick, stop: bool, play: bool, ghost arena: Arena, ghost borrowed: seq<Media>)
    requires p.Valid() && p.Balanced(arena, multiset(borrowed)) && CanNext(p.playlist.State(), pick)
    modifies p, p.engine, p.playlist`index, p.playlist.kfy, p.playlist.kfy.a
    modifies arena.all`refCount, arena.all`frees, arena`held
    ensures p.Valid() && p.Balanced(arena, multiset(borrowed))
    ensures var s := old(ViewOf(p, borrowed));
            ViewOf(p, borrowed) ==
            match s.engine
            case Stopped => Advance(s, pick, stop, play)
            case Paused => s.(engine := if play then Playing else Paused)
            case Playing => s
    ensures p.playlist.kfy.a == old(p.playlist.kfy.a) || fresh(p.playlist.kfy.a)
  {
    p.playlist.StateIsValid();
    hide Arena.Valid, TagReading.TagReader.Valid, Playlist.Balanced, AudioPlayer.Balanced, Next, PlaylistModel.Valid;
    hide AudioPlayer.Valid, CanNext, Advance;
    var status := p.Play(pick, stop, play, arena, multiset(borrowed));
    if old(p.engine.state) == Stopped {
      AdvanceIs(old(ViewOf(p, borrowed)), pick, stop, play, ViewOf(p, borrowed));
    }
  }

  method TrackTo(p: AudioPlayer, index: int, stop: bool, play: bool, ghost arena: Arena, ghost borrowed: seq<Media>)
    requires p.Valid() && p.Balanced(arena, multiset(borrowed))
    modifies p, p.engine, p.playlist`index
    modifies arena.all`refCount, arena.all`frees, arena`held
    ensures p.Valid() && p.Balanced(arena, multiset(borrowed))
    ensures var s := old(ViewOf(p, borrowed));
            ViewOf(p, borrowed) == StartTrack(s, Resolve(|s.pl.tracks|, index), stop, play)
  {
    hide Arena.Valid, TagReading.TagReader.Valid, Playlist.Balanced, AudioPlayer.Balanced, AudioPlayer.Valid, Resolve;
    var status := p.PlayTrack(index, stop, play, arena, multiset(borrowed));
  }

  /** Playback: commands and the end-of-stream call-back. */
  method ExecutePlayback(p: AudioPlayer, c: Command, ghost arena: Arena, ghost borrowed: seq<Media>)
    requires p.Valid() && p.Balanced(arena, multiset(borrowed)) && IsPlayback(c)
    modifies p, p.engine, p.playlist`index, p.playlist.kfy, p.playlist.kfy.a
    modifies arena.all`refCount, arena.all`frees, arena`held
    ensures p.Valid() && p.Balanced(arena, multiset(borrowed))
    ensures ChangesPlayback(old(ViewOf(p, borrowed)), c, ViewOf(p, borrowed)) && arena.all == old(arena.all)
    ensures p.playlist.vec == old(p.playlist.vec)
    ensures p.playlist.kfy.a == old(p.playlist.kfy.a) || fresh(p.playlist.kfy.a)
  {
    hide Arena.Valid, TagReading.TagReader.Valid, AudioPlayer.Balanced, AudioPlayer.Valid;
    hide Advance, StartTrack, CanNext, PickOf, Resolve;
    match c
    case CmdPlay(r, alloc, stop, play) =>
      var pick := InRange(p, r, alloc);
      PlayTo(p, pick, stop, play, arena, borrowed);
    case CmdNext(r, alloc, stop, play) =>
      var pick := InRange(p, r, alloc);
      NextTo(p, pick, stop, play, arena, borrowed);
    case CmdTrack(index, stop, play) =>
      TrackTo(p, index, stop, play, arena, borrowed);
    case CmdPause(ok) =>
      var done := p.Pause(ok);
    case CmdStop(ok) =>
      var done := p.Stop(ok);
  }

  method ArrayOf(s: seq<int>) returns (a: array<int>)
    ensures fresh(a) && a[..] == s
  {
    a := new int[|s|];
    forall i | 0 <= i < |s| {
      a[i] := s[i];
    }
  }

  /** Additions to the playlist. */
  method GrowPlaylist(pl: Playlist, c: Command, ghost arena: Arena, ghost others: multiset<Media>)
    requires pl.Valid() && pl.Balanced(arena, others) && WellFormed(c) && (c.CmdAdd? || c.CmdLoad?)
    modifies pl, pl.reader, pl.kfy, pl.kfy.a, arena, arena.all
    ensures pl.Valid() && pl.Balanced(arena, others)
    ensures pl.kfy.a == old(pl.kfy.a) || fresh(pl.kfy.a)
    ensures Distinct(old(pl.vec)) ==> Distinct(pl.vec)
    ensures ChangesPlaylist(old(pl.State()), old(pl.reader.pending), c, pl.State(), pl.reader.pending)
    ensures Grows(arena, old(arena.all))
    ensures forall x :: x in arena.all ==> x in old(arena.all) || fresh(x)
  {
    hide Arena.Valid, TagReading.TagReader.Valid, Playlist.Balanced, Playlist.Valid;
    hide Loading.Entries, Loading.Run, Requests, Loads, Keeps, AllFiled, Uris.New, Distinct;
    hide Shuffling.Add, Shuffling.AddSucceeds;
    SizeAgrees(pl);
    match c
    case CmdAdd(path, resolved, outcome) =>
      if |pl.vec| + 1 < INT_LIMIT {
        var ok := pl.Add(path, resolved, outcome, arena, others);
      }
    case CmdLoad(text, env) =>
      if |pl.vec| + Loading.Entries(text) < INT_LIMIT {
        var ok := pl.LoadFile(text, env, arena, others);
      }
  }

  lemma SizeAgrees(pl: Playlist)
    requires pl.Valid()
    ensures pl.kfy.state.size == |pl.vec|
  {
  }

  /** Changes of the playlist. */
  method EditPlaylist(pl: Playlist, c: Command, ghost arena: Arena, ghost others: multiset<Media>)
    requires pl.Valid() && pl.Balanced(arena, others) && WellFormed(c) && !IsPlayback(c) && !IsSharing(c)
    modifies pl, pl.reader, pl.kfy, pl.kfy.a, arena, arena.all
    ensures pl.Valid() && pl.Balanced(arena, others)
    ensures pl.kfy.a == old(pl.kfy.a) || fresh(pl.kfy.a)
    ensures Distinct(old(pl.vec)) ==> Distinct(pl.vec)
    ensures ChangesPlaylist(old(pl.State()), old(pl.reader.pending), c, pl.State(), pl.reader.pending)
    ensures Grows(arena, old(arena.all))
    ensures forall x :: x in arena.all ==> x in old(arena.all) || fresh(x)
  {
    hide Arena.Valid, TagReading.TagReader.Valid, Playlist.Balanced, Playlist.Valid;
    hide PlaylistModel.Clear, PlaylistModel.Sort, BatchRemoval.RemoveArray, SortBy;
    SizeAgrees(pl);
    match c
    case CmdAdd(_, _, _) | CmdLoad(_, _) =>
      hide ChangesPlaylist, Distinct;
      GrowPlaylist(pl, c, arena, others);
    case CmdRemove(indices) =>
      var a := ArrayOf(indices);
      pl.RemoveArray(a, arena, others);
    case CmdClear =>
      pl.Clear(arena, others);
    case CmdModes(repeat, shuffle) =>
      pl.SetModes(repeat, shuffle);
    case CmdSort(before, alloc) =>
      SortByIsPermutation(pl.vec, before);
      if Distinct(pl.vec) {
        Rearranged(pl.vec, SortBy(pl.vec, before));
      }
      pl.Sort(SortBy(pl.vec, before), alloc, arena, others);
    case _ =>
  }

  method ExecuteEdit(p: AudioPlayer, c: Command, ghost arena: Arena, ghost borrowed: seq<Media>)
    requires p.Valid() && p.Balanced(arena, multiset(borrowed)) && WellFormed(c) && !IsPlayback(c) && !IsSharing(c)
    modifies p.playlist, p.playlist.reader, p.playlist.kfy, p.playlist.kfy.a, arena, arena.all
    ensures p.Valid() && p.Balanced(arena, multiset(borrowed))
    ensures Changes(old(ViewOf(p, borrowed)), c, ViewOf(p, borrowed))
    ensures p.playlist.kfy.a == old(p.playlist.kfy.a) || fresh(p.playlist.kfy.a)
    ensures Distinct(old(p.playlist.vec)) ==> Distinct(p.playlist.vec)
    ensures Grows(arena, old(arena.all))
    ensures forall x :: x in arena.all ==> x in old(arena.all) || fresh(x)
  {
    SizesAgree(p);
    hide Playlist.Balanced, Playlist.Valid, Distinct, ChangesPlaylist;
    EditPlaylist(p.playlist, c, arena, multiset(borrowed) + p.Active());
  }

  lemma SizesAgree(p: AudioPlayer)
    requires p.Valid()
    ensures p.playlist.State().k.size == |p.playlist.State().tracks|
  {
  }

  /** The rest: tag discovery, and references that other parts of the program take and give back. */
  method ExecuteSharing(p: AudioPlayer, c: Command, borrowed: seq<Media>, ghost arena: Arena)
    returns (kept: seq<Media>)
    requires p.Valid() && p.Balanced(arena, multiset(borrowed)) && IsSharing(c)
    modifies p.playlist.reader, arena.all, arena`held
    ensures p.Valid() && p.Balanced(arena, multiset(kept))
    ensures ChangesSharing(old(ViewOf(p, borrowed)), c, ViewOf(p, kept)) && arena.all == old(arena.all)
    ensures p.playlist.vec == old(p.playlist.vec)
  {
    hide Arena.Valid, TagReading.TagReader.Valid, Playlist.Balanced, AudioPlayer.Balanced, AudioPlayer.Valid, Resolve;
    kept := borrowed;
    match c
    case CmdDiscovered(uri, ok) =>
      p.Discovered(uri, ok, arena, multiset(borrowed));
    case CmdBorrow(index) =>
      var m := p.Borrow(index, arena, multiset(borrowed));
      if m != null {
        kept := borrowed + [m];
      }
    case CmdGiveBack =>
      if borrowed != [] {
        kept := GiveBack(p, borrowed, arena);
      }
  }

  lemma FirstOf(s: seq<Media>)
    requires s != []
    ensures s[0] in multiset(s) && multiset(s) == multiset(s[1..]) + multiset{s[0]}
  {
    assert s == [s[0]] + s[1..];
  }

  method GiveBack(p: AudioPlayer, borrowed: seq<Media>, ghost arena: Arena) returns (kept: seq<Media>)
    requires p.Balanced(arena, multiset(borrowed)) && borrowed != []
    modifies arena.all`refCount, arena.all`frees, arena`held
    ensures p.Balanced(arena, multiset(kept)) && kept == borrowed[1..]
  {
    hide Arena.Valid, TagReading.TagReader.Valid, Playlist.Balanced;
    var m := borrowed[0];
    kept := borrowed[1..];
    FirstOf(borrowed);
    p.playlist.IsAlive(arena, multiset(borrowed) + p.Active(), m);
    Regroup(multiset(kept), p.Active(), multiset{m});
    p.playlist.Drop(m, arena, multiset(kept) + p.Active());
  }

  method Execute(p: AudioPlayer, c: Command, borrowed: seq<Media>, ghost arena: Arena)
    returns (kept: seq<Media>)
    requires p.Valid() && p.Balanced(arena, multiset(borrowed)) && WellFormed(c)
    modifies p, p.engine, p.playlist, p.playlist.reader, p.playlist.kfy, p.playlist.kfy.a, arena, arena.all
    ensures p.Valid() && p.Balanced(arena, multiset(kept))
    ensures Changes(old(ViewOf(p, borrowed)), c, ViewOf(p, kept))
    ensures p.playlist.kfy.a == old(p.playlist.kfy.a) || fresh(p.playlist.kfy.a)
    ensures Distinct(old(p.playlist.vec)) ==> Distinct(p.playlist.vec)
    ensures Grows(arena, old(arena.all))
    ensures forall x :: x in arena.all ==> x in old(arena.all) || fresh(x)
  {
    SizesAgree(p);
    hide Arena.Valid, TagReading.TagReader.Valid, AudioPlayer.Balanced, AudioPlayer.Valid, Distinct;
    hide ChangesPlayback, ChangesSharing, ChangesPlaylist;
    kept := borrowed;
    if IsPlayback(c) {
      ExecutePlayback(p, c, arena, borrowed);
    } else if IsSharing(c) {
      kept := ExecuteSharing(p, c, borrowed, arena);
    } else {
      ExecuteEdit(p, c, arena, borrowed);
    }
  }

  /** Giving every borrowed reference back and destroying the player frees every media. */
  method Shutdown(p: AudioPlayer, borrowed: seq<Media>, ghost arena: Arena)
    requires p.Balanced(arena, multiset(borrowed))
    modifies p.playlist`vec, p.playlist.reader, arena.all`refCount, arena.all`frees, arena`held
    ensures arena.all == old(arena.all)
    ensures forall m :: m in arena.all ==> m.refCount == 0 && m.frees == 1
  {
    var left := borrowed;
    while left != []
      invariant p.Balanced(arena, multiset(left))
      decreases |left|
    {
      left := GiveBack(p, left, arena);
    }
    p.Destroy(arena, multiset{});
  }

  /** Any commands, in any order, with any outcomes: each does to the player what `Changes` says, and
      conservation and the agreement of engine and active track hold after each of them.  No media comes
      into the playlist twice. */
  method Run(p: AudioPlayer, commands: seq<Command>, ghost arena: Arena)
    returns (borrowed: seq<Media>, ghost views: seq<View>)
    requires p.Valid() && p.Balanced(arena, multiset{})
    requires forall c :: c in commands ==> WellFormed(c)
    modifies p, p.engine, p.playlist, p.playlist.reader, p.playlist.kfy, p.playlist.kfy.a, arena, arena.all
    ensures p.Valid() && p.Balanced(arena, multiset(borrowed))
    ensures Follows(views, commands) && views[0] == old(ViewOf(p, [])) && views[|commands|] == ViewOf(p, borrowed)
    ensures p.playlist.kfy.a == old(p.playlist.kfy.a) || fresh(p.playlist.kfy.a)
    ensures Distinct(old(p.playlist.vec)) ==> Distinct(p.playlist.vec)
    ensures Grows(arena, old(arena.all))
    ensures forall x :: x in arena.all ==> x in old(arena.all) || fresh(x)
  {
    hide Arena.Valid, TagReading.TagReader.Valid, AudioPlayer.Balanced, AudioPlayer.Valid, Distinct, Changes;
    borrowed, views := [], [ViewOf(p, [])];
    var i := 0;
    while i < |commands|
      invariant i <= |commands|
      invariant p.Valid() && p.Balanced(arena, multiset(borrowed))
      invariant Follows(views, commands[..i]) && views[0] == old(ViewOf(p, [])) && views[i] == ViewOf(p, borrowed)
      invariant p.playlist.kfy.a == old(p.playlist.kfy.a) || fresh(p.playlist.kfy.a)
      invariant Distinct(old(p.playlist.vec)) ==> Distinct(p.playlist.vec)
      invariant Grows(arena, old(arena.all))
      invariant forall x :: x in arena.all ==> x in old(arena.all) || fresh(x)
    {
      borrowed := Execute(p, commands[i], borrowed, arena);
      FollowsOne(views, commands, i, ViewOf(p, borrowed));
      views := views + [ViewOf(p, borrowed)];
      i := i + 1;
    }
    assert commands[..i] == commands;
  }

  /** A whole run of the daemon up to and including its shutdown: every media object that existed at
      the start or was created on the way has been freed, exactly once. */
  method Session(p: AudioPlayer, commands: seq<Command>, ghost arena: Arena)
    requires p.Valid() && p.Balanced(arena, multiset{})
    requires forall c :: c in commands ==> WellFormed(c)
    modifies p, p.engine, p.playlist, p.playlist.reader, p.playlist.kfy, p.playlist.kfy.a, arena, arena.all
    ensures Grows(arena, old(arena.all))
    ensures forall m :: m in arena.all ==> m.refCount == 0 && m.frees == 1
  {
    ghost var views;
    var borrowed;
    borrowed, views := Run(p, commands, arena);
    Shutdown(p, borrowed, arena);
  }

  /** The daemon from its start, after any sequence of commands.  Its playlist has no track twice, and
      while the cycle of its shuffler is whole, drawn and remaining positions partition the tracks: the
      results on removals apply to every state it reaches. */
  method Reach(commands: seq<Command>)
    returns (p: AudioPlayer, borrowed: seq<Media>, ghost arena: Arena, ghost views: seq<View>)
    requires forall c :: c in commands ==> WellFormed(c)
    ensures fresh(p) && fresh(p.engine) && fresh(p.playlist) && fresh(p.playlist.reader)
    ensures fresh(p.playlist.kfy) && fresh(p.playlist.kfy.a) && fresh(arena) && fresh(arena.all)
    ensures p.Valid() && p.Balanced(arena, multiset(borrowed))
    ensures Follows(views, commands) && views[|commands|] == ViewOf(p, borrowed)
    ensures views[0] == View(PlaylistModel.Empty(), Stopped, null, map[], [])
    ensures var pl := p.playlist.State();
            && PlaylistModel.Valid(pl) && Distinct(pl.tracks)
            && (p.playlist.kfy.history.intact ==> Shuffling.Splits(pl.k, p.playlist.kfy.history.drawn))
  {
    hide Arena.Valid, KfyBuffer.Kfy.Valid, Follows;
    arena := new Arena();
    p := new AudioPlayer(arena);
    assert arena.held == multiset{} && p.playlist.vec == [];
    borrowed, views := Run(p, commands, arena);
    p.playlist.StateIsValid();
  }

  /** The daemon from its start to its end. */
  method Daemon(commands: seq<Command>) returns (ghost arena: Arena)
    requires forall c :: c in commands ==> WellFormed(c)
    ensures fresh(arena) && forall m :: m in arena.all ==> m.refCount == 0 && m.frees == 1
  {
    ghost var views;
    var p, borrowed;
    p, borrowed, arena, views := Reach(commands);
    Shutdown(p, borrowed, arena);
  }
}
