/** What the playlist of playlist.c computes, as functions on values, over any type of track.
    Class `Playlist` implements these functions; here they are related to whole runs. */
module PlaylistModel {
  import opened Words
  import Shuffling

  datatype PlayState<T> = PlayState(
    tracks: seq<T>, k: Shuffling.Shuffler, index: nat, repeat: bool, shuffle: bool)

  /** The shuffler and the vector agree, and the current index is an `unsigned int`. */
  ghost predicate Valid<T>(pl: PlayState<T>) {
    Shuffling.Valid(pl.k) && pl.k.size == |pl.tracks| < INT_LIMIT && pl.index < U32
  }

  /** `ensure_positiv_index`: negative arguments count from the end, modulo 2^32. */
  function Resolve(size: nat, index: int): nat {
    ToU32(if index < 0 then size + index else index)
  }

  function RemoveAt<T>(s: seq<T>, p: nat): seq<T>
    requires p < |s|
  {
    s[..p] + s[p + 1..]
  }

  function Remove<T>(pl: PlayState<T>, index: int): PlayState<T>
    requires pl.k.size == |pl.tracks|
  {
    var p := Resolve(|pl.tracks|, index);
    if p < |pl.tracks| then pl.(tracks := RemoveAt(pl.tracks, p), k := Shuffling.Remove(pl.k, 1)) else pl
  }

  function Clear<T>(pl: PlayState<T>): PlayState<T>
    requires pl.k.size == |pl.tracks|
  {
    pl.(tracks := [], k := Shuffling.Remove(pl.k, pl.k.size), index := NONE)
  }

  function Append<T>(pl: PlayState<T>, track: T, vector: bool, alloc: bool): PlayState<T> {
    if vector && Shuffling.AddSucceeds(pl.k, 1, alloc)
    then pl.(tracks := pl.tracks + [track], k := Shuffling.Add(pl.k, 1, alloc))
    else pl
  }

  function SetIndex<T>(pl: PlayState<T>, index: int): PlayState<T> {
    pl.(index := Resolve(|pl.tracks|, index))
  }

  function Sort<T>(pl: PlayState<T>, sorted: seq<T>, alloc: bool): PlayState<T> {
    pl.(tracks := sorted, k := Shuffling.Reset(pl.k, alloc), index := NONE)
  }

  /** The outcomes a call of `playlist_next` may ask for: a random number and an allocation. */
  datatype Pick = Pick(r: nat, alloc: bool)

  predicate Finishes<T>(pl: PlayState<T>) {
    pl.k.rest == [] && !pl.repeat
  }

  predicate CanNext<T>(pl: PlayState<T>, p: Pick) {
    |pl.tracks| > 0 && pl.shuffle && !Finishes(pl) ==> p.r < |Shuffling.Pool(pl.k)|
  }

  /** The state after `playlist_next` and the index it returns. */
  function Next<T>(pl: PlayState<T>, p: Pick): (PlayState<T>, nat)
    requires CanNext(pl, p)
  {
    if |pl.tracks| == 0 then (pl, NONE)
    else if pl.shuffle then
      if Finishes(pl) then (pl.(k := Shuffling.Reset(pl.k, p.alloc)), NONE)
      else
        var i := Shuffling.Pool(pl.k)[p.r];
        (pl.(k := Shuffling.Draw(pl.k, p.r, p.alloc), index := i), i)
    else
      var i := ToU32(pl.index + 1);
      var i := if i < |pl.tracks| then i else if pl.repeat then 0 else NONE;
      (pl.(index := i), i)
  }

  // ---------------------------------------------------------------- single steps

  /** Every caller may rely on this: with a valid argument `Resolve` finds the same track whether it
      counts from the front or from the end, and anything else lands outside the vector. */
  lemma ResolveIs(size: nat, index: int)
    requires size < INT_LIMIT && IsInt(index)
    ensures 0 <= index < size ==> Resolve(size, index) == index
    ensures -(size as int) <= index < 0 ==> Resolve(size, index) == size + index < size
    ensures (index >= size || index < -(size as int)) ==> Resolve(size, index) >= size
    ensures ToInt(Resolve(size, index)) == if index < 0 then size + index else index
  {
    var i := if index < 0 then size + index else index;
    if i >= 0 {
      assert i % U32 == i;
    } else {
      assert i % U32 == i + U32;
    }
  }

  lemma NextIsValid<T>(pl: PlayState<T>, p: Pick)
    requires Valid(pl) && CanNext(pl, p)
    ensures Valid(Next(pl, p).0)
    ensures Next(pl, p).1 == NONE || Next(pl, p).1 < |pl.tracks|
  {
    if |pl.tracks| > 0 && pl.shuffle {
      Shuffling.ResetKeepsValid(pl.k, p.alloc);
      if !Finishes(pl) {
        Shuffling.DrawKeepsValid(pl.k, p.r, p.alloc);
      }
    }
  }

  /** What one call returns becomes the current index, except at the end of a shuffled cycle. */
  lemma NextSetsIndex<T>(pl: PlayState<T>, p: Pick)
    requires Valid(pl) && CanNext(pl, p)
    ensures var (e, i) := Next(pl, p);
            && e.tracks == pl.tracks && e.repeat == pl.repeat && e.shuffle == pl.shuffle
            && e.index == (if |pl.tracks| > 0 && (i != NONE || !pl.shuffle) then i else pl.index)
            && (|pl.tracks| == 0 ==> i == NONE && e == pl)
            && (!pl.shuffle ==> e.k == pl.k)
            && (|pl.tracks| > 0 && pl.shuffle ==>
                  if i == NONE then e.k == Shuffling.Reset(pl.k, p.alloc)
                  else i == Shuffling.Pool(pl.k)[p.r] && e.k == Shuffling.Draw(pl.k, p.r, p.alloc))
  {
    if |pl.tracks| > 0 && pl.shuffle && !Finishes(pl) {
      Shuffling.DrawKeepsValid(pl.k, p.r, p.alloc);
    }
  }

  /** A stale index, of a track that is not there any more, ends sequential playback, or starts it over
      with repeat. */
  lemma StaleNext<T>(pl: PlayState<T>, p: Pick)
    requires 0 < |pl.tracks| < INT_LIMIT && !pl.shuffle && |pl.tracks| <= pl.index < NONE && CanNext(pl, p)
    ensures Next(pl, p) == (pl.(index := if pl.repeat then 0 else NONE), if pl.repeat then 0 else NONE)
  {
    Increment(pl.index);
  }

  /** Removing a track does not move the current index: it still denotes the same track exactly if
      the removed one came after it.  (In particular it may point past the end.) */
  lemma StaleIndex<T>(pl: PlayState<T>, index: int)
    requires Valid(pl) && Distinct(pl.tracks) && pl.index < |pl.tracks|
    requires Resolve(|pl.tracks|, index) < |pl.tracks|
    ensures var e := Remove(pl, index);
            (e.index < |e.tracks| && e.tracks[e.index] == pl.tracks[pl.index])
              <==> pl.index < Resolve(|pl.tracks|, index)
  {
  }

  // ---------------------------------------------------------------- all runs

  datatype PlayOp<T> =
    | OpClear
    | OpAppend(track: T, vector: bool, shuffler: bool)
    | OpRemove(index: int)
    | OpSetIndex(index: int)
    | OpSetModes(repeat: bool, shuffle: bool)
    | OpSort(sorted: seq<T>, alloc: bool)
    | OpNext(pick: Pick)

  predicate Enabled<T>(pl: PlayState<T>, op: PlayOp<T>) {
    match op
    case OpAppend(_, _, _) => |pl.tracks| + 1 < INT_LIMIT
    case OpSort(sorted, _) => |sorted| == |pl.tracks|
    case OpNext(p) => CanNext(pl, p)
    case _ => true
  }

  function Step<T>(pl: PlayState<T>, op: PlayOp<T>): PlayState<T>
    requires pl.k.size == |pl.tracks| && Enabled(pl, op)
  {
    match op
    case OpClear => Clear(pl)
    case OpAppend(track, vector, shuffler) => Append(pl, track, vector, shuffler)
    case OpRemove(index) => Remove(pl, index)
    case OpSetIndex(index) => SetIndex(pl, index)
    case OpSetModes(repeat, shuffle) => pl.(repeat := repeat, shuffle := shuffle)
    case OpSort(sorted, alloc) => Sort(pl, sorted, alloc)
    case OpNext(p) => Next(pl, p).0
  }

  lemma StepKeepsValid<T>(pl: PlayState<T>, op: PlayOp<T>)
    requires Valid(pl) && Enabled(pl, op)
    ensures Valid(Step(pl, op))
  {
    match op
    case OpAppend(_, _, alloc) => Shuffling.AddKeepsValid(pl.k, 1, alloc);
    case OpSort(_, alloc) => Shuffling.ResetKeepsValid(pl.k, alloc);
    case OpNext(p) => NextIsValid(pl, p);
    case _ =>
  }

  ghost predicate Runs<T>(pl: PlayState<T>, ops: seq<PlayOp<T>>)
    requires Valid(pl)
    decreases |ops|
  {
    ops == [] || (Enabled(pl, ops[0]) && (StepKeepsValid(pl, ops[0]); Runs(Step(pl, ops[0]), ops[1..])))
  }

  ghost function Run<T>(pl: PlayState<T>, ops: seq<PlayOp<T>>): PlayState<T>
    requires Valid(pl) && Runs(pl, ops)
    decreases |ops|
  {
    if ops == [] then pl else StepKeepsValid(pl, ops[0]); Run(Step(pl, ops[0]), ops[1..])
  }

  function Empty<T>(): PlayState<T> {
    PlayState([], Shuffling.Fresh(0), NONE, false, false)
  }

  /** In every reachable state, failed allocations and stale indices included, the shuffler agrees
      with the vector and the next index is "none" or one of a track. */
  lemma {:induction false} ReachableStatesAgree<T>(pl: PlayState<T>, ops: seq<PlayOp<T>>, p: Pick)
    requires Valid(pl) && Runs(pl, ops) && CanNext(Run(pl, ops), p)
    ensures var e := Run(pl, ops);
            && Valid(e)
            && (Next(e, p).1 == NONE || Next(e, p).1 < |e.tracks|)
    decreases |ops|
  {
    if ops == [] {
      NextIsValid(pl, p);
    } else {
      StepKeepsValid(pl, ops[0]);
      ReachableStatesAgree(Step(pl, ops[0]), ops[1..], p);
    }
  }

  // ---------------------------------------------------------------- playback over whole runs

  ghost predicate Plays<T>(pl: PlayState<T>, ps: seq<Pick>)
    decreases |ps|
  {
    ps == [] || (CanNext(pl, ps[0]) && Plays(Next(pl, ps[0]).0, ps[1..]))
  }

  /** What repeated calls of `playlist_next` return. */
  ghost function Play<T>(pl: PlayState<T>, ps: seq<Pick>): (out: seq<nat>)
    requires Plays(pl, ps)
    ensures |out| == |ps|
    decreases |ps|
  {
    if ps == [] then [] else [Next(pl, ps[0]).1] + Play(Next(pl, ps[0]).0, ps[1..])
  }

  /** What call number `j` returns in sequential playback of `n` tracks. */
  function Sequential(n: nat, repeat: bool, j: nat): nat
    requires n > 0
  {
    if repeat then j % n else if j % (n + 1) == n then NONE else j % (n + 1)
  }

  lemma ModStep(j: nat, m: nat)
    requires m > 0
    ensures (j + 1) % m == if j % m + 1 == m then 0 else j % m + 1
  {
    var q, r := j / m, j % m;
    assert j + 1 == q * m + (r + 1);
    if r + 1 == m {
      assert j + 1 == (q + 1) * m;
      ModUnique(j + 1, m, q + 1, 0);
    } else {
      ModUnique(j + 1, m, q, r + 1);
    }
  }

  lemma ModUnique(x: nat, m: nat, q: nat, r: nat)
    requires m > 0 && x == q * m + r && r < m
    ensures x % m == r
  {
    var d := x / m - q;
    assert d * m == r - x % m by {
      assert x == (x / m) * m + x % m;
    }
  }

  lemma Increment(i: nat)
    requires i < U32
    ensures ToU32(i + 1) == if i == NONE then 0 else i + 1
  {
  }

  lemma SequentialSuccessor(n: nat, repeat: bool, j: nat)
    requires 0 < n < INT_LIMIT
    ensures j == 0 ==> Sequential(n, repeat, j) == 0
    ensures j > 0 ==> var i := Sequential(n, repeat, j - 1);
                      && (i < n || (i == NONE && !repeat))
                      && Sequential(n, repeat, j) ==
                         if i == NONE then 0 else if i + 1 < n then i + 1 else if repeat then 0 else NONE
  {
    if j > 0 {
      ModStep(j - 1, if repeat then n else n + 1);
    }
  }

  lemma SequentialStep<T>(pl: PlayState<T>, p: Pick, j: nat)
    requires 0 < |pl.tracks| < INT_LIMIT && !pl.shuffle && CanNext(pl, p)
    requires pl.index == if j == 0 then NONE else Sequential(|pl.tracks|, pl.repeat, j - 1)
    ensures var i := Sequential(|pl.tracks|, pl.repeat, j);
            Next(pl, p) == (pl.(index := i), i)
  {
    SequentialSuccessor(|pl.tracks|, pl.repeat, j);
    Increment(pl.index);
  }

  lemma {:induction false} SequentialFrom<T>(pl: PlayState<T>, ps: seq<Pick>, j: nat)
    requires 0 < |pl.tracks| < INT_LIMIT && !pl.shuffle && Plays(pl, ps)
    requires pl.index == if j == 0 then NONE else Sequential(|pl.tracks|, pl.repeat, j - 1)
    ensures forall i :: 0 <= i < |ps| ==> Play(pl, ps)[i] == Sequential(|pl.tracks|, pl.repeat, j + i)
    decreases |ps|
  {
    if ps != [] {
      var n := |pl.tracks|;
      SequentialStep(pl, ps[0], j);
      var e := Next(pl, ps[0]).0;
      SequentialFrom(e, ps[1..], j + 1);
      forall i | 0 <= i < |ps|
        ensures Play(pl, ps)[i] == Sequential(n, pl.repeat, j + i)
      {
        if i > 0 {
          assert Play(pl, ps)[i] == Play(e, ps[1..])[i - 1];
        }
      }
    }
  }

  lemma SequentialAtEnd(n: nat, repeat: bool)
    requires n > 0
    ensures Sequential(n, repeat, n) == if repeat then 0 else NONE
  {
    ModUnique(n, n, 1, 0);
    ModUnique(n, n + 1, 0, n);
  }

  lemma StaleFrom<T>(pl: PlayState<T>, ps: seq<Pick>)
    requires 0 < |pl.tracks| < INT_LIMIT && !pl.shuffle && Plays(pl, ps) && |pl.tracks| <= pl.index < NONE
    ensures forall i :: 0 <= i < |ps| ==> Play(pl, ps)[i] == Sequential(|pl.tracks|, pl.repeat, |pl.tracks| + i)
  {
    hide Sequential, Next;
    if ps != [] {
      var n := |pl.tracks|;
      StaleNext(pl, ps[0]);
      SequentialAtEnd(n, pl.repeat);
      var e := Next(pl, ps[0]).0;
      SequentialFrom(e, ps[1..], n + 1);
      var later := Play(e, ps[1..]);
      assert Play(pl, ps) == [Sequential(n, pl.repeat, n)] + later;
      hide Play, Plays;
      forall i | 0 <= i < |ps|
        ensures Play(pl, ps)[i] == Sequential(n, pl.repeat, n + i)
      {
        if i > 0 {
          assert Play(pl, ps)[i] == later[i - 1];
        }
      }
    }
  }

  /** Where sequential playback of `n` tracks goes on: behind the current track, at the start if there is
      none, and at the end of the list if the index is stale. */
  function Start(index: nat, n: nat): nat {
    if index == NONE then 0 else if index < n then index + 1 else n
  }

  /** Sequential playback from any current index, stale ones included: with repeat, call `j` returns
      `j mod n`, counted from where playback stands; without it the answers go through `0 .. n-1` and
      "none", over and over. */
  lemma SequentialPlayback<T>(pl: PlayState<T>, ps: seq<Pick>)
    requires Valid(pl) && |pl.tracks| > 0 && !pl.shuffle && Plays(pl, ps)
    ensures var n, start := |pl.tracks|, Start(pl.index, |pl.tracks|);
            forall j :: 0 <= j < |ps| ==>
              Play(pl, ps)[j] ==
              if pl.repeat then (start + j) % n
              else if (start + j) % (n + 1) == n then NONE else (start + j) % (n + 1)
  {
    hide Play, Plays, Shuffling.Valid;
    var n, start := |pl.tracks|, Start(pl.index, |pl.tracks|);
    if pl.index == NONE {
      SequentialFrom(pl, ps, 0);
    } else if pl.index < n {
      ModUnique(start - 1, n, 0, pl.index);
      ModUnique(start - 1, n + 1, 0, pl.index);
      SequentialFrom(pl, ps, start);
    } else {
      StaleFrom(pl, ps);
    }
  }

  /** `out` is a run of shuffled playback of `n` tracks that starts with `pool` left in the cycle:
      a permutation of the pool, then (without repeat) one "none", then permutations of all tracks
      in the same way; the last block may be incomplete. */
  ghost predicate Blocks(out: seq<nat>, pool: seq<nat>, n: nat, repeat: bool)
    decreases |out|
  {
    if |out| <= |pool| then multiset(out) <= multiset(pool)
    else
      && multiset(out[..|pool|]) == multiset(pool)
      && if repeat then |pool| > 0 && Blocks(out[|pool|..], Shuffling.Ident(n), n, true)
         else out[|pool|] == NONE && Blocks(out[|pool| + 1..], Shuffling.Ident(n), n, false)
  }

  /** The pool of the following call: with repeat, an exhausted cycle starts over. */
  function TakeOutOf(pool: seq<nat>, r: nat, n: nat, repeat: bool): seq<nat>
    requires r < |pool|
  {
    var t := Shuffling.TakeOut(pool, r);
    if repeat && t == [] then Shuffling.Ident(n) else t
  }

  /** One answer more, and still within the pool ... */
  lemma PrependWithin(out: seq<nat>, pool: seq<nat>, r: nat)
    requires r < |pool| && multiset(out) <= multiset(Shuffling.TakeOut(pool, r))
    ensures multiset([pool[r]] + out) <= multiset(pool)
  {
    Shuffling.TakeOutKeeps(pool, r);
    assert multiset([pool[r]] + out) == multiset{pool[r]} + multiset(out);
  }

  /** ... or beyond it. */
  lemma PrependBeyond(out: seq<nat>, pool: seq<nat>, r: nat)
    requires r < |pool| <= |out|
    requires multiset(out[..|pool| - 1]) == multiset(Shuffling.TakeOut(pool, r))
    ensures var all := [pool[r]] + out;
            && multiset(all[..|pool|]) == multiset(pool)
            && all[|pool|..] == out[|pool| - 1..] && all[|pool|] == out[|pool| - 1]
            && all[|pool| + 1..] == out[|pool|..]
  {
    Shuffling.TakeOutKeeps(pool, r);
    assert ([pool[r]] + out)[..|pool|] == [pool[r]] + out[..|pool| - 1];
  }

  /** The last answer of a cycle that is repeated. */
  lemma PrependLast(out: seq<nat>, v: nat, n: nat)
    requires Blocks(out, Shuffling.Ident(n), n, true)
    ensures Blocks([v] + out, [v], n, true)
  {
    if out != [] {
      assert ([v] + out)[..1] == [v] && ([v] + out)[1..] == out;
    }
  }

  lemma BlocksPrepend(out: seq<nat>, pool: seq<nat>, r: nat, n: nat, repeat: bool)
    requires r < |pool| && |pool| <= n && Blocks(out, TakeOutOf(pool, r, n, repeat), n, repeat)
    ensures Blocks([pool[r]] + out, pool, n, repeat)
  {
    hide Shuffling.TakeOut;
    if |pool| == 1 && repeat {
      assert Shuffling.TakeOut(pool, r) == [] && pool == [pool[r]];
      PrependLast(out, pool[r], n);
    } else if |out| < |pool| {
      PrependWithin(out, pool, r);
    } else {
      PrependBeyond(out, pool, r);
    }
  }

  function PoolOf<T>(pl: PlayState<T>): seq<nat> {
    if pl.repeat then Shuffling.Pool(pl.k) else pl.k.rest
  }

  /** Shuffled playback, from any point of a cycle and for any number of calls: the answers come in
      blocks that are permutations, separated by one "none" each unless repeat is on. */
  lemma {:induction false} ShuffledPlayback<T>(pl: PlayState<T>, ps: seq<Pick>)
    requires Valid(pl) && |pl.tracks| > 0 && pl.shuffle && Plays(pl, ps)
    ensures Blocks(Play(pl, ps), PoolOf(pl), |pl.tracks|, pl.repeat)
    decreases |ps|
  {
    if ps != [] {
      var n := |pl.tracks|;
      var (e, v) := Next(pl, ps[0]);
      NextIsValid(pl, ps[0]);
      ShuffledPlayback(e, ps[1..]);
      var out := Play(e, ps[1..]);
      if Finishes(pl) {
        assert Play(pl, ps) == [NONE] + out;
        assert ([NONE] + out)[1..] == out && ([NONE] + out)[..0] == [];
      } else {
        assert Play(pl, ps) == [Shuffling.Pool(pl.k)[ps[0].r]] + out;
        BlocksPrepend(out, Shuffling.Pool(pl.k), ps[0].r, n, pl.repeat);
      }
    }
  }

  // ---------------------------------------------------------------- starting over

  /** No current track, and a cycle with all tracks in order. */
  ghost predicate AtStart<T>(pl: PlayState<T>) {
    pl.index == NONE && pl.k.rest == Shuffling.Ident(|pl.tracks|)
  }

  /** A new playlist, a cleared and a sorted one are at the start; clearing and sorting keep the modes. */
  lemma StartsOver<T>(pl: PlayState<T>, sorted: seq<T>, alloc: bool)
    requires Valid(pl) && |sorted| == |pl.tracks|
    ensures AtStart(Empty<T>()) && Empty<T>().tracks == [] && !Empty<T>().repeat && !Empty<T>().shuffle
    ensures AtStart(Clear(pl)) && Clear(pl).tracks == []
    ensures Clear(pl).repeat == pl.repeat && Clear(pl).shuffle == pl.shuffle
    ensures AtStart(Sort(pl, sorted, alloc)) && Sort(pl, sorted, alloc).tracks == sorted
    ensures Sort(pl, sorted, alloc).k == Shuffling.Reset(pl.k, alloc)
    ensures Sort(pl, sorted, alloc).repeat == pl.repeat && Sort(pl, sorted, alloc).shuffle == pl.shuffle
  {
    if pl.tracks == [] {
      assert pl.k.rest == [];
    }
  }

  /** Additions, and changes of the modes. */
  ghost predicate Fills<T>(ops: seq<PlayOp<T>>) {
    forall op :: op in ops ==> op.OpAppend? || op.OpSetModes?
  }

  lemma {:induction false} FillingKeepsStart<T>(pl: PlayState<T>, ops: seq<PlayOp<T>>)
    requires Valid(pl) && Runs(pl, ops) && Fills(ops) && AtStart(pl)
    ensures Valid(Run(pl, ops)) && AtStart(Run(pl, ops))
    decreases |ops|
  {
    if ops != [] {
      var e := Step(pl, ops[0]);
      StepKeepsValid(pl, ops[0]);
      StepKeepsStart(pl, ops[0]);
      FillingKeepsStart(e, ops[1..]);
    }
  }

  lemma StepKeepsStart<T>(pl: PlayState<T>, op: PlayOp<T>)
    requires Valid(pl) && Enabled(pl, op) && AtStart(pl) && (op.OpAppend? || op.OpSetModes?)
    ensures AtStart(Step(pl, op))
  {
    var n := |pl.tracks|;
    assert Shuffling.Ident(n) + Shuffling.Block(n, 1) == Shuffling.Ident(n + 1);
  }

  lemma ShuffledFromStart<T>(pl: PlayState<T>, ps: seq<Pick>)
    requires Valid(pl) && AtStart(pl) && pl.tracks != [] && pl.shuffle && Plays(pl, ps)
    ensures Blocks(Play(pl, ps), Shuffling.Ident(|pl.tracks|), |pl.tracks|, pl.repeat)
  {
    hide Play, Plays, Blocks;
    ShuffledPlayback(pl, ps);
  }

  lemma SequentialFromStart<T>(pl: PlayState<T>, ps: seq<Pick>)
    requires Valid(pl) && AtStart(pl) && pl.tracks != [] && !pl.shuffle && Plays(pl, ps)
    ensures forall j :: 0 <= j < |ps| && j < |pl.tracks| ==> Play(pl, ps)[j] == j
  {
    hide Play, Plays, Shuffling.Valid;
    SequentialPlayback(pl, ps);
    forall j | 0 <= j < |ps| && j < |pl.tracks|
      ensures Play(pl, ps)[j] == j
    {
      ModUnique(j, |pl.tracks|, 0, j);
      ModUnique(j, |pl.tracks| + 1, 0, j);
    }
  }

  /** After starting over and filling the playlist, sequential playback begins with the first track, and
      shuffled playback with a permutation of all of them. */
  lemma PlaybackFromStart<T>(pl: PlayState<T>, ops: seq<PlayOp<T>>, ps: seq<Pick>)
    requires Valid(pl) && Runs(pl, ops) && Fills(ops) && AtStart(pl)
    requires Run(pl, ops).tracks != [] && Plays(Run(pl, ops), ps)
    ensures var e := Run(pl, ops);
            if e.shuffle then Blocks(Play(e, ps), Shuffling.Ident(|e.tracks|), |e.tracks|, e.repeat)
            else forall j :: 0 <= j < |ps| && j < |e.tracks| ==> Play(e, ps)[j] == j
  {
    var e := Run(pl, ops);
    FillingKeepsStart(pl, ops);
    hide Run, Runs, Play, Plays, Blocks, AtStart, Valid;
    if e.shuffle {
      ShuffledFromStart(e, ps);
    } else {
      SequentialFromStart(e, ps);
    }
  }
}
