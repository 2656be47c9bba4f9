/** What the removal of tracks leaves of a shuffled cycle.

    Removal renumbers the residue to `0, 1, ...` and shifts the tracks behind the removed ones.  So the
    rest of the cycle may bring tracks again that were drawn before, and skip others. */
module Cycles {
  import opened Words
  import opened PlaylistModel
  import opened BatchRemoval
  import Shuffling

  /** What is left of the cycle in state `e` brings none of the tracks that state `pl` had at the
      positions `drawn`. */
  ghost predicate Avoids<T>(e: PlayState<T>, pl: PlayState<T>, drawn: seq<nat>)
    requires forall d :: d in drawn ==> d < |pl.tracks|
  {
    forall v, d :: v in e.k.rest && d in drawn ==> v < |e.tracks| && e.tracks[v] != pl.tracks[d]
  }

  /** It brings the track `x`. */
  ghost predicate Brings<T>(e: PlayState<T>, x: T) {
    exists v :: v in e.k.rest && v < |e.tracks| && e.tracks[v] == x
  }

  /** It brings every track that state `pl` had at a position neither drawn nor in `gone`. */
  ghost predicate Covers<T>(e: PlayState<T>, pl: PlayState<T>, drawn: seq<nat>, gone: set<int>) {
    forall d :: 0 <= d < |pl.tracks| && d !in drawn && d !in gone ==> Brings(e, pl.tracks[d])
  }

  // ---------------------------------------------------------------- where positions end up

  /** The number of positions below `n` that stay: where position `n` ends up, if it stays. */
  ghost function Kept(drop: set<int>, n: nat): (k: nat)
    ensures k <= n
  {
    if n == 0 then 0 else Kept(drop, n - 1) + if n - 1 in drop then 0 else 1
  }

  lemma {:induction false} KeptLength<T>(s: seq<T>, drop: set<int>)
    ensures |Without(s, drop)| == Kept(drop, |s|)
  {
    if s != [] {
      KeptLength(s[..|s| - 1], drop);
    }
  }

  lemma {:induction false} KeptAt<T>(s: seq<T>, drop: set<int>, d: nat)
    requires d < |s| && d !in drop
    ensures Kept(drop, d) < |Without(s, drop)| && Without(s, drop)[Kept(drop, d)] == s[d]
  {
    var e := |s| - 1;
    if d == e {
      KeptLength(s[..e], drop);
    } else {
      KeptAt(s[..e], drop, d);
    }
  }

  /** Every position of what stays is where some position ended up. */
  lemma {:induction false} KeptFrom(drop: set<int>, n: nat, v: nat) returns (d: nat)
    requires v < Kept(drop, n)
    ensures d < n && d !in drop && Kept(drop, d) == v
  {
    if v < Kept(drop, n - 1) {
      d := KeptFrom(drop, n - 1, v);
    } else {
      d := n - 1;
    }
  }

  lemma {:induction false} KeptAll(drop: set<int>, n: nat)
    ensures Kept(drop, n) == n <==> forall p :: 0 <= p < n ==> p !in drop
  {
    if n > 0 {
      KeptAll(drop, n - 1);
    }
  }

  lemma {:induction false} KeptGrows(drop: set<int>, d: nat, n: nat)
    requires d < n && d !in drop
    ensures Kept(drop, d) < Kept(drop, n)
  {
    if d < n - 1 {
      KeptGrows(drop, d, n - 1);
    }
  }

  lemma KeptApart(drop: set<int>, c: nat, d: nat)
    requires c !in drop && d !in drop && c != d
    ensures Kept(drop, c) != Kept(drop, d)
  {
    if c < d {
      KeptGrows(drop, c, d);
    } else {
      KeptGrows(drop, d, c);
    }
  }

  /** Where the positions in `s` that stay end up. */
  ghost function Moved(drop: set<int>, s: seq<nat>): (t: seq<nat>) {
    if s == [] then []
    else
      var e := |s| - 1;
      Moved(drop, s[..e]) + if s[e] in drop then [] else [Kept(drop, s[e])]
  }

  lemma {:induction false} InMoved(drop: set<int>, s: seq<nat>, v: nat)
    requires v in s && v !in drop
    ensures Kept(drop, v) in Moved(drop, s)
  {
    var e := |s| - 1;
    if s[e] != v {
      assert s == s[..e] + [s[e]];
      InMoved(drop, s[..e], v);
    }
  }

  lemma {:induction false} MovedFrom(drop: set<int>, s: seq<nat>, x: nat) returns (v: nat)
    requires x in Moved(drop, s)
    ensures v in s && v !in drop && Kept(drop, v) == x
  {
    var e := |s| - 1;
    if x in Moved(drop, s[..e]) {
      v := MovedFrom(drop, s[..e], x);
    } else {
      v := s[e];
    }
  }

  lemma {:induction false} MovedDistinct(drop: set<int>, s: seq<nat>)
    requires Distinct(s)
    ensures Distinct(Moved(drop, s))
  {
    if s != [] {
      var e := |s| - 1;
      var t := Moved(drop, s[..e]);
      MovedDistinct(drop, s[..e]);
      if s[e] !in drop && Kept(drop, s[e]) in t {
        var v := MovedFrom(drop, s[..e], Kept(drop, s[e]));
        KeptApart(drop, v, s[e]);
      }
    }
  }

  /** The positions of `s` that are dropped. */
  ghost function Hit(drop: set<int>, s: seq<nat>): set<int> {
    set p | p in drop && p in s
  }

  lemma {:induction false} MovedLength(drop: set<int>, s: seq<nat>)
    requires Distinct(s)
    ensures |Moved(drop, s)| == |s| - |Hit(drop, s)|
  {
    if s == [] {
      assert Hit(drop, s) == {};
    } else {
      var e := |s| - 1;
      MovedLength(drop, s[..e]);
      assert s == s[..e] + [s[e]];
      assert s[e] !in s[..e];
      if s[e] in drop {
        assert Hit(drop, s) == Hit(drop, s[..e]) + {s[e] as int};
      } else {
        assert Hit(drop, s) == Hit(drop, s[..e]);
      }
    }
  }

  // ---------------------------------------------------------------- any removal

  /** State `e` is `pl` without the tracks at the positions `drop`, its residue renumbered. */
  ghost predicate Renumbered<T>(pl: PlayState<T>, e: PlayState<T>, drop: set<int>) {
    && drop != {} && drop <= Positions(|pl.tracks|)
    && Outcome(pl, e, drop)
  }

  /** How long the residue is afterwards. */
  ghost function Length<T>(pl: PlayState<T>, drop: set<int>): nat {
    Shuffling.Minus(|pl.k.rest|, |drop|)
  }

  lemma RestIs<T>(pl: PlayState<T>, e: PlayState<T>, drop: set<int>)
    requires Valid(pl) && Renumbered(pl, e, drop)
    ensures e.k.rest == Shuffling.Ident(Length(pl, drop))
    ensures Length(pl, drop) <= |e.tracks| == Kept(drop, |pl.tracks|)
  {
    WithoutLength(pl.tracks, drop);
    KeptLength(pl.tracks, drop);
  }

  /** What is left is a playlist like the one before, so another removal may follow. */
  lemma RenumberedKeeps<T>(pl: PlayState<T>, e: PlayState<T>, drop: set<int>)
    requires Valid(pl) && Distinct(pl.tracks) && Renumbered(pl, e, drop)
    ensures Valid(e) && Distinct(e.tracks)
  {
    WithoutLength(pl.tracks, drop);
    WithoutDistinct(pl.tracks, drop);
    RestIs(pl, e, drop);
  }

  /** The current index does not move.  It still denotes its track if and only if every removed track
      came after it. */
  lemma IndexSurvives<T>(pl: PlayState<T>, e: PlayState<T>, drop: set<int>)
    requires Distinct(pl.tracks) && pl.index < |pl.tracks|
    requires drop <= Positions(|pl.tracks|) && Outcome(pl, e, drop)
    ensures (e.index < |e.tracks| && e.tracks[e.index] == pl.tracks[pl.index]) <==>
            forall p :: p in drop ==> p > pl.index
  {
    hide Without, Kept;
    var i := pl.index;
    PositionsAre(|pl.tracks|);
    KeptLength(pl.tracks, drop);
    KeptAll(drop, i);
    if forall p :: p in drop ==> p > i {
      KeptAt(pl.tracks, drop, i);
    } else if e.index < |e.tracks| && e.tracks[e.index] == pl.tracks[i] {
      var from := KeptFrom(drop, |pl.tracks|, i);
      KeptAt(pl.tracks, drop, from);
    }
  }

  /** A track that stays is still to come exactly if its new position is below the residue. */
  lemma BringsExactly<T>(pl: PlayState<T>, e: PlayState<T>, drop: set<int>, d: nat)
    requires Valid(pl) && Distinct(pl.tracks) && Renumbered(pl, e, drop) && d < |pl.tracks| && d !in drop
    ensures Brings(e, pl.tracks[d]) <==> Kept(drop, d) < Length(pl, drop)
  {
    hide Kept, Without, Length, Valid;
    RestIs(pl, e, drop);
    KeptAt(pl.tracks, drop, d);
    Shuffling.InIdent(Length(pl, drop), Kept(drop, d));
    if Brings(e, pl.tracks[d]) {
      var v :| v in e.k.rest && v < |e.tracks| && e.tracks[v] == pl.tracks[d];
      Shuffling.InIdent(Length(pl, drop), v);
      var from := KeptFrom(drop, |pl.tracks|, v);
      KeptAt(pl.tracks, drop, from);
    }
  }

  /** A removed track does not come. */
  lemma BringsNoneRemoved<T>(pl: PlayState<T>, e: PlayState<T>, drop: set<int>, d: nat)
    requires Valid(pl) && Distinct(pl.tracks) && Renumbered(pl, e, drop) && d < |pl.tracks| && d in drop
    ensures !Brings(e, pl.tracks[d])
  {
    RestIs(pl, e, drop);
    if Brings(e, pl.tracks[d]) {
      var v :| v in e.k.rest && v < |e.tracks| && e.tracks[v] == pl.tracks[d];
      var from := KeptFrom(drop, |pl.tracks|, v);
      KeptAt(pl.tracks, drop, from);
    }
  }

  lemma AvoidsIsBringsNone<T>(pl: PlayState<T>, e: PlayState<T>, drawn: seq<nat>)
    requires (forall d :: d in drawn ==> d < |pl.tracks|) && forall v :: v in e.k.rest ==> v < |e.tracks|
    ensures Avoids(e, pl, drawn) <==> forall d :: d in drawn ==> !Brings(e, pl.tracks[d])
  {
  }

  /** The rest of the cycle repeats nothing if and only if each drawn track that stays ends up at or
      above the shortened residue, ... */
  lemma AvoidsExactly<T>(pl: PlayState<T>, e: PlayState<T>, drop: set<int>, drawn: seq<nat>)
    requires Valid(pl) && Distinct(pl.tracks) && Renumbered(pl, e, drop)
    requires forall d :: d in drawn ==> d < |pl.tracks|
    ensures Avoids(e, pl, drawn) <==> forall d :: d in drawn && d !in drop ==> Kept(drop, d) >= Length(pl, drop)
  {
    RestIs(pl, e, drop);
    AvoidsIsBringsNone(pl, e, drawn);
    forall d | d in drawn
      ensures Brings(e, pl.tracks[d]) <==> d !in drop && Kept(drop, d) < Length(pl, drop)
    {
      if d in drop {
        BringsNoneRemoved(pl, e, drop, d);
      } else {
        BringsExactly(pl, e, drop, d);
      }
    }
  }

  /** ... and skips nothing if and only if each track not drawn that stays ends up below it. */
  lemma CoversExactly<T>(pl: PlayState<T>, e: PlayState<T>, drop: set<int>, drawn: seq<nat>)
    requires Valid(pl) && Distinct(pl.tracks) && Renumbered(pl, e, drop)
    ensures Covers(e, pl, drawn, drop) <==>
            forall d: nat :: d < |pl.tracks| && d !in drawn && d !in drop ==> Kept(drop, d) < Length(pl, drop)
  {
    forall d: nat | d < |pl.tracks| && d !in drop
      ensures Brings(e, pl.tracks[d]) <==> Kept(drop, d) < Length(pl, drop)
    {
      BringsExactly(pl, e, drop, d);
    }
  }

  /** When too many positions are left, one of them ends up above the residue. */
  lemma SomeLeftOut(drop: set<int>, rest: seq<nat>, m: nat)
    requires Distinct(rest) && m < |Moved(drop, rest)|
    ensures exists v :: v in rest && v !in drop && Kept(drop, v) >= m
  {
    var t := Moved(drop, rest);
    MovedDistinct(drop, rest);
    if forall x :: x in t ==> x < m {
      forall x | x in t
        ensures x in Shuffling.Ident(m)
      {
        Shuffling.InIdent(m, x);
      }
      Pigeonhole(t, Shuffling.Ident(m));
    } else {
      var x :| x in t && x >= m;
      var v := MovedFrom(drop, rest, x);
    }
  }

  lemma SomeHitMissing(drop: set<int>, rest: seq<nat>, p: int)
    requires p in drop && p !in rest
    ensures |Hit(drop, rest)| < |drop|
  {
    var hit := Hit(drop, rest);
    assert drop == hit + (drop - hit) && p in drop - hit;
  }

  /** If a track that was drawn already is removed, one that was not is skipped, if there is one left. */
  lemma SkipsSome<T>(pl: PlayState<T>, e: PlayState<T>, drop: set<int>, drawn: seq<nat>, p: nat, left: nat)
    requires Valid(pl) && Distinct(pl.tracks) && Renumbered(pl, e, drop)
    requires forall v :: v in pl.k.rest ==> v !in drawn
    requires p in drop && p in drawn && left in pl.k.rest && left !in drop
    ensures !Covers(e, pl, drawn, drop)
  {
    SomeHitMissing(drop, pl.k.rest, p);
    MovedLength(drop, pl.k.rest);
    InMoved(drop, pl.k.rest, left);
    SomeLeftOut(drop, pl.k.rest, Length(pl, drop));
    CoversExactly(pl, e, drop, drawn);
  }

  // ---------------------------------------------------------------- a removal from a whole cycle

  lemma CoversIsBelow<T>(pl: PlayState<T>, e: PlayState<T>, drop: set<int>, drawn: seq<nat>)
    requires Valid(pl) && Distinct(pl.tracks) && Renumbered(pl, e, drop) && Shuffling.Splits(pl.k, drawn)
    ensures Covers(e, pl, drawn, drop) <==>
            forall x :: x in Moved(drop, pl.k.rest) ==> x in Shuffling.Ident(Length(pl, drop))
  {
    var m, t := Length(pl, drop), Moved(drop, pl.k.rest);
    CoversExactly(pl, e, drop, drawn);
    if Covers(e, pl, drawn, drop) {
      forall x | x in t
        ensures x in Shuffling.Ident(m)
      {
        var v := MovedFrom(drop, pl.k.rest, x);
        Shuffling.InIdent(m, x);
      }
    } else {
      var d: nat :| d < |pl.tracks| && d !in drawn && d !in drop && Kept(drop, d) >= m;
      InMoved(drop, pl.k.rest, d);
      Shuffling.InIdent(m, Kept(drop, d));
    }
  }

  lemma AvoidsIsAllMoved<T>(pl: PlayState<T>, e: PlayState<T>, drop: set<int>, drawn: seq<nat>)
    requires Valid(pl) && Distinct(pl.tracks) && Renumbered(pl, e, drop) && Shuffling.Splits(pl.k, drawn)
    ensures Avoids(e, pl, drawn) <==>
            forall x :: x in Shuffling.Ident(Length(pl, drop)) ==> x in Moved(drop, pl.k.rest)
  {
    var m, t := Length(pl, drop), Moved(drop, pl.k.rest);
    RestIs(pl, e, drop);
    AvoidsExactly(pl, e, drop, drawn);
    if Avoids(e, pl, drawn) {
      forall x | x in Shuffling.Ident(m)
        ensures x in t
      {
        Shuffling.InIdent(m, x);
        var d := KeptFrom(drop, |pl.tracks|, x);
        InMoved(drop, pl.k.rest, d);
      }
    } else {
      var d :| d in drawn && d !in drop && Kept(drop, d) < m;
      Shuffling.InIdent(m, Kept(drop, d));
      if Kept(drop, d) in t {
        var v := MovedFrom(drop, pl.k.rest, Kept(drop, d));
        KeptApart(drop, v, d);
      }
    }
  }

  lemma MovedIsLong(drop: set<int>, rest: seq<nat>)
    requires Distinct(rest)
    ensures |Moved(drop, rest)| >= Shuffling.Minus(|rest|, |drop|)
    ensures (forall p :: p in drop ==> p in rest) ==> |Moved(drop, rest)| == Shuffling.Minus(|rest|, |drop|)
  {
    var hit := Hit(drop, rest);
    MovedLength(drop, rest);
    assert drop == hit + (drop - hit);
    assert (forall p :: p in drop ==> p in rest) ==> hit == drop;
  }

  lemma {:induction false} NothingMoved(drop: set<int>, s: seq<nat>)
    ensures (forall v :: v in s ==> v in drop) ==> Moved(drop, s) == []
  {
    if s != [] {
      NothingMoved(drop, s[..|s| - 1]);
    }
  }

  /** Removals from a cycle whose drawn and remaining positions partition the tracks.  What is left
      brings every track not drawn, and then it repeats none, if and only if there is no such track, or
      only tracks not drawn were removed and nothing is repeated. */
  lemma CycleSurvives<T>(pl: PlayState<T>, e: PlayState<T>, drop: set<int>, drawn: seq<nat>)
    requires Valid(pl) && Distinct(pl.tracks) && Renumbered(pl, e, drop) && Shuffling.Splits(pl.k, drawn)
    ensures Covers(e, pl, drawn, drop) ==> Avoids(e, pl, drawn)
    ensures Covers(e, pl, drawn, drop) <==>
            || (forall v :: v in pl.k.rest ==> v in drop)
            || (Avoids(e, pl, drawn) && forall p :: p in drop ==> p !in drawn)
  {
    var m, t := Length(pl, drop), Moved(drop, pl.k.rest);
    CoversIsBelow(pl, e, drop, drawn);
    AvoidsIsAllMoved(pl, e, drop, drawn);
    MovedIsLong(drop, pl.k.rest);
    MovedDistinct(drop, pl.k.rest);
    if Covers(e, pl, drawn, drop) {
      Pigeonhole(t, Shuffling.Ident(m));
      Exhausts(t, Shuffling.Ident(m));
      forall left, p | left in pl.k.rest && left !in drop && p in drop
        ensures p !in drawn
      {
        if p in drawn {
          SkipsSome(pl, e, drop, drawn, p, left);
        }
      }
    } else if Avoids(e, pl, drawn) && forall p :: p in drop ==> p !in drawn {
      PositionsAre(|pl.tracks|);
      Exhausts(Shuffling.Ident(m), t);
    } else {
      NothingMoved(drop, pl.k.rest);
    }
  }

  /** If nothing is skipped, the cycle is whole again: the new positions of the drawn tracks and what is
      left partition the tracks.  So `CycleSurvives` applies to the next removal, too. */
  lemma CycleIsWhole<T>(pl: PlayState<T>, e: PlayState<T>, drop: set<int>, drawn: seq<nat>)
    requires Valid(pl) && Distinct(pl.tracks) && Renumbered(pl, e, drop) && Shuffling.Splits(pl.k, drawn)
    ensures Shuffling.Splits(e.k, Moved(drop, drawn)) <==> Covers(e, pl, drawn, drop)
  {
    var m := Length(pl, drop);
    RenumberedKeeps(pl, e, drop);
    RestIs(pl, e, drop);
    CoversExactly(pl, e, drop, drawn);
    hide Renumbered, Covers, Distinct, Kept, Moved, Length;
    if Covers(e, pl, drawn, drop) {
      CycleSurvives(pl, e, drop, drawn);
      AvoidsExactly(pl, e, drop, drawn);
      hide Avoids;
      forall x: nat
        ensures x in Moved(drop, drawn) <==> x < e.k.size && x !in e.k.rest
      {
        Shuffling.InIdent(m, x);
        if x in Moved(drop, drawn) {
          var d := MovedFrom(drop, drawn, x);
          KeptGrows(drop, d, |pl.tracks|);
        } else if m <= x < e.k.size {
          var d := KeptFrom(drop, |pl.tracks|, x);
          if d in drawn {
            InMoved(drop, drawn, d);
          }
        }
      }
    } else {
      var d: nat :| d < |pl.tracks| && d !in drawn && d !in drop && Kept(drop, d) >= m;
      KeptGrows(drop, d, |pl.tracks|);
      Shuffling.InIdent(m, Kept(drop, d));
      if Kept(drop, d) in Moved(drop, drawn) {
        var c := MovedFrom(drop, drawn, Kept(drop, d));
        KeptApart(drop, c, d);
      }
    }
  }

  // ---------------------------------------------------------------- `playlist_remove`

  /** Where the removal of position `p` puts the track at position `d`. */
  function Shifted(p: nat, d: nat): nat
    requires d != p
  {
    if d < p then d else d - 1
  }

  lemma {:induction false} KeptOne(p: nat, d: nat)
    ensures Kept({p}, d) == if d <= p then d else d - 1
  {
    if d > 0 {
      KeptOne(p, d - 1);
    }
  }

  lemma RemoveIsRenumbered<T>(pl: PlayState<T>, index: int)
    requires Valid(pl) && Resolve(|pl.tracks|, index) < |pl.tracks|
    ensures Renumbered(pl, PlaylistModel.Remove(pl, index), {Resolve(|pl.tracks|, index)})
  {
    var p := Resolve(|pl.tracks|, index);
    PositionsAre(|pl.tracks|);
    DropHighest(pl.tracks, {p}, p);
    assert {p} - {p} == {};
    WithoutNone(RemoveAt(pl.tracks, p));
  }

  /** Removal in mid-cycle, with the tracks at the positions `drawn` drawn so far.  The rest of the cycle
      repeats none of them if and only if each one that is left lies, after the shift, at or above the
      shortened residue; it skips none of the others if and only if each of those lies below it. */
  lemma RemovalRepeats<T>(pl: PlayState<T>, index: int, drawn: seq<nat>)
    requires Valid(pl) && Distinct(pl.tracks) && forall d :: d in drawn ==> d < |pl.tracks|
    requires Resolve(|pl.tracks|, index) < |pl.tracks|
    ensures var p := Resolve(|pl.tracks|, index);
            var m := Shuffling.Minus(|pl.k.rest|, 1);
            var e := PlaylistModel.Remove(pl, index);
            && (Avoids(e, pl, drawn) <==> forall d :: d in drawn && d != p ==> Shifted(p, d) >= m)
            && (Covers(e, pl, drawn, {p}) <==>
                forall d: nat :: d < |pl.tracks| && d !in drawn && d != p ==> Shifted(p, d) < m)
  {
    hide Avoids, Covers, Renumbered, Resolve, Distinct;
    var p := Resolve(|pl.tracks|, index);
    var e := PlaylistModel.Remove(pl, index);
    RemoveIsRenumbered(pl, index);
    AvoidsExactly(pl, e, {p}, drawn);
    CoversExactly(pl, e, {p}, drawn);
    forall d: nat | d != p
      ensures Kept({p}, d) == Shifted(p, d)
    {
      KeptOne(p, d);
    }
  }

  /** Removing a track that was drawn already, such as the one that plays, skips one that was not, unless
      the cycle is finished. */
  lemma RemovingDrawnSkips<T>(pl: PlayState<T>, index: int, drawn: seq<nat>)
    requires Valid(pl) && Distinct(pl.tracks) && pl.k.rest != [] && forall v :: v in pl.k.rest ==> v !in drawn
    requires Resolve(|pl.tracks|, index) < |pl.tracks| && Resolve(|pl.tracks|, index) in drawn
    ensures !Covers(PlaylistModel.Remove(pl, index), pl, drawn, {Resolve(|pl.tracks|, index)})
  {
    var p := Resolve(|pl.tracks|, index);
    RemoveIsRenumbered(pl, index);
    assert pl.k.rest[0] in pl.k.rest;
    SkipsSome(pl, PlaylistModel.Remove(pl, index), {p}, drawn, p, pl.k.rest[0]);
  }

  /** Removal from a cycle whose drawn and remaining positions partition the tracks: the rest of it
      brings every other track not drawn, and then it repeats none, if and only if there is no such track,
      or the removed one was not drawn and every drawn one lies, after the shift, at or above the
      shortened residue. */
  lemma RemovalKeepsCycle<T>(pl: PlayState<T>, index: int, drawn: seq<nat>)
    requires Valid(pl) && Distinct(pl.tracks) && Shuffling.Splits(pl.k, drawn)
    requires Resolve(|pl.tracks|, index) < |pl.tracks|
    ensures var p := Resolve(|pl.tracks|, index);
            var e := PlaylistModel.Remove(pl, index);
            && (Covers(e, pl, drawn, {p}) ==> Avoids(e, pl, drawn))
            && (Covers(e, pl, drawn, {p}) <==>
                || (forall v :: v in pl.k.rest ==> v == p)
                || (p !in drawn && forall d :: d in drawn ==> Shifted(p, d) >= Shuffling.Minus(|pl.k.rest|, 1)))
            && (Covers(e, pl, drawn, {p}) <==> Shuffling.Splits(e.k, Moved({p}, drawn)))
  {
    var p := Resolve(|pl.tracks|, index);
    RemoveIsRenumbered(pl, index);
    CycleSurvives(pl, PlaylistModel.Remove(pl, index), {p}, drawn);
    CycleIsWhole(pl, PlaylistModel.Remove(pl, index), {p}, drawn);
    RemovalRepeats(pl, index, drawn);
  }

  /** Drawing with random number `r`, removing `index` and drawing with random number `s` gives the same
      track twice. */
  ghost predicate DrawnTwice<T>(pl: PlayState<T>, r: nat, index: int, s: nat)
    requires pl.k.size == |pl.tracks|
  {
    && CanNext(pl, Pick(r, true))
    && var (drawn, i) := Next(pl, Pick(r, true));
       var removed := PlaylistModel.Remove(drawn, index);
       && |removed.tracks| < |pl.tracks| && CanNext(removed, Pick(s, true))
       && var j := Next(removed, Pick(s, true)).1;
          i < |pl.tracks| && j < |removed.tracks| && removed.tracks[j] == pl.tracks[i]
  }

  function ThreeTracks(): PlayState<int> {
    PlayState([10, 20, 30], Shuffling.Fresh(3), NONE, false, true)
  }

  lemma ThreeTracksDrawn(r: nat)
    requires r < 3
    ensures CanNext(ThreeTracks(), Pick(r, true))
    ensures var e := Next(ThreeTracks(), Pick(r, true)).0;
            && Valid(e) && e.tracks == [10, 20, 30] && Distinct(e.tracks)
            && e.k.rest == if r == 0 then [2, 1] else if r == 1 then [0, 2] else [0, 1]
  {
    Shuffling.FreshIsSound(3);
    NextIsValid(ThreeTracks(), Pick(r, true));
  }

  /** Track 0 is drawn and the last one removed: track 0 comes again.  Track 1 is drawn and track 0
      removed: track 1, now at position 0, comes again. */
  lemma RemovalRepeatsExample()
    ensures DrawnTwice(ThreeTracks(), 0, -1, 0) && DrawnTwice(ThreeTracks(), 1, 0, 0)
    ensures !DrawnTwice(ThreeTracks(), 0, 0, 0)
  {
  }

  /** Track 0 is drawn and removed: the cycle ends without track 2.  Track 2 is drawn and track 0 removed:
      the rest of the cycle brings the one track left, and nothing else. */
  lemma RemovalSkipsExample()
    ensures CanNext(ThreeTracks(), Pick(0, true)) && CanNext(ThreeTracks(), Pick(2, true))
    ensures var drawn := Next(ThreeTracks(), Pick(0, true)).0;
            var e := PlaylistModel.Remove(drawn, 0);
            e.tracks == [20, 30] && e.k.rest == [0] && !Covers(e, drawn, [0], {0})
    ensures var drawn := Next(ThreeTracks(), Pick(2, true)).0;
            var e := PlaylistModel.Remove(drawn, 0);
            e.tracks == [20, 30] && Avoids(e, drawn, [2]) && Covers(e, drawn, [2], {0})
  {
    hide Next, ThreeTracks, Avoids, Covers, Distinct, Valid, CanNext, Shuffling.Fresh;
    ThreeTracksDrawn(0);
    ThreeTracksDrawn(2);
    RemovalRepeats(Next(ThreeTracks(), Pick(0, true)).0, 0, [0]);
    RemovalRepeats(Next(ThreeTracks(), Pick(2, true)).0, 0, [2]);
    assert Shifted(0, 2) == 1;
  }

  // ---------------------------------------------------------------- `playlist_remove_array`

  lemma RemoveArrayIsRenumbered<T>(pl: PlayState<T>, indices: seq<int>)
    requires Valid(pl) && Gone(|pl.tracks|, indices) != {}
    ensures Renumbered(pl, RemoveArray(pl, indices), Gone(|pl.tracks|, indices))
  {
    RemoveArrayOutcome(pl, indices);
  }

  /** The same for any batch that removes something, for the positions where the tracks that stay end up. */
  lemma BatchRemovalRepeats<T>(pl: PlayState<T>, indices: seq<int>, drawn: seq<nat>)
    requires Valid(pl) && Distinct(pl.tracks) && forall d :: d in drawn ==> d < |pl.tracks|
    requires Gone(|pl.tracks|, indices) != {}
    ensures var drop := Gone(|pl.tracks|, indices);
            var m := Shuffling.Minus(|pl.k.rest|, |drop|);
            var e := RemoveArray(pl, indices);
            && (Avoids(e, pl, drawn) <==> forall d :: d in drawn && d !in drop ==> Kept(drop, d) >= m)
            && (Covers(e, pl, drawn, drop) <==>
                forall d: nat :: d < |pl.tracks| && d !in drawn && d !in drop ==> Kept(drop, d) < m)
  {
    var drop := Gone(|pl.tracks|, indices);
    RemoveArrayIsRenumbered(pl, indices);
    hide Gone, RemoveArray;
    AvoidsExactly(pl, RemoveArray(pl, indices), drop, drawn);
    CoversExactly(pl, RemoveArray(pl, indices), drop, drawn);
  }

  /** Where nothing is removed, the cycle goes on. */
  lemma NothingRemoved<T>(pl: PlayState<T>, drawn: seq<nat>)
    requires Valid(pl) && Distinct(pl.tracks) && Shuffling.Splits(pl.k, drawn)
    ensures Covers(pl, pl, drawn, {}) && Avoids(pl, pl, drawn)
    ensures forall d :: d in drawn ==> d in Moved({}, drawn)
    ensures forall d :: d in Moved({}, drawn) ==> d in drawn
  {
    forall d: nat | d < |pl.tracks| && d !in drawn
      ensures Brings(pl, pl.tracks[d])
    {
      assert d in pl.k.rest;
    }
    forall d | d in drawn
      ensures d in Moved({}, drawn)
    {
      KeptAll({}, d);
      InMoved({}, drawn, d);
    }
    forall x | x in Moved({}, drawn)
      ensures x in drawn
    {
      var d := MovedFrom({}, drawn, x);
      KeptAll({}, d);
    }
  }

  /** Any batch removal from a cycle whose drawn and remaining positions partition the tracks. */
  lemma BatchRemovalKeepsCycle<T>(pl: PlayState<T>, indices: seq<int>, drawn: seq<nat>)
    requires Valid(pl) && Distinct(pl.tracks) && Shuffling.Splits(pl.k, drawn)
    ensures var drop := Gone(|pl.tracks|, indices);
            var e := RemoveArray(pl, indices);
            && (Covers(e, pl, drawn, drop) ==> Avoids(e, pl, drawn))
            && (Covers(e, pl, drawn, drop) <==>
                || (forall v :: v in pl.k.rest ==> v in drop)
                || (Avoids(e, pl, drawn) && forall p :: p in drop ==> p !in drawn))
            && (Covers(e, pl, drawn, drop) <==> Shuffling.Splits(e.k, Moved(drop, drawn)))
  {
    var drop := Gone(|pl.tracks|, indices);
    var e := RemoveArray(pl, indices);
    if drop == {} {
      RemoveArrayOutcome(pl, indices);
      WithoutNone(pl.tracks);
      assert e == pl;
      NothingRemoved(pl, drawn);
    } else {
      RemoveArrayIsRenumbered(pl, indices);
      hide Gone, RemoveArray;
      CycleSurvives(pl, e, drop, drawn);
      CycleIsWhole(pl, e, drop, drawn);
    }
  }

  /** After any batch removal the current index still denotes its track if and only if every removed one
      came after it. */
  lemma BatchStaleIndex<T>(pl: PlayState<T>, indices: seq<int>)
    requires Valid(pl) && Distinct(pl.tracks) && pl.index < |pl.tracks|
    ensures var e := RemoveArray(pl, indices);
            (e.index < |e.tracks| && e.tracks[e.index] == pl.tracks[pl.index]) <==>
            forall p :: p in Gone(|pl.tracks|, indices) ==> p > pl.index
  {
    RemoveArrayOutcome(pl, indices);
    hide Gone, RemoveArray;
    IndexSurvives(pl, RemoveArray(pl, indices), Gone(|pl.tracks|, indices));
  }
}
