/** Removing several tracks at once: what `playlist_remove_array` computes. */
module BatchRemoval {
  import opened Words
  import opened PlaylistModel
  import Shuffling

  // ---------------------------------------------------------------- the algorithm on values

  ghost predicate Descending(xs: seq<int>) {
    forall i, j :: 0 <= i < j < |xs| ==> xs[i] >= xs[j]
  }

  function Insert(x: int, xs: seq<int>): seq<int> {
    if xs == [] || x >= xs[0] then [x] + xs else [xs[0]] + Insert(x, xs[1..])
  }

  /** `qsort` with the descending comparator. */
  function SortDescending(xs: seq<int>): seq<int> {
    if xs == [] then [] else Insert(xs[0], SortDescending(xs[1..]))
  }

  /** The first loop: every index is made positive and stored back into an `int`. */
  function Normalise(size: nat, indices: seq<int>): seq<int> {
    seq(|indices|, i requires 0 <= i < |indices| => ToInt(Resolve(size, indices[i])))
  }

  /** The second loop: an entry equal to its predecessor is skipped; `playlist_remove` resolves each
      entry again, against the size at that moment. */
  function RemoveRest<T>(pl: PlayState<T>, prev: int, xs: seq<int>): PlayState<T>
    requires pl.k.size == |pl.tracks|
    decreases |xs|
  {
    if xs == [] then pl
    else RemoveRest(if xs[0] != prev then Remove(pl, xs[0]) else pl, xs[0], xs[1..])
  }

  function RemoveArray<T>(pl: PlayState<T>, indices: seq<int>): PlayState<T>
    requires pl.k.size == |pl.tracks|
  {
    if indices == [] || |pl.tracks| == 0 then pl
    else
      var xs := SortDescending(Normalise(|pl.tracks|, indices));
      SortIsPermutation(Normalise(|pl.tracks|, indices));
      RemoveRest(Remove(pl, xs[0]), xs[0], xs[1..])
  }

  /** The first loop of `playlist_remove_array`, on the caller's array. */
  method NormaliseInPlace(a: array<int>, size: nat)
    requires forall i :: 0 <= i < a.Length ==> IsInt(a[i])
    modifies a
    ensures a[..] == Normalise(size, old(a[..]))
  {
    var i := 0;
    while i < a.Length
      invariant i <= a.Length
      invariant forall j :: 0 <= j < i ==> a[j] == ToInt(Resolve(size, old(a[j])))
      invariant forall j :: i <= j < a.Length ==> a[j] == old(a[j])
    {
      a[i] := ToInt(Resolve(size, a[i]));
      i := i + 1;
    }
  }

  /** `qsort`, by its contract. */
  method QSort(a: array<int>)
    modifies a
    ensures a[..] == SortDescending(old(a[..]))
  {
    var s := SortDescending(a[..]);
    SortIsPermutation(a[..]);
    forall i | 0 <= i < a.Length {
      a[i] := s[i];
    }
  }

  // ---------------------------------------------------------------- its meaning

  /** `s` without the positions in `drop`. */
  ghost function Without<T>(s: seq<T>, drop: set<int>): seq<T> {
    if s == [] then []
    else
      var e := |s| - 1;
      Without(s[..e], drop) + (if e in drop then [] else [s[e]])
  }

  /** The positions the indices denote: `i`, or `size + i` when negative. */
  ghost function Denoted(size: nat, indices: seq<int>): set<int> {
    set p | 0 <= p < size && Denotes(indices, p, size)
  }

  ghost predicate Denotes(indices: seq<int>, p: int, size: nat) {
    p in indices || p - size in indices
  }

  lemma SameElements(s: seq<int>, t: seq<int>)
    requires multiset(s) == multiset(t)
    ensures forall x :: x in s <==> x in t
  {
    assert forall x :: x in s <==> x in multiset(s);
  }

  lemma DescendingCons(x: int, s: seq<int>)
    requires Descending(s) && forall y :: y in s ==> y <= x
    ensures Descending([x] + s)
  {
    var t := [x] + s;
    forall i, j | 0 <= i < j < |t|
      ensures t[i] >= t[j]
    {
      assert t[j] == s[j - 1] && s[j - 1] in s;
      if i > 0 {
        assert t[i] == s[i - 1];
      }
    }
  }

  lemma HeadIsHighest(xs: seq<int>)
    requires Descending(xs) && xs != []
    ensures forall y :: y in xs ==> y <= xs[0]
  {
  }

  lemma {:induction false} InsertKeeps(x: int, xs: seq<int>)
    requires Descending(xs)
    ensures multiset(Insert(x, xs)) == multiset([x] + xs)
    ensures Descending(Insert(x, xs))
  {
    if xs == [] {
    } else if x >= xs[0] {
      HeadIsHighest(xs);
      DescendingCons(x, xs);
    } else {
      var t := Insert(x, xs[1..]);
      InsertKeeps(x, xs[1..]);
      assert xs == [xs[0]] + xs[1..];
      SameElements(t, [x] + xs[1..]);
      HeadIsHighest(xs);
      DescendingCons(xs[0], t);
    }
  }

  lemma {:induction false} SortIsPermutation(xs: seq<int>)
    ensures Descending(SortDescending(xs)) && multiset(SortDescending(xs)) == multiset(xs)
    ensures |SortDescending(xs)| == |xs|
  {
    if xs != [] {
      var later := SortDescending(xs[1..]);
      SortIsPermutation(xs[1..]);
      InsertKeeps(xs[0], later);
      assert xs == [xs[0]] + xs[1..];
      assert multiset([xs[0]] + later) == multiset([xs[0]] + xs[1..]);
    }
    Shuffling.SameLength(SortDescending(xs), xs);
  }

  lemma {:induction false} WithoutSame<T>(s: seq<T>, d: set<int>, e: set<int>)
    requires forall p :: 0 <= p < |s| ==> (p in d <==> p in e)
    ensures Without(s, d) == Without(s, e)
  {
    if s != [] {
      WithoutSame(s[..|s| - 1], d, e);
    }
  }

  lemma {:induction false} WithoutDistinct<T>(s: seq<T>, drop: set<int>)
    requires Distinct(s)
    ensures Distinct(Without(s, drop)) && forall x :: x in Without(s, drop) ==> x in s
  {
    if s != [] {
      var e := |s| - 1;
      WithoutDistinct(s[..e], drop);
      assert s == s[..e] + [s[e]] && s[e] !in s[..e];
    }
  }

  /** Position `x` is `p`, or one that `later` names once `p` is gone. */
  ghost predicate Names(later: set<int>, x: int, p: nat) {
    x == p || (x < p && x in later) || (x > p && x - 1 in later)
  }

  ghost function Widened(n: nat, p: nat, later: set<int>): set<int> {
    set x | 0 <= x < n && Names(later, x, p)
  }

  /** Positions can be dropped one by one, ... */
  lemma {:induction false} WithoutWidened<T>(s: seq<T>, p: nat, later: set<int>)
    requires p < |s|
    ensures Without(s, Widened(|s|, p, later)) == Without(RemoveAt(s, p), later)
  {
    var e, t := |s| - 1, RemoveAt(s, p);
    var drop := Widened(|s|, p, later);
    if p == e {
      assert t == s[..e];
      WithoutSame(t, drop, later);
    } else {
      WithoutWidened(s[..e], p, later);
      WithoutSame(s[..e], drop, Widened(e, p, later));
      assert RemoveAt(s[..e], p) == t[..|t| - 1];
      assert t[|t| - 1] == s[e] && (e in drop <==> |t| - 1 in later);
    }
  }

  /** ... for instance the highest first. */
  lemma DropHighest<T>(s: seq<T>, d: set<int>, p: nat)
    requires p < |s| && p in d && forall q :: q in d ==> q <= p
    ensures Without(s, d) == Without(RemoveAt(s, p), d - {p})
  {
    var w := Widened(|s|, p, d - {p});
    WithoutWidened(s, p, d - {p});
    forall q | 0 <= q < |s|
      ensures q in d <==> q in w
    {
      assert q in w <==> Names(d - {p}, q, p);
      assert q > p ==> q !in d && q - 1 !in d - {p};
    }
    hide Without, Widened;
    WithoutSame(s, d, w);
  }

  lemma {:induction false} WithoutNone<T>(s: seq<T>)
    ensures Without(s, {}) == s
  {
    if s != [] {
      WithoutNone(s[..|s| - 1]);
    }
  }

  ghost function Positions(n: nat): set<int> {
    if n == 0 then {} else Positions(n - 1) + {n - 1}
  }

  lemma {:induction false} PositionsAre(n: nat)
    ensures forall p: int :: p in Positions(n) <==> 0 <= p < n
  {
    if n > 0 {
      PositionsAre(n - 1);
    }
  }

  lemma {:induction false} WithoutLength<T>(s: seq<T>, d: set<int>)
    requires d <= Positions(|s|)
    ensures |Without(s, d)| == |s| - |d|
  {
    if s != [] {
      var e := |s| - 1;
      WithoutSame(s[..e], d, d - {e});
      WithoutLength(s[..e], d - {e});
      assert e in d ==> d == (d - {e}) + {e};
      assert e !in d ==> d == d - {e};
    } else {
      assert d == {};
    }
  }

  lemma RemoveTwice(k: Shuffling.Shuffler, m: nat, n: nat)
    requires m + n <= k.size
    ensures Shuffling.Remove(Shuffling.Remove(k, m), n) == Shuffling.Remove(k, m + n)
  {
  }

  lemma {:induction false} RemoveRestShrinks<T>(pl: PlayState<T>, prev: int, xs: seq<int>)
    requires pl.k.size == |pl.tracks|
    ensures |RemoveRest(pl, prev, xs).tracks| <= |pl.tracks|
    decreases |xs|
  {
    if xs != [] {
      RemoveRestShrinks(if xs[0] != prev then Remove(pl, xs[0]) else pl, xs[0], xs[1..]);
    }
  }

  /** The positions still to be removed when `prev` has been processed. */
  ghost function Pending(xs: seq<int>, prev: int, size: nat): set<int> {
    set x | x in xs && 0 <= x < size && x != prev
  }

  /** No entry is so negative that it resolves to a track once `dropped` tracks are gone. */
  ghost predicate NoAlias(xs: seq<int>, prev: int, size: int) {
    forall x :: x in xs && x < 0 && x != prev ==> size + x < 0
  }

  /** The state of the loop: `prev` was the last entry, `size` the length at the start. */
  ghost predicate Loop<T>(pl: PlayState<T>, prev: int, xs: seq<int>, size: nat) {
    && pl.k.size == |pl.tracks| <= size < INT_LIMIT
    && Descending(xs) && (forall x :: x in xs ==> IsInt(x) && x <= prev)
    && (prev >= size ==> |pl.tracks| == size)
    && (0 <= prev < size ==> prev <= |pl.tracks|)
  }

  ghost predicate Outcome<T>(pl: PlayState<T>, e: PlayState<T>, drop: set<int>) {
    && e.tracks == Without(pl.tracks, drop)
    && |drop| <= pl.k.size && e.k == Shuffling.Remove(pl.k, |drop|)
    && e.index == pl.index && e.repeat == pl.repeat && e.shuffle == pl.shuffle
  }

  /** One round of the loop: only an entry that names a new track changes what is pending. */
  lemma PendingStep(xs: seq<int>, prev: int, size: nat)
    requires Descending(xs) && xs != [] && xs[0] <= prev
    ensures var x := xs[0];
            var d := Pending(xs, prev, size);
            var d' := Pending(xs[1..], x, size);
            && x !in d'
            && d == (if 0 <= x < size && x != prev then d' + {x} else d')
            && (forall p :: p in d ==> p <= x)
  {
  }

  /** What the loop must achieve from `pl` on: `drop` is removed, unless an entry aliases. */
  ghost predicate Achieves<T>(pl: PlayState<T>, e: PlayState<T>, prev: int, xs: seq<int>, drop: set<int>) {
    if NoAlias(xs, prev, |pl.tracks| - |drop|) then Outcome(pl, e, drop)
    else |e.tracks| < |pl.tracks| - |drop|
  }

  lemma AchievesOne<T>(pl: PlayState<T>, next: PlayState<T>, e: PlayState<T>, prev: int, xs: seq<int>,
                       drop: set<int>, later: set<int>)
    requires xs != [] && 0 <= xs[0] < |pl.tracks| && pl.k.size == |pl.tracks|
    requires xs[0] !in later && drop == later + {xs[0]} && (forall p :: p in drop ==> p <= xs[0])
    requires next == pl.(tracks := RemoveAt(pl.tracks, xs[0]), k := Shuffling.Remove(pl.k, 1))
    requires xs[0] <= prev && HeadFirst(xs) && Achieves(next, e, xs[0], xs[1..], later)
    ensures Achieves(pl, e, prev, xs, drop)
  {
    var x := xs[0];
    assert |drop| == |later| + 1;
    assert xs == [x] + xs[1..];
    var size := |pl.tracks| - |drop|;
    assert |next.tracks| - |later| == size;
    assert forall y :: y in xs && y != x ==> y in xs[1..];
    assert forall y :: y in xs[1..] ==> y in xs;
    assert NoAlias(xs, prev, size) <==> NoAlias(xs[1..], x, size);
    if NoAlias(xs, prev, |pl.tracks| - |drop|) {
      assert drop - {x} == later;
      DropHighest(pl.tracks, drop, x);
      RemoveTwice(pl.k, 1, |later|);
    }
  }

  ghost predicate HeadFirst(xs: seq<int>) {
    xs != [] && forall y :: y in xs ==> y <= xs[0]
  }

  lemma AchievesSkip<T>(pl: PlayState<T>, e: PlayState<T>, prev: int, xs: seq<int>, drop: set<int>)
    requires HeadFirst(xs) && xs[0] <= prev
    requires xs[0] == prev || xs[0] >= 0 || |pl.tracks| + xs[0] < 0
    requires Achieves(pl, e, xs[0], xs[1..], drop)
    ensures Achieves(pl, e, prev, xs, drop)
  {
    var size := |pl.tracks| - |drop|;
    assert xs == [xs[0]] + xs[1..];
    assert forall y :: y in xs && y != xs[0] ==> y in xs[1..];
    assert forall y :: y in xs[1..] ==> y in xs;
    assert NoAlias(xs, prev, size) <==> NoAlias(xs[1..], xs[0], size);
  }

  /** The state after one round of the loop, for entry `x` after entry `prev`. */
  function Round<T>(pl: PlayState<T>, prev: int, x: int): PlayState<T>
    requires pl.k.size == |pl.tracks|
  {
    if x != prev then Remove(pl, x) else pl
  }

  lemma RoundKeepsLoop<T>(pl: PlayState<T>, prev: int, xs: seq<int>, size: nat)
    requires Loop(pl, prev, xs, size) && HeadFirst(xs) && (xs[0] == prev || xs[0] >= 0 || |pl.tracks| + xs[0] < 0)
    ensures var next := Round(pl, prev, xs[0]);
            && Loop(next, xs[0], xs[1..], size)
            && (if 0 <= xs[0] < size && xs[0] != prev
                then xs[0] < |pl.tracks|
                     && next == pl.(tracks := RemoveAt(pl.tracks, xs[0]), k := Shuffling.Remove(pl.k, 1))
                else next == pl)
  {
    assert xs[0] in xs;
    ResolveIs(|pl.tracks|, xs[0]);
    assert forall y :: y in xs[1..] ==> y in xs;
  }

  lemma AliasRemoves<T>(pl: PlayState<T>, prev: int, xs: seq<int>, size: nat)
    requires Loop(pl, prev, xs, size) && HeadFirst(xs)
    requires xs[0] != prev && xs[0] < 0 && |pl.tracks| + xs[0] >= 0
    ensures Achieves(pl, RemoveRest(pl, prev, xs), prev, xs, Pending(xs, prev, size))
  {
    var x := xs[0];
    assert x in xs && Pending(xs, prev, size) == {};
    assert !NoAlias(xs, prev, |pl.tracks|);
    ResolveIs(|pl.tracks|, x);
    RemoveRestShrinks(Remove(pl, x), x, xs[1..]);
  }

  lemma {:induction false} RemoveRestIs<T>(pl: PlayState<T>, prev: int, xs: seq<int>, size: nat)
    requires Loop(pl, prev, xs, size)
    ensures Achieves(pl, RemoveRest(pl, prev, xs), prev, xs, Pending(xs, prev, size))
    decreases |xs|
  {
    if xs == [] {
      WithoutNone(pl.tracks);
      assert Pending(xs, prev, size) == {};
    } else {
      var x := xs[0];
      HeadIsHighest(xs);
      assert x in xs;
      if x != prev && x < 0 && |pl.tracks| + x >= 0 {
        AliasRemoves(pl, prev, xs, size);
      } else {
        var next := Round(pl, prev, x);
        RoundKeepsLoop(pl, prev, xs, size);
        RemoveRestIs(next, x, xs[1..], size);
        RoundAchieves(pl, next, RemoveRest(next, x, xs[1..]), prev, xs, size);
      }
    }
  }

  lemma RoundAchieves<T>(pl: PlayState<T>, next: PlayState<T>, e: PlayState<T>, prev: int, xs: seq<int>, size: nat)
    requires Loop(pl, prev, xs, size) && HeadFirst(xs) && xs[0] <= prev && next == Round(pl, prev, xs[0])
    requires xs[0] == prev || xs[0] >= 0 || |pl.tracks| + xs[0] < 0
    requires Achieves(next, e, xs[0], xs[1..], Pending(xs[1..], xs[0], size))
    ensures Achieves(pl, e, prev, xs, Pending(xs, prev, size))
  {
    var x := xs[0];
    RoundKeepsLoop(pl, prev, xs, size);
    PendingStep(xs, prev, size);
    if 0 <= x < size && x != prev {
      AchievesOne(pl, next, e, prev, xs, Pending(xs, prev, size), Pending(xs[1..], x, size));
    } else {
      AchievesSkip(pl, e, prev, xs, Pending(xs, prev, size));
    }
  }

  ghost predicate Harmless(size: nat, indices: seq<int>) {
    forall i :: i in indices ==> i >= -(size as int) || i < |Denoted(size, indices)| - 2 * size
  }

  lemma NormalisedEntry(size: nat, indices: seq<int>, j: nat)
    requires size < INT_LIMIT && j < |indices| && IsInt(indices[j])
    ensures Normalise(size, indices)[j] == if indices[j] < 0 then size + indices[j] else indices[j]
  {
    ResolveIs(size, indices[j]);
  }

  ghost predicate ComesFrom(x: int, size: nat, indices: seq<int>) {
    (x >= 0 && x in indices) || (x < size && x - size in indices)
  }

  lemma NormalisedElements(size: nat, indices: seq<int>, xs: seq<int>)
    requires size < INT_LIMIT && forall i :: i in indices ==> IsInt(i)
    requires xs == Normalise(size, indices)
    ensures forall i :: i in indices ==> (if i < 0 then size + i else i) in xs
    ensures forall x :: x in xs ==> IsInt(x) && ComesFrom(x, size, indices)
  {
    forall i | i in indices
      ensures (if i < 0 then size + i else i) in xs
    {
      var j :| 0 <= j < |indices| && indices[j] == i;
      NormalisedEntry(size, indices, j);
      assert xs[j] in xs;
    }
    forall x | x in xs
      ensures IsInt(x) && ComesFrom(x, size, indices)
    {
      var j :| 0 <= j < |xs| && xs[j] == x;
      NormalisedEntry(size, indices, j);
      assert indices[j] in indices;
    }
  }

  lemma DenotedLength<T>(s: seq<T>, indices: seq<int>)
    ensures |Without(s, Denoted(|s|, indices))| == |s| - |Denoted(|s|, indices)|
  {
    PositionsAre(|s|);
    WithoutLength(s, Denoted(|s|, indices));
  }

  lemma SortedCovers(size: nat, indices: seq<int>)
    requires indices != [] && size < INT_LIMIT && forall i :: i in indices ==> IsInt(i)
    ensures var xs := SortDescending(Normalise(size, indices));
            Descending(xs) && Represents(size, indices, xs) && forall x :: x in xs ==> IsInt(x)
  {
    var ys := Normalise(size, indices);
    SortIsPermutation(ys);
    SameElements(SortDescending(ys), ys);
    NormalisedElements(size, indices, ys);
    HeadIsHighest(SortDescending(ys));
  }

  ghost predicate Represents(size: nat, indices: seq<int>, xs: seq<int>) {
    && (forall i :: i in indices ==> (if i < 0 then size + i else i) in xs)
    && (forall x :: x in xs ==> ComesFrom(x, size, indices))
    && HeadFirst(xs)
  }

  lemma PendingIsDenoted(size: nat, indices: seq<int>, xs: seq<int>)
    requires Represents(size, indices, xs)
    ensures Pending(xs, xs[0] + 1, size) == Denoted(size, indices)
  {
  }

  lemma HarmlessIsNoAlias(size: nat, indices: seq<int>, xs: seq<int>)
    requires Represents(size, indices, xs)
    ensures Harmless(size, indices) <==> NoAlias(xs, xs[0] + 1, size - |Denoted(size, indices)|)
  {
  }

  lemma RemoveArrayAchieves<T>(pl: PlayState<T>, indices: seq<int>, xs: seq<int>)
    requires Valid(pl) && indices != [] && pl.tracks != [] && forall i :: i in indices ==> IsInt(i)
    requires xs == SortDescending(Normalise(|pl.tracks|, indices))
    requires Descending(xs) && Represents(|pl.tracks|, indices, xs) && forall x :: x in xs ==> IsInt(x)
    ensures Achieves(pl, RemoveArray(pl, indices), xs[0] + 1, xs, Denoted(|pl.tracks|, indices))
  {
    hide Achieves, Denoted, Pending, SortDescending, Normalise, Shuffling.Valid;
    assert RemoveArray(pl, indices) == RemoveRest(pl, xs[0] + 1, xs);
    RemoveRestIs(pl, xs[0] + 1, xs, |pl.tracks|);
    PendingIsDenoted(|pl.tracks|, indices, xs);
  }

  /** Batch removal is a filter.  The playlist keeps exactly the tracks whose positions no index
      denotes, in order, however the indices are ordered, repeated or aliased between the two ways of
      counting, and ignores indices past the end: if and only if no index lies in the band below
      `-size` that the second resolution maps back into the shortened vector.  The shuffler then ends
      as after a single removal of that many tracks. */
  lemma BatchRemovalIsFilter<T>(pl: PlayState<T>, indices: seq<int>)
    requires Valid(pl) && forall i :: i in indices ==> IsInt(i)
    ensures var n := |pl.tracks|;
            var d := Denoted(n, indices);
            RemoveArray(pl, indices).tracks == Without(pl.tracks, d) <==> Harmless(n, indices)
    ensures Harmless(|pl.tracks|, indices)
            ==> Outcome(pl, RemoveArray(pl, indices), Denoted(|pl.tracks|, indices))
  {
    var n := |pl.tracks|;
    DenotedLength(pl.tracks, indices);
    if indices == [] || n == 0 {
      assert Denoted(n, indices) == {};
      WithoutNone(pl.tracks);
    } else {
      var xs := SortDescending(Normalise(n, indices));
      SortedCovers(n, indices);
      RemoveArrayAchieves(pl, indices, xs);
      HarmlessIsNoAlias(n, indices, xs);
      hide RemoveArray, Without, Denoted, Harmless, NoAlias, Represents, SortDescending, Normalise, Valid;
    }
  }

  // ---------------------------------------------------------------- which positions go, aliases included

  /** The positions that the loop removes: each entry that resolves to a track counts. */
  ghost function GoneRest(n: nat, prev: int, xs: seq<int>): set<int>
    decreases |xs|
  {
    if xs == [] then {}
    else
      var p := Resolve(n, xs[0]);
      if xs[0] != prev && p < n then Widened(n, p, GoneRest(n - 1, xs[0], xs[1..])) else GoneRest(n, xs[0], xs[1..])
  }

  ghost function Gone(n: nat, indices: seq<int>): set<int> {
    if indices == [] || n == 0 then {}
    else
      var xs := SortDescending(Normalise(n, indices));
      SortIsPermutation(Normalise(n, indices));
      GoneRest(n, xs[0] + 1, xs)
  }

  lemma WidenedLength<T>(s: seq<T>, p: nat, later: set<int>)
    requires p < |s| && later <= Positions(|s| - 1)
    ensures Widened(|s|, p, later) <= Positions(|s|) && |Widened(|s|, p, later)| == 1 + |later|
  {
    PositionsAre(|s|);
    WithoutWidened(s, p, later);
    WithoutLength(s, Widened(|s|, p, later));
    WithoutLength(RemoveAt(s, p), later);
  }

  lemma OutcomeOne<T>(pl: PlayState<T>, next: PlayState<T>, e: PlayState<T>, p: nat, later: set<int>)
    requires pl.k.size == |pl.tracks| && p < |pl.tracks| && later <= Positions(|pl.tracks| - 1)
    requires next == pl.(tracks := RemoveAt(pl.tracks, p), k := Shuffling.Remove(pl.k, 1)) && Outcome(next, e, later)
    ensures Outcome(pl, e, Widened(|pl.tracks|, p, later))
  {
    WithoutWidened(pl.tracks, p, later);
    WidenedLength(pl.tracks, p, later);
    RemoveTwice(pl.k, 1, |later|);
  }

  lemma RoundIs<T>(pl: PlayState<T>, prev: int, x: int)
    requires pl.k.size == |pl.tracks|
    ensures var p := Resolve(|pl.tracks|, x);
            Round(pl, prev, x) ==
            if x == prev || p >= |pl.tracks| then pl
            else pl.(tracks := RemoveAt(pl.tracks, p), k := Shuffling.Remove(pl.k, 1))
  {
  }

  lemma {:induction false} RemoveRestOutcome<T>(pl: PlayState<T>, prev: int, xs: seq<int>)
    requires pl.k.size == |pl.tracks|
    ensures var drop := GoneRest(|pl.tracks|, prev, xs);
            drop <= Positions(|pl.tracks|) && Outcome(pl, RemoveRest(pl, prev, xs), drop)
    decreases |xs|
  {
    var n := |pl.tracks|;
    if xs == [] {
      WithoutNone(pl.tracks);
    } else {
      hide Outcome, Without, Positions, Widened, Resolve, PlaylistModel.Remove;
      var next := Round(pl, prev, xs[0]);
      var p := Resolve(n, xs[0]);
      RoundIs(pl, prev, xs[0]);
      RemoveRestOutcome(next, xs[0], xs[1..]);
      if xs[0] != prev && p < n {
        var later := GoneRest(n - 1, xs[0], xs[1..]);
        WidenedLength(pl.tracks, p, later);
        OutcomeOne(pl, next, RemoveRest(next, xs[0], xs[1..]), p, later);
      }
    }
  }

  /** Any batch removal: the tracks at the positions `Gone` go, and the shuffler ends as after one removal
      of that many. */
  lemma RemoveArrayOutcome<T>(pl: PlayState<T>, indices: seq<int>)
    requires pl.k.size == |pl.tracks|
    ensures var drop := Gone(|pl.tracks|, indices);
            drop <= Positions(|pl.tracks|) && Outcome(pl, RemoveArray(pl, indices), drop)
  {
    if indices == [] || pl.tracks == [] {
      WithoutNone(pl.tracks);
    } else {
      hide Outcome;
      var ys := Normalise(|pl.tracks|, indices);
      SortIsPermutation(ys);
      var xs := SortDescending(ys);
      RemoveRestOutcome(pl, xs[0] + 1, xs);
      assert RemoveArray(pl, indices) == RemoveRest(pl, xs[0] + 1, xs);
    }
  }

  lemma RemoveArrayKeepsDistinct<T>(pl: PlayState<T>, indices: seq<int>)
    requires pl.k.size == |pl.tracks| && Distinct(pl.tracks)
    ensures Distinct(RemoveArray(pl, indices).tracks)
  {
    hide RemoveArray, Gone, Distinct;
    RemoveArrayOutcome(pl, indices);
    WithoutDistinct(pl.tracks, Gone(|pl.tracks|, indices));
  }

  lemma {:induction false} InWithout(n: nat, drop: set<int>, x: nat)
    ensures x in Without(Shuffling.Ident(n), drop) <==> x < n && x !in drop
  {
    if n > 0 {
      assert Shuffling.Ident(n)[..n - 1] == Shuffling.Ident(n - 1);
      InWithout(n - 1, drop, x);
    }
  }

  /** These are the positions that the indices denote, if and only if no index lies in the aliasing band. */
  lemma GoneIsDenoted(n: nat, indices: seq<int>)
    requires n < INT_LIMIT && forall i :: i in indices ==> IsInt(i)
    ensures Gone(n, indices) == Denoted(n, indices) <==> Harmless(n, indices)
  {
    var pl := PlayState(Shuffling.Ident(n), Shuffling.Fresh(n), NONE, false, false);
    Shuffling.FreshIsSound(n);
    RemoveArrayOutcome(pl, indices);
    BatchRemovalIsFilter(pl, indices);
    PositionsAre(n);
    hide Gone, Denoted, Harmless, RemoveArray, Without;
    var gone, denoted := Gone(n, indices), Denoted(n, indices);
    assert denoted <= Positions(n) by {
      DenotedInRange(n, indices);
    }
    if Without(pl.tracks, gone) == Without(pl.tracks, denoted) {
      forall x: nat | x < n
        ensures x in gone <==> x in denoted
      {
        InWithout(n, gone, x);
        InWithout(n, denoted, x);
      }
    }
  }

  lemma DenotedInRange(n: nat, indices: seq<int>)
    ensures Denoted(n, indices) <= Positions(n)
  {
    PositionsAre(n);
  }

  /** Three tracks, index -4: the last track goes although no track has that index. */
  lemma AliasExample()
    ensures var pl := PlayState([10, 20, 30], Shuffling.Fresh(3), NONE, false, false);
            RemoveArray(pl, [-4]).tracks == [10, 20]
  {
    var pl := PlayState([10, 20, 30], Shuffling.Fresh(3), NONE, false, false);
    ResolveIs(3, -4);
    ResolveIs(3, -1);
    assert Normalise(3, [-4]) == [-1];
    assert SortDescending([-1]) == [-1];
    assert RemoveAt(pl.tracks, 2) == [10, 20];
  }
}
