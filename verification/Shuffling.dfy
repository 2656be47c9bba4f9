/** What the track shuffler of kfy.c computes, as functions on values.

    A shuffler state is the residue `a[0..end)` of the buffer (the indices not drawn yet in this
    cycle), the number of tracks and the capacity of the buffer.  Class `Kfy` implements these
    functions on an array; here they are related to permutations, to cycles and to the cost of
    reallocation. */
module Shuffling {
  import opened Words

  const MIN_CAPACITY: nat := 8

  // ---------------------------------------------------------------- capacities

  /** The buffer sizes in use: 8, 16, 32, ... */
  predicate IsCapacity(c: nat)
  {
    c == MIN_CAPACITY || (c > MIN_CAPACITY && c % 2 == 0 && IsCapacity(c / 2))
  }

  function Doubled(c: nat, val: nat): (r: nat)
    requires c > 0
    ensures r > val
    decreases if c <= val then val + 1 - c else 0
  {
    if c > val then c else Doubled(2 * c, val)
  }

  function CapacityFor(val: nat): nat {
    Doubled(MIN_CAPACITY, val)
  }

  lemma {:induction false} CapacityGap(c: nat, d: nat)
    requires IsCapacity(c) && IsCapacity(d) && c < d
    ensures 2 * c <= d
  {
    if c == MIN_CAPACITY {
      assert IsCapacity(d / 2);
    } else {
      CapacityGap(c / 2, d / 2);
    }
  }

  lemma {:induction false} DoubledIsCapacity(c: nat, val: nat)
    requires IsCapacity(c) && (c == MIN_CAPACITY || c / 2 <= val)
    ensures var r := Doubled(c, val); IsCapacity(r) && (r == MIN_CAPACITY || r / 2 <= val)
    decreases if c <= val then val + 1 - c else 0
  {
    if c <= val {
      assert (2 * c) / 2 == c;
      DoubledIsCapacity(2 * c, val);
    }
  }

  /** `CapacityFor(val)` is the least capacity strictly above `val`, and at most twice `val`
      once `val` has reached the minimum. */
  lemma CapacityIsLeast(val: nat)
    ensures IsCapacity(CapacityFor(val)) && val < CapacityFor(val)
    ensures forall d: nat :: IsCapacity(d) && val < d ==> CapacityFor(val) <= d
    ensures val >= MIN_CAPACITY ==> CapacityFor(val) <= 2 * val
  {
    DoubledIsCapacity(MIN_CAPACITY, val);
    var c := CapacityFor(val);
    forall d: nat | IsCapacity(d) && val < d
      ensures c <= d
    {
      if d < c {
        CapacityGap(d, c);
      }
    }
  }

  /** The value of the doubled variable after `k` rounds of the loop in `next_pow_2`, if the loop
      ran that long: `unsigned int` arithmetic. */
  function AfterRounds(k: nat): nat {
    if k == 0 then MIN_CAPACITY else (2 * AfterRounds(k - 1)) % U32
  }

  predicate DoublesToTop(r: nat)
    decreases INT_LIMIT - r
  {
    r == INT_LIMIT || (0 < r < INT_LIMIT && DoublesToTop(2 * r))
  }

  function Exp2(n: nat): nat {
    if n == 0 then 1 else 2 * Exp2(n - 1)
  }

  lemma Top()
    ensures 8 * Exp2(28) == INT_LIMIT
  {
    assert Exp2(4) == 0x10;
    assert Exp2(8) == 0x100;
    assert Exp2(12) == 0x1000;
    assert Exp2(16) == 0x1_0000;
    assert Exp2(20) == 0x10_0000;
    assert Exp2(24) == 0x100_0000;
  }

  lemma {:induction false} PowerIsCapacity(n: nat)
    ensures IsCapacity(8 * Exp2(n)) && 8 * Exp2(n) >= MIN_CAPACITY
  {
    if n > 0 {
      var c := 8 * Exp2(n - 1);
      PowerIsCapacity(n - 1);
      assert 8 * Exp2(n) == 2 * c;
      assert (2 * c) % 2 == 0 && (2 * c) / 2 == c;
    }
  }

  lemma {:induction false} PowerReachesTop(n: nat)
    requires n <= 28
    ensures DoublesToTop(8 * Exp2(28 - n))
  {
    PowerIsCapacity(28 - n);
    if n == 0 {
      Top();
    } else {
      PowerReachesTop(n - 1);
      assert 8 * Exp2(28 - (n - 1)) == 2 * (8 * Exp2(28 - n));
    }
  }

  lemma {:induction false} RoundsStayBelow(k: nat)
    ensures AfterRounds(k) == 0 || DoublesToTop(AfterRounds(k))
  {
    if k == 0 {
      PowerReachesTop(28);
    } else {
      var c := AfterRounds(k - 1);
      RoundsStayBelow(k - 1);
      assert (2 * c) % U32 == if c == INT_LIMIT then 0 else 2 * c;
      hide Exp2;
    }
  }

  lemma {:induction false} ReachesTop(k: nat) returns (j: nat)
    requires DoublesToTop(AfterRounds(k))
    ensures AfterRounds(j) == INT_LIMIT
    decreases INT_LIMIT - AfterRounds(k)
  {
    if AfterRounds(k) == INT_LIMIT {
      j := k;
    } else {
      assert AfterRounds(k + 1) == 2 * AfterRounds(k);
      j := ReachesTop(k + 1);
    }
  }

  /** The loop of `next_pow_2` reaches its exit condition exactly for arguments below 2^31. */
  lemma NextPow2Terminates(val: nat)
    requires val < U32
    ensures (exists k: nat :: AfterRounds(k) > val) <==> val < INT_LIMIT
  {
    RoundsStayBelow(0);
    var top := ReachesTop(0);
    forall k: nat
      ensures AfterRounds(k) <= INT_LIMIT
    {
      RoundsStayBelow(k);
    }
  }

  // ---------------------------------------------------------------- states and operations

  datatype Shuffler = Shuffler(rest: seq<nat>, size: nat, capacity: nat)

  function Ident(n: nat): (s: seq<nat>)
    ensures |s| == n && forall i :: 0 <= i < n ==> s[i] == i
  {
    seq(n, i => i)
  }

  lemma InIdent(n: nat, v: nat)
    ensures v in Ident(n) <==> v < n
  {
    assert v < n ==> Ident(n)[v] == v;
  }

  ghost predicate Valid(k: Shuffler) {
    && Distinct(k.rest)
    && (forall v :: v in k.rest ==> v < k.size)
    && |k.rest| <= k.size < k.capacity <= INT_LIMIT
    && IsCapacity(k.capacity)
  }

  function Fresh(n: nat): Shuffler {
    Shuffler(Ident(n), n, CapacityFor(n))
  }

  predicate Shrinks(k: Shuffler) {
    k.size < k.capacity / 4 && k.size >= MIN_CAPACITY
  }

  /** `alloc` is the outcome of `realloc`, when the code calls it. */
  function Reset(k: Shuffler, alloc: bool): Shuffler {
    Shuffler(Ident(k.size), k.size, if alloc && Shrinks(k) then CapacityFor(k.size) else k.capacity)
  }

  /** The indices the next draw chooses from. */
  function Pool(k: Shuffler): seq<nat> {
    if k.rest == [] then Ident(k.size) else k.rest
  }

  /** Drawing position `r`: the last element takes its place. */
  function TakeOut(s: seq<nat>, r: nat): (t: seq<nat>)
    requires r < |s|
    ensures |t| == |s| - 1
  {
    s[r := s[|s| - 1]][..|s| - 1]
  }

  /** The state after a draw whose random number is `r`; the value drawn is `Pool(k)[r]`. */
  function Draw(k: Shuffler, r: nat, alloc: bool): Shuffler
    requires r < |Pool(k)|
  {
    var k := if k.rest == [] then Reset(k, alloc) else k;
    k.(rest := TakeOut(k.rest, r))
  }

  predicate Grows(k: Shuffler, cnt: nat) {
    k.size + cnt >= k.capacity
  }

  predicate AddSucceeds(k: Shuffler, cnt: nat, alloc: bool) {
    !Grows(k, cnt) || alloc
  }

  function Block(first: nat, cnt: nat): (s: seq<nat>)
    ensures |s| == cnt && forall i :: 0 <= i < cnt ==> s[i] == first + i
  {
    seq(cnt, i => first + i)
  }

  /** Appending `cnt` new tracks in mid-cycle. */
  function Add(k: Shuffler, cnt: nat, alloc: bool): Shuffler {
    if !AddSucceeds(k, cnt, alloc) then k
    else Shuffler(k.rest + Block(k.size, cnt), k.size + cnt,
                  if Grows(k, cnt) then CapacityFor(k.size + cnt) else k.capacity)
  }

  function Minus(x: nat, y: nat): nat {
    if x >= y then x - y else 0
  }

  /** Removal renumbers: the residue becomes `0, 1, ...`. */
  function Remove(k: Shuffler, cnt: nat): Shuffler
    requires cnt <= k.size
  {
    if cnt == 0 then k else Shuffler(Ident(Minus(|k.rest|, cnt)), k.size - cnt, k.capacity)
  }

  lemma TakeOutKeepsElements(s: seq<nat>, r: nat)
    requires r < |s|
    ensures multiset(s) == multiset(TakeOut(s, r)) + multiset{s[r]}
  {
    var e := |s| - 1;
    var t := s[r := s[e]];
    assert t == t[..e] + [s[e]];
    assert multiset(t) == multiset(s) - multiset{s[r]} + multiset{s[e]};
  }

  lemma TakeOutKeeps(s: seq<nat>, r: nat)
    requires r < |s|
    ensures multiset(s) == multiset(TakeOut(s, r)) + multiset{s[r]}
    ensures Distinct(s) ==> Distinct(TakeOut(s, r))
    ensures forall v :: v in TakeOut(s, r) ==> v in s
  {
    TakeOutKeepsElements(s, r);
    var e, t := |s| - 1, TakeOut(s, r);
    assert forall i :: 0 <= i < e ==> t[i] == s[if i == r then e else i];
  }

  /** The element drawn is replaced by the last one, and the others stay where they are. */
  lemma TakeOutIs(s: seq<nat>, r: nat, i: nat)
    requires r < |s| && i < |s| - 1
    ensures TakeOut(s, r)[i] == if i == r then s[|s| - 1] else s[i]
  {
  }

  /** A reset puts all indices back, in order.  It gives memory back only from 8 tracks on, and then the
      buffer is less than four times as long as needed. */
  lemma ResetIs(k: Shuffler, alloc: bool)
    requires Valid(k)
    ensures var e := Reset(k, alloc);
            && e.size == k.size == |e.rest| && (forall i :: 0 <= i < k.size ==> e.rest[i] == i)
            && e.capacity <= k.capacity && (!alloc || k.size < 8 ==> e.capacity == k.capacity)
            && (4 * k.size + 3 >= k.capacity ==> e.capacity == k.capacity)
            && (alloc && k.size >= 8 ==> e.capacity <= 4 * k.size + 3)
  {
    CapacityIsLeast(k.size);
    ResetKeepsValid(k, alloc);
  }

  /** An addition fails exactly if the buffer is too short and cannot grow; then nothing changes.  The
      new indices come behind those that are left. */
  lemma AddIs(k: Shuffler, cnt: nat, alloc: bool)
    ensures AddSucceeds(k, cnt, alloc) <==> k.size + cnt < k.capacity || alloc
    ensures !AddSucceeds(k, cnt, alloc) ==> Add(k, cnt, alloc) == k
    ensures AddSucceeds(k, cnt, alloc) ==>
              var e := Add(k, cnt, alloc);
              && e.size == k.size + cnt && |e.rest| == |k.rest| + cnt
              && e.rest[..|k.rest|] == k.rest
              && (forall i :: |k.rest| <= i < |e.rest| ==> e.rest[i] == k.size + (i - |k.rest|))
              && (e.size < k.capacity ==> e.capacity == k.capacity)
  {
  }

  /** A draw from a cycle that is finished comes after a reset; the index drawn is then the random number. */
  lemma DrawIs(k: Shuffler, r: nat, alloc: bool)
    requires Valid(k) && r < |Pool(k)|
    ensures var e := Draw(k, r, alloc);
            && e.size == k.size && |e.rest| == |Pool(k)| - 1
            && (k.rest == [] ==> |Pool(k)| == k.size && Pool(k)[r] == r && e.capacity == Reset(k, alloc).capacity)
            && (k.rest != [] ==> Pool(k)[r] == k.rest[r] && e.capacity == k.capacity)
  {
  }

  lemma ResetKeepsValid(k: Shuffler, alloc: bool)
    requires Valid(k)
    ensures Valid(Reset(k, alloc))
    ensures Shrinks(k) ==> 2 * CapacityFor(k.size) < k.capacity
  {
    CapacityIsLeast(k.size);
  }

  lemma DrawKeepsValid(k: Shuffler, r: nat, alloc: bool)
    requires Valid(k) && r < |Pool(k)|
    ensures Valid(Draw(k, r, alloc)) && Pool(k)[r] < k.size
  {
    ResetKeepsValid(k, alloc);
    assert Pool(k)[r] in Pool(k);
    TakeOutKeeps(Pool(k), r);
  }

  lemma CapacityFits(val: nat)
    requires val < INT_LIMIT
    ensures CapacityFor(val) <= INT_LIMIT
  {
    CapacityIsLeast(val);
    PowerIsCapacity(28);
    Top();
  }

  lemma GrowthDoubles(c: nat, size: nat)
    requires IsCapacity(c) && c <= size
    ensures 2 * c <= CapacityFor(size)
  {
    CapacityIsLeast(size);
    CapacityGap(c, CapacityFor(size));
  }

  lemma AddKeepsValid(k: Shuffler, cnt: nat, alloc: bool)
    requires Valid(k) && k.size + cnt < INT_LIMIT
    ensures Valid(Add(k, cnt, alloc))
    ensures Grows(k, cnt) ==> 2 * k.capacity <= CapacityFor(k.size + cnt)
  {
    CapacityIsLeast(k.size + cnt);
    CapacityFits(k.size + cnt);
    if Grows(k, cnt) {
      GrowthDoubles(k.capacity, k.size + cnt);
    }
    var more := Block(k.size, cnt);
    forall v | v in k.rest + more
      ensures v < k.size + cnt
    {
      if v in more {
        var i: nat :| i < cnt && more[i] == v;
      }
    }
    forall i, j | 0 <= i < j < |k.rest + more|
      ensures (k.rest + more)[i] != (k.rest + more)[j]
    {
      if i < |k.rest| {
        assert k.rest[i] in k.rest;
      }
    }
  }

  lemma CapacityStays(val: nat)
    requires val + 1 < CapacityFor(val)
    ensures CapacityFor(val + 1) == CapacityFor(val)
  {
    CapacityIsLeast(val);
    CapacityIsLeast(val + 1);
  }

  /** Tracks added one by one are as good as added at once. */
  lemma AddOneMore(k: Shuffler, j: nat, alloc: bool)
    requires Valid(k) && AddSucceeds(Add(k, j, true), 1, alloc)
    ensures Add(Add(k, j, true), 1, alloc) == Add(k, j + 1, true)
  {
    assert k.rest + Block(k.size, j) + Block(k.size + j, 1) == k.rest + Block(k.size, j + 1);
    if k.size + j >= k.capacity && k.size + j + 1 < CapacityFor(k.size + j) {
      CapacityStays(k.size + j);
    }
  }

  lemma AddNone(k: Shuffler)
    requires Valid(k)
    ensures Add(k, 0, true) == k
  {
    assert k.rest + Block(k.size, 0) == k.rest;
  }

  // ---------------------------------------------------------------- fairness: choices and permutations

  /** `cs` is a possible sequence of random numbers for a pool of `n`: the first is below `n`, the
      second below `n - 1`, and so on. */
  ghost predicate Choices(cs: seq<nat>, n: nat) {
    |cs| == n && forall i :: 0 <= i < n ==> cs[i] < n - i
  }

  ghost predicate IsPermutation(s: seq<nat>, n: nat) {
    multiset(s) == multiset(Ident(n))
  }

  /** The values drawn from a pool by a whole sequence of random numbers. */
  function Draws(pool: seq<nat>, cs: seq<nat>): (out: seq<nat>)
    requires Choices(cs, |pool|)
    decreases |pool|
  {
    if pool == [] then [] else [pool[cs[0]]] + Draws(TakeOut(pool, cs[0]), cs[1..])
  }

  function Position(s: seq<nat>, v: nat): (r: nat)
    requires v in s
    ensures r < |s| && s[r] == v
  {
    if s[0] == v then 0 else 1 + Position(s[1..], v)
  }

  /** Reads the random numbers back from the order in which the pool came out. */
  ghost function ChoicesFor(pool: seq<nat>, out: seq<nat>): (cs: seq<nat>)
    requires multiset(out) == multiset(pool)
    ensures Choices(cs, |pool|)
    decreases |pool|
  {
    SameLength(out, pool);
    if pool == [] then []
    else
      assert out[0] in multiset(out);
      var r := Position(pool, out[0]);
      TakeOutKeeps(pool, r);
      LessFirst(out, TakeOut(pool, r));
      [r] + ChoicesFor(TakeOut(pool, r), out[1..])
  }

  lemma LessFirst(out: seq<nat>, t: seq<nat>)
    requires out != [] && multiset(out) == multiset(t) + multiset{out[0]}
    ensures multiset(out[1..]) == multiset(t)
  {
    assert out == [out[0]] + out[1..];
    assert multiset(out[1..]) == multiset(out) - multiset{out[0]};
  }

  lemma SameLength<T>(s: seq<T>, t: seq<T>)
    requires multiset(s) == multiset(t)
    ensures |s| == |t|
  {
    assert |multiset(s)| == |s| && |multiset(t)| == |t|;
  }

  lemma {:induction false} DrawsPermute(pool: seq<nat>, cs: seq<nat>)
    requires Choices(cs, |pool|)
    ensures multiset(Draws(pool, cs)) == multiset(pool)
    decreases |pool|
  {
    if pool != [] {
      DrawsPermute(TakeOut(pool, cs[0]), cs[1..]);
      TakeOutKeeps(pool, cs[0]);
    }
  }

  lemma {:induction false} ChoicesOfDraws(pool: seq<nat>, cs: seq<nat>)
    requires Choices(cs, |pool|) && Distinct(pool)
    ensures multiset(Draws(pool, cs)) == multiset(pool)
    ensures ChoicesFor(pool, Draws(pool, cs)) == cs
    decreases |pool|
  {
    DrawsPermute(pool, cs);
    if pool != [] {
      TakeOutKeeps(pool, cs[0]);
      ChoicesOfDraws(TakeOut(pool, cs[0]), cs[1..]);
      assert Position(pool, pool[cs[0]]) == cs[0];
    }
  }

  lemma {:induction false} DrawsOfChoices(pool: seq<nat>, out: seq<nat>)
    requires multiset(out) == multiset(pool)
    ensures Draws(pool, ChoicesFor(pool, out)) == out
    decreases |pool|
  {
    hide TakeOut, Position;
    SameLength(out, pool);
    if pool != [] {
      assert out[0] in multiset(out);
      var r := Position(pool, out[0]);
      TakeOutKeeps(pool, r);
      LessFirst(out, TakeOut(pool, r));
      DrawsOfChoices(TakeOut(pool, r), out[1..]);
    }
  }

  /** A whole cycle of draws from state `k`, one random number per draw. */
  ghost predicate CanDrawAll(k: Shuffler, cs: seq<nat>)
    decreases |cs|
  {
    cs == [] || (cs[0] < |Pool(k)| && CanDrawAll(Draw(k, cs[0], true), cs[1..]))
  }

  ghost function DrawAll(k: Shuffler, cs: seq<nat>): seq<nat>
    requires CanDrawAll(k, cs)
    decreases |cs|
  {
    if cs == [] then [] else [Pool(k)[cs[0]]] + DrawAll(Draw(k, cs[0], true), cs[1..])
  }

  lemma {:induction false} DrawAllIsDraws(k: Shuffler, cs: seq<nat>)
    requires Choices(cs, |k.rest|)
    ensures CanDrawAll(k, cs) && DrawAll(k, cs) == Draws(k.rest, cs)
    decreases |cs|
  {
    if cs != [] {
      DrawAllIsDraws(Draw(k, cs[0], true), cs[1..]);
    }
  }

  /** Fairness.  From a fresh cycle over `n` tracks, running the shuffler is a bijection between
      the admissible sequences of `n` random numbers and the permutations of `0..n-1`: every
      sequence gives a permutation, different sequences give different ones, and every permutation
      comes from a sequence. */
  lemma FairShuffle(k: Shuffler, n: nat)
    requires k.rest == Ident(n)
    ensures forall cs :: Choices(cs, n) ==> CanDrawAll(k, cs) && IsPermutation(DrawAll(k, cs), n)
    ensures forall cs, ds :: Choices(cs, n) && Choices(ds, n) && cs != ds
                             ==> CanDrawAll(k, cs) && CanDrawAll(k, ds) && DrawAll(k, cs) != DrawAll(k, ds)
    ensures forall out :: IsPermutation(out, n)
                          ==> exists cs :: Choices(cs, n) && CanDrawAll(k, cs) && DrawAll(k, cs) == out
  {
    forall cs | Choices(cs, n)
      ensures CanDrawAll(k, cs) && IsPermutation(DrawAll(k, cs), n)
      ensures ChoicesFor(k.rest, DrawAll(k, cs)) == cs
    {
      DrawAllIsDraws(k, cs);
      ChoicesOfDraws(k.rest, cs);
    }
    forall out | IsPermutation(out, n)
      ensures exists cs :: Choices(cs, n) && CanDrawAll(k, cs) && DrawAll(k, cs) == out
    {
      var cs := ChoicesFor(k.rest, out);
      DrawsOfChoices(k.rest, out);
      DrawAllIsDraws(k, cs);
    }
  }

  // ---------------------------------------------------------------- whole runs

  datatype Op =
    | OpDraw(r: nat, alloc: bool)
    | OpAdd(cnt: nat, alloc: bool)
    | OpRemove(cnt: nat)
    | OpReset(alloc: bool)

  predicate Enabled(k: Shuffler, op: Op) {
    match op
    case OpDraw(r, _) => r < |Pool(k)|
    case OpAdd(cnt, _) => k.size + cnt < INT_LIMIT
    case OpRemove(cnt) => cnt <= k.size
    case OpReset(_) => true
  }

  /** A shuffler with its history: the indices drawn in this cycle, whether it is still whole, the
      elements `realloc` has moved so far and the tracks added and removed.  A cycle starts with a reset,
      or with the removal of all tracks; a removal after the first draw breaks it. */
  datatype History = History(k: Shuffler, drawn: seq<nat>, intact: bool, moved: nat, traffic: nat)

  function Begin(k: Shuffler): History {
    History(k, [], true, 0, 0)
  }

  function MovedByReset(k: Shuffler, alloc: bool): nat {
    if alloc && Shrinks(k) then CapacityFor(k.size) else 0
  }

  function AfterReset(h: History, alloc: bool): History {
    History(Reset(h.k, alloc), [], true, h.moved + MovedByReset(h.k, alloc), h.traffic)
  }

  function Step(h: History, op: Op): History
    requires Enabled(h.k, op)
  {
    match op
    case OpReset(alloc) =>
      AfterReset(h, alloc)
    case OpDraw(r, alloc) =>
      var h := if h.k.rest == [] then AfterReset(h, alloc) else h;
      h.(k := Draw(h.k, r, alloc), drawn := h.drawn + [h.k.rest[r]])
    case OpAdd(cnt, alloc) =>
      h.(k := Add(h.k, cnt, alloc),
         moved := h.moved + (if Grows(h.k, cnt) && alloc then h.k.capacity else 0),
         traffic := h.traffic + (if AddSucceeds(h.k, cnt, alloc) then cnt else 0))
    case OpRemove(cnt) =>
      var k, traffic := Remove(h.k, cnt), h.traffic + cnt;
      if 0 < cnt == h.k.size then History(k, [], true, h.moved, traffic)
      else h.(k := k, intact := h.intact && (cnt == 0 || h.drawn == []), traffic := traffic)
  }

  lemma DrawStep(h: History, r: nat, alloc: bool)
    requires r < |Pool(h.k)|
    ensures var e := Step(h, OpDraw(r, alloc));
            && e.k == Draw(h.k, r, alloc)
            && e.moved == h.moved + (if h.k.rest == [] then MovedByReset(h.k, alloc) else 0)
  {
  }

  lemma AddStep(h: History, cnt: nat, alloc: bool)
    requires h.k.size + cnt < INT_LIMIT
    ensures var e := Step(h, OpAdd(cnt, alloc));
            && e.k == Add(h.k, cnt, alloc)
            && e.moved == h.moved + (if Grows(h.k, cnt) && alloc then h.k.capacity else 0)
            && (!AddSucceeds(h.k, cnt, alloc) ==> e == h)
  {
  }

  ghost predicate Runs(h: History, ops: seq<Op>)
    decreases |ops|
  {
    ops == [] || (Enabled(h.k, ops[0]) && Runs(Step(h, ops[0]), ops[1..]))
  }

  ghost function Run(h: History, ops: seq<Op>): History
    requires Runs(h, ops)
    decreases |ops|
  {
    if ops == [] then h else Run(Step(h, ops[0]), ops[1..])
  }

  /** Drawn and remaining indices partition the tracks. */
  ghost predicate Partition(h: History) {
    multiset(h.drawn) + multiset(h.k.rest) == multiset(Ident(h.k.size))
  }

  /** The same for a shuffler and any list of drawn indices. */
  ghost predicate Splits(k: Shuffler, drawn: seq<nat>) {
    forall d: nat :: d in drawn <==> d < k.size && d !in k.rest
  }

  ghost predicate Sound(h: History) {
    Valid(h.k) && (h.intact ==> Partition(h))
  }

  lemma ResetKeepsSound(h: History, alloc: bool)
    requires Sound(h)
    ensures Sound(AfterReset(h, alloc))
  {
    ResetKeepsValid(h.k, alloc);
  }

  lemma DrawKeepsSound(h: History, r: nat, alloc: bool)
    requires Sound(h) && h.k.rest != [] && r < |h.k.rest|
    ensures Sound(Step(h, OpDraw(r, alloc)))
  {
    DrawKeepsValid(h.k, r, alloc);
    TakeOutKeeps(h.k.rest, r);
  }

  lemma AddKeepsSound(h: History, cnt: nat, alloc: bool)
    requires Sound(h) && h.k.size + cnt < INT_LIMIT
    ensures Sound(Step(h, OpAdd(cnt, alloc)))
  {
    AddKeepsValid(h.k, cnt, alloc);
    var more := Block(h.k.size, cnt);
    assert Ident(h.k.size + cnt) == Ident(h.k.size) + more;
    assert multiset(h.k.rest + more) == multiset(h.k.rest) + multiset(more);
  }

  lemma RemoveKeepsSound(h: History, cnt: nat)
    requires Sound(h) && cnt <= h.k.size
    ensures Sound(Step(h, OpRemove(cnt)))
  {
    if cnt > 0 && cnt < h.k.size && h.intact && h.drawn == [] {
      SameLength(h.k.rest, Ident(h.k.size));
    }
  }

  lemma StepKeepsSound(h: History, op: Op)
    requires Sound(h) && Enabled(h.k, op)
    ensures Sound(Step(h, op))
  {
    match op
    case OpReset(alloc) =>
      ResetKeepsSound(h, alloc);
    case OpDraw(r, alloc) =>
      if h.k.rest == [] {
        ResetKeepsSound(h, alloc);
        DrawKeepsSound(AfterReset(h, alloc), r, alloc);
      } else {
        DrawKeepsSound(h, r, alloc);
      }
    case OpAdd(cnt, alloc) =>
      AddKeepsSound(h, cnt, alloc);
    case OpRemove(cnt) =>
      RemoveKeepsSound(h, cnt);
  }

  lemma {:induction false} CountedOnce(s: seq<nat>, v: nat)
    requires Distinct(s)
    ensures multiset(s)[v] == if v in s then 1 else 0
  {
    if s != [] {
      var e := |s| - 1;
      CountedOnce(s[..e], v);
      assert s == s[..e] + [s[e]];
    }
  }

  lemma PartitionSplits(h: History)
    requires Sound(h) && h.intact
    ensures Splits(h.k, h.drawn)
  {
    forall d: nat
      ensures d in h.drawn <==> d < h.k.size && d !in h.k.rest
    {
      InIdent(h.k.size, d);
      CountedOnce(Ident(h.k.size), d);
      CountedOnce(h.k.rest, d);
      assert d in h.drawn <==> multiset(h.drawn)[d] > 0;
      assert (multiset(h.drawn) + multiset(h.k.rest))[d] == multiset(Ident(h.k.size))[d];
    }
  }

  /** What a full cycle is worth, in every run of draws, additions, removals and resets: as long as the
      cycle is whole, what was drawn and what remains partition `0..size-1`, so a finished cycle has drawn
      every track exactly once, including tracks added in mid-cycle, after clearing and loading, and after
      removals before the first draw.  A removal later on breaks the cycle; the next one is whole again. */
  lemma {:induction false} CyclePartition(h: History, ops: seq<Op>)
    requires Sound(h) && Runs(h, ops)
    ensures var e := Run(h, ops); Sound(e) && (e.intact && e.k.rest == [] ==> IsPermutation(e.drawn, e.k.size))
    decreases |ops|
  {
    if ops != [] {
      StepKeepsSound(h, ops[0]);
      CyclePartition(Step(h, ops[0]), ops[1..]);
    }
  }

  /** A new shuffler is a whole cycle over its tracks, in the least buffer there is for them. */
  lemma FreshIsSound(n: nat)
    requires n < INT_LIMIT
    ensures Valid(Fresh(n)) && Sound(Begin(Fresh(n)))
    ensures |Fresh(n).rest| == n == Fresh(n).size && forall i :: 0 <= i < n ==> Fresh(n).rest[i] == i
    ensures forall d: nat :: IsCapacity(d) && n < d ==> Fresh(n).capacity <= d
  {
    CapacityIsLeast(n);
    CapacityFits(n);
  }

  // ---------------------------------------------------------------- the cost of reallocation

  /** Credit saved up for the next reallocation: it grows towards the upper end, where the buffer
      doubles, and towards the lower quarter, where it shrinks. */
  function Credit(n: nat, c: nat): nat {
    var low := 3 * (c / 2) - 4 * n;
    if 4 * n >= 3 * c then 4 * n - 3 * c
    else if low <= 0 then 0
    else if low <= c / 2 then low else c / 2
  }

  ghost function Balance(h: History): int {
    4 * h.traffic - h.moved - Credit(h.k.size, h.k.capacity)
  }

  lemma GrowthPays(n: nat, c: nat, cnt: nat, d: nat)
    requires n < c <= n + cnt < d <= 2 * (n + cnt) && 2 * c <= d
    ensures c + Credit(n + cnt, d) <= 4 * cnt + Credit(n, c)
  {
  }

  lemma ShrinkingPays(n: nat, c: nat, d: nat)
    requires n < c / 4 && n < d <= 2 * n && 4 * d <= c
    ensures d + Credit(n, d) <= Credit(n, c)
  {
  }

  lemma ShrinkPays(k: Shuffler)
    requires Valid(k)
    ensures Shrinks(k) ==> CapacityFor(k.size) + Credit(k.size, CapacityFor(k.size)) <= Credit(k.size, k.capacity)
  {
    if Shrinks(k) {
      var c := CapacityFor(k.size);
      CapacityIsLeast(k.size);
      CapacityGap(c, k.capacity);
      assert (2 * c) / 2 == c;
      CapacityGap(2 * c, k.capacity);
      ShrinkingPays(k.size, k.capacity, c);
    }
  }

  lemma CreditSlope(n: nat, c: nat, cnt: nat)
    ensures Credit(n + cnt, c) <= 4 * cnt + Credit(n, c)
    ensures Credit(n, c) <= 4 * cnt + Credit(n + cnt, c)
  {
  }

  lemma AddPays(k: Shuffler, cnt: nat, alloc: bool)
    requires Valid(k) && k.size + cnt < INT_LIMIT && AddSucceeds(k, cnt, alloc)
    ensures var e := Add(k, cnt, alloc);
            (if Grows(k, cnt) then k.capacity else 0) + Credit(e.size, e.capacity)
              <= 4 * cnt + Credit(k.size, k.capacity)
  {
    hide Credit, CapacityFor;
    if Grows(k, cnt) {
      GrowthDoubles(k.capacity, k.size + cnt);
      CapacityIsLeast(k.size + cnt);
      GrowthPays(k.size, k.capacity, cnt, CapacityFor(k.size + cnt));
    } else {
      CreditSlope(k.size, k.capacity, cnt);
    }
  }

  lemma ResetPays(h: History, alloc: bool)
    requires Valid(h.k)
    ensures Balance(h) <= Balance(AfterReset(h, alloc))
  {
    ShrinkPays(h.k);
  }

  lemma DrawPays(h: History, r: nat, alloc: bool)
    requires Valid(h.k) && r < |Pool(h.k)|
    ensures Balance(h) <= Balance(Step(h, OpDraw(r, alloc)))
  {
    ResetPays(h, alloc);
    hide Credit, CapacityFor, Valid;
  }

  lemma AdditionPays(h: History, cnt: nat, alloc: bool)
    requires Valid(h.k) && h.k.size + cnt < INT_LIMIT
    ensures Balance(h) <= Balance(Step(h, OpAdd(cnt, alloc)))
  {
    AddStep(h, cnt, alloc);
    if AddSucceeds(h.k, cnt, alloc) {
      AddPays(h.k, cnt, alloc);
      hide Credit, CapacityFor, Valid;
    }
  }

  lemma RemovalPays(h: History, cnt: nat)
    requires cnt <= h.k.size
    ensures Balance(h) <= Balance(Step(h, OpRemove(cnt)))
  {
    hide Credit;
    CreditSlope(h.k.size - cnt, h.k.capacity, cnt);
  }

  lemma StepPaysForItself(h: History, op: Op)
    requires Valid(h.k) && Enabled(h.k, op)
    ensures Balance(h) <= Balance(Step(h, op))
  {
    match op
    case OpReset(alloc) => ResetPays(h, alloc);
    case OpDraw(r, alloc) => DrawPays(h, r, alloc);
    case OpAdd(cnt, alloc) => AdditionPays(h, cnt, alloc);
    case OpRemove(cnt) => RemovalPays(h, cnt);
    hide Balance, Valid;
  }

  lemma {:induction false} RunPaysForItself(h: History, ops: seq<Op>)
    requires Valid(h.k) && Runs(h, ops)
    ensures Balance(h) <= Balance(Run(h, ops))
    decreases |ops|
  {
    if ops != [] {
      StepKeepsSound(h.(intact := false), ops[0]);
      StepPaysForItself(h, ops[0]);
      assert Step(h.(intact := false), ops[0]).k == Step(h, ops[0]).k;
      RunPaysForItself(Step(h, ops[0]), ops[1..]);
    }
  }

  /** The reallocations so far are paid for, given the capacity at the start. */
  ghost predicate Paid(h: History, start: nat) {
    Balance(h) >= -(start as int)
  }

  lemma BeginIsPaid(k: Shuffler)
    requires k.size < k.capacity
    ensures Paid(Begin(k), k.capacity)
  {
  }

  /** Growing and shrinking cannot thrash: over any run the elements moved by `realloc` are at most
      four per track added or removed, plus the capacity at the start. */
  lemma ReallocationIsAmortised(k: Shuffler, ops: seq<Op>)
    requires Valid(k) && Runs(Begin(k), ops)
    ensures var e := Run(Begin(k), ops); e.moved <= 4 * e.traffic + k.capacity
  {
    RunPaysForItself(Begin(k), ops);
    BeginIsPaid(k);
  }
}
