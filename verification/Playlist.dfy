/** The playlist of playlist.c: a vector of media, its tag reader and its shuffler. */
module Playlists {
  import opened Words
  import opened MediaObjects
  import opened PlaylistModel
  import opened TagReading
  import BatchRemoval
  import KfyBuffer
  import opened Loading
  import PlaylistText
  import Shuffling
  import Uris

  /** References move between owners. */
  lemma HandOver<T>(others: multiset<T>, owned: multiset<T>, s: seq<T>, m: T)
    ensures others + multiset(s) + owned + multiset{m} == others + multiset(s + [m]) + owned
    ensures others + multiset(s) + owned + multiset{m} - multiset{m} == others + multiset(s) + owned
    ensures others + multiset{m} + multiset(s) + owned == others + multiset(s) + owned + multiset{m}
  {
  }

  lemma TakenOut<T>(others: multiset<T>, owned: multiset<T>, s: seq<T>, p: nat)
    requires p < |s|
    ensures s[p] in multiset(s)
    ensures others + multiset(s) + owned - multiset{s[p]} == others + multiset(RemoveAt(s, p)) + owned
  {
    assert s == s[..p] + [s[p]] + s[p + 1..];
  }

  /** The pending-tag map after the first step of adding a media: unless it is parsed, it is filed, if
      its URI is not there yet and its discovery starts. */
  function Filed(pending: map<string, Media>, m: Media, parsed: bool, o: AddOutcome): map<string, Media> {
    if !parsed && o.insert && o.discover && m.uri !in pending then pending[m.uri := m] else pending
  }

  /** Adding a track under `uri` files it, unless it is on the web; what was filed before stays. */
  ghost predicate Requests(before: map<string, Media>, after: map<string, Media>, uri: Option<string>, o: AddOutcome) {
    && after.Keys == before.Keys + (if uri.Some? && !Uris.IsHttp(uri.value) && o.insert && o.discover
                                    then {uri.value} else {})
    && forall key :: key in before ==> after[key] == before[key]
  }

  /** What was filed stays. */
  ghost predicate Keeps(before: map<string, Media>, after: map<string, Media>) {
    forall key :: key in before ==> key in after && after[key] == before[key]
  }

  lemma RequestsKeeps(before: map<string, Media>, after: map<string, Media>, uri: Option<string>, o: AddOutcome)
    ensures Keeps(before, before)
    ensures Requests(before, after, uri, o) ==> Keeps(before, after)
  {
    hide Uris.IsHttp;
  }

  lemma KeepsTwice(a: map<string, Media>, b: map<string, Media>, c: map<string, Media>)
    requires Keeps(a, b) && Keeps(b, c)
    ensures Keeps(a, c)
  {
  }

  lemma FiledRequests(before: map<string, Media>, m: Media, o: AddOutcome)
    ensures Requests(before, Filed(before, m, Uris.IsHttp(m.uri), o), Some(m.uri), o)
  {
    hide Uris.IsHttp;
  }

  /** The tracks from position `from` on are filed, each if its outcomes and its URI allow. */
  ghost predicate AllFiled(vec: seq<Media>, from: nat, env: Env, pending: map<string, Media>) {
    forall i :: from <= i < |vec| && !Uris.IsHttp(vec[i].uri) ==>
                  env.outcome(i - from).insert && env.outcome(i - from).discover ==> vec[i].uri in pending
  }

  lemma AllFiledMore(v: seq<Media>, w: seq<Media>, from: nat, env: Env,
                     before: map<string, Media>, after: map<string, Media>)
    requires AllFiled(v, from, env, before) && from <= |v| && |w| == |v| + 1 && w[..|v|] == v
    requires Requests(before, after, Some(w[|v|].uri), env.outcome(|v| - from))
    ensures AllFiled(w, from, env, after)
  {
    hide Uris.IsHttp;
    assert forall i :: 0 <= i < |v| ==> w[i] == w[..|v|][i];
  }

  function UriList(s: seq<Media>): (uris: seq<string>)
    ensures |uris| == |s|
  {
    seq(|s|, i requires 0 <= i < |s| => s[i].uri)
  }

  /** A shuffler after `j > 0` additions and removals in equal number: only the buffer stays as long as
      it has become. */
  ghost predicate Restored(k: Shuffling.Shuffler, e: Shuffling.Shuffler, j: nat) {
    if j == 0 then e == k
    else e == Shuffling.Shuffler(Shuffling.Ident(|k.rest|), k.size, Shuffling.Add(k, j, true).capacity)
  }

  /** A shuffler after `n` removals of one track each. */
  function Shortened(k: Shuffling.Shuffler, n: nat): Shuffling.Shuffler
    requires n <= |k.rest| && n <= k.size
  {
    if n == 0 then k else Shuffling.Shuffler(Shuffling.Ident(|k.rest| - n), k.size - n, k.capacity)
  }

  lemma ShortenedStarts(k: Shuffling.Shuffler)
    ensures Shortened(k, 0) == k
  {
  }

  lemma ShortenedMore(k: Shuffling.Shuffler, n: nat)
    requires n < |k.rest| <= k.size
    ensures Shortened(k, n).size >= 1 && Shuffling.Remove(Shortened(k, n), 1) == Shortened(k, n + 1)
  {
  }

  lemma ShortenedIsRestored(k: Shuffling.Shuffler, j: nat)
    requires Shuffling.Valid(k)
    ensures var e := Shuffling.Add(k, j, true);
            j <= |e.rest| <= e.size == k.size + j && Restored(k, Shortened(e, j), j)
  {
    Shuffling.AddNone(k);
    Shuffling.AddIs(k, j, true);
  }

  /** A load that fails in mid-cycle, after `j > 0` additions: the positions are as before.  The rest of
      the cycle avoids those drawn before if and only if they all lie at or above the residue, and brings
      the others if and only if those lie below it. */
  lemma RollBackRepeats(k: Shuffling.Shuffler, e: Shuffling.Shuffler, j: nat, drawn: seq<nat>)
    requires Restored(k, e, j) && j > 0
    ensures (forall v :: v in e.rest ==> v !in drawn) <==> (forall d :: d in drawn ==> d >= |k.rest|)
    ensures (forall d: nat :: d < k.size && d !in drawn ==> d in e.rest) <==>
            (forall d: nat :: d < k.size && d !in drawn ==> d < |k.rest|)
  {
    forall v: nat
      ensures v in e.rest <==> v < |k.rest|
    {
      Shuffling.InIdent(|k.rest|, v);
    }
  }

  /** The two go together if drawn and remaining positions partitioned the tracks. */
  lemma RollBackKeepsCycle(k: Shuffling.Shuffler, e: Shuffling.Shuffler, j: nat, drawn: seq<nat>)
    requires Restored(k, e, j) && j > 0 && Shuffling.Valid(k) && Shuffling.Splits(k, drawn)
    ensures (forall v :: v in e.rest ==> v !in drawn) <==>
            (forall d: nat :: d < k.size && d !in drawn ==> d in e.rest)
  {
    forall v: nat
      ensures v in e.rest <==> v < |k.rest|
    {
      Shuffling.InIdent(|k.rest|, v);
    }
    if forall v :: v in e.rest ==> v !in drawn {
      Exhausts(e.rest, k.rest);
    } else if forall d: nat :: d < k.size && d !in drawn ==> d in e.rest {
      Exhausts(k.rest, e.rest);
    }
  }

  /** Vector `v` is `v0` with tracks of the given URIs appended. */
  ghost predicate Appended(v0: seq<Media>, v: seq<Media>, uris: seq<string>) {
    |v| == |v0| + |uris| && v[..|v0|] == v0 && UriList(v[|v0|..]) == uris
  }

  lemma AppendedIs(v0: seq<Media>, v: seq<Media>, uris: seq<string>)
    requires Appended(v0, v, uris)
    ensures |v| == |v0| + |uris| && v0 <= v && v[..|v0|] == v0 && UriList(v[|v0|..]) == uris
  {
  }

  /** A load with the given report: on success the tracks are appended and the shuffler has as many more,
      on failure the tracks are as before. */
  ghost predicate Loads(report: Report, v0: seq<Media>, v: seq<Media>,
                        k0: Shuffling.Shuffler, k: Shuffling.Shuffler) {
    if report.ok then v0 <= v && UriList(v[|v0|..]) == report.uris && k == Shuffling.Add(k0, |report.uris|, true)
    else v == v0 && Restored(k0, k, |report.uris|)
  }

  lemma LoadsIs(k0: Shuffling.Shuffler, v0: seq<Media>, v: seq<Media>, uris: seq<string>)
    requires Shuffling.Valid(k0) && Appended(v0, v, uris)
    ensures var k := Shuffling.Add(k0, |uris|, true);
            && |v| == |v0| + |uris| && v[..|v0|] == v0 && |uris| <= |k.rest| <= k.size == k0.size + |uris|
            && Loads(Report(uris, true), v0, v, k0, k)
            && Loads(Report(uris, false), v0, v0, k0, Shortened(k, |uris|))
  {
    AppendedIs(v0, v, uris);
    ShortenedIsRestored(k0, |uris|);
  }

  lemma AppendedOne(v0: seq<Media>, v: seq<Media>, uris: seq<string>, w: seq<Media>)
    requires Appended(v0, v, uris) && |w| == |v| + 1 && w[..|w| - 1] == v
    ensures Appended(v0, w, uris + [w[|v|].uri])
  {
  }

  /** With `rest` still to be read, `uris` have been added and the shuffler is `k`. */
  ghost predicate Progress(text: string, k0: Shuffling.Shuffler, env: Env,
                           rest: string, k: Shuffling.Shuffler, n: nat, uris: seq<string>) {
    var later := Loading.Run(rest, k, env, n);
    && Loading.Run(text, k0, env, 0) == Report(uris + later.uris, later.ok)
    && n == |uris| && k == Shuffling.Add(k0, n, true)
  }

  lemma ProgressLine(text: string, k0: Shuffling.Shuffler, env: Env,
                     rest: string, k: Shuffling.Shuffler, n: nat, uris: seq<string>)
    requires rest != [] && Progress(text, k0, env, rest, k, n, uris) && Shuffling.Valid(k0)
    ensures var length := PlaylistText.LineLength(rest);
            var later := rest[length..];
            match PlaylistText.ParseLine(rest[..length])
            case Skipped => Progress(text, k0, env, later, k, n, uris) && Entries(later) == Entries(rest)
            case Entry(entry) =>
              var uri := Added(entry, k, env.realpath, env.outcome(n));
              && Entries(later) + 1 == Entries(rest)
              && if uri.None? then Loading.Run(text, k0, env, 0) == Report(uris, false)
                 else Progress(text, k0, env, later, Shuffling.Add(k, 1, env.outcome(n).alloc), n + 1,
                               uris + [uri.value])
  {
    hide PlaylistText.ParseLine, PlaylistText.LineLength, Uris.New, Uris.IsOk, Uris.IsAbsolute;
    hide Shuffling.Add, Shuffling.AddSucceeds, Shuffling.Valid;
    var length := PlaylistText.LineLength(rest);
    var line := PlaylistText.ParseLine(rest[..length]);
    if line.Entry? {
      var uri := Added(line.text, k, env.realpath, env.outcome(n));
      if uri.Some? {
        Shuffling.AddOneMore(k0, n, env.outcome(n).alloc);
        var later := Loading.Run(rest[length..], Shuffling.Add(k, 1, env.outcome(n).alloc), env, n + 1);
        assert uris + ([uri.value] + later.uris) == (uris + [uri.value]) + later.uris;
      }
    }
  }

  lemma LoadStarts(text: string, k: Shuffling.Shuffler, env: Env, v: seq<Media>)
    requires Shuffling.Valid(k)
    ensures Progress(text, k, env, text, k, 0, []) && Appended(v, v, [])
  {
    Shuffling.AddNone(k);
  }

  lemma LoadFacts(text: string, k0: Shuffling.Shuffler, env: Env,
                  rest: string, k: Shuffling.Shuffler, n: nat, uris: seq<string>, v0: seq<Media>, v: seq<Media>)
    requires Progress(text, k0, env, rest, k, n, uris) && Appended(v0, v, uris)
    ensures n == |uris| && k == Shuffling.Add(k0, n, true)
    ensures |v| == |v0| + |uris| && v[..|v0|] == v0 && UriList(v[|v0|..]) == uris
    ensures rest == [] ==> Loading.Run(text, k0, env, 0) == Report(uris, true)
  {
  }

  /** No media leaves the account. */
  ghost predicate Grows(arena: Arena, before: set<Media>)
    reads arena
  {
    before <= arena.all
  }

  class Playlist {
    var vec: seq<Media>
    const reader: TagReader
    const kfy: KfyBuffer.Kfy
    var index: nat
    var repeat: bool
    var shuffle: bool

    ghost predicate Valid()
      reads this, kfy, kfy.a
    {
      kfy.Valid() && kfy.state.size == |vec| < INT_LIMIT && index < U32
    }

    ghost function State(): PlayState<Media>
      reads this, kfy
    {
      PlayState(vec, kfy.state, index, repeat, shuffle)
    }

    /** Conservation: every reference in the arena is one of `others`, or of the vector (one for each
        occurrence), or of the pending-tag map. */
    ghost predicate Balanced(arena: Arena, others: multiset<Media>)
      reads this`vec, reader, arena, arena.all`refCount, arena.all`frees
    {
      reader.Valid() && arena.Valid() && arena.held == others + multiset(vec) + reader.owned
    }

    /** While the cycle is whole, what the buffer has recorded as drawn and what it holds partition the
        tracks: the results on removals apply. */
    lemma StateIsValid()
      requires Valid()
      ensures PlaylistModel.Valid(State())
      ensures kfy.history.intact ==> Shuffling.Splits(State().k, kfy.history.drawn)
    {
      if kfy.history.intact {
        Shuffling.PartitionSplits(kfy.history);
      }
    }

    /** Any reference in the account is one to a live object. */
    lemma IsAlive(arena: Arena, others: multiset<Media>, m: Media)
      requires Balanced(arena, others) && (m in others || m in vec)
      ensures m in arena.held && m in arena.all && m.refCount > 0 && m.frees == 0
    {
    }

    constructor (ghost arena: Arena)
      requires arena.Valid()
      ensures Valid() && Balanced(arena, arena.held) && State() == PlaylistModel.Empty()
      ensures fresh(reader) && fresh(kfy) && fresh(kfy.a)
    {
      vec := [];
      reader := new TagReader();
      kfy := new KfyBuffer.Kfy(0);
      index := NONE;
      repeat, shuffle := false, false;
    }

    /** The first step of adding a media: unless it is parsed, the tag reader may take a reference. */
    method RequestTags(m: Media, o: AddOutcome, ghost arena: Arena, ghost others: multiset<Media>)
      requires Balanced(arena, others) && m in others
      modifies reader, m`refCount, m`frees, arena`held
      ensures Balanced(arena, others)
      ensures reader.pending == Filed(old(reader.pending), m, m.parsed, o)
    {
      if !m.parsed {
        reader.ReadAsync(m, o.insert, o.discover, arena, others + multiset(vec));
      }
    }

    /** The second step: the vector takes a reference if it can grow. */
    method Push(m: Media, room: bool, ghost arena: Arena, ghost others: multiset<Media>)
      requires Balanced(arena, others) && m in others
      modifies this`vec, m`refCount, m`frees, arena`held
      ensures Balanced(arena, others)
      ensures vec == if room then old(vec) + [m] else old(vec)
    {
      hide Arena.Valid, TagReader.Valid;
      HandOver(others, reader.owned, vec, m);
      Ref(m, arena);
      if room {
        vec := vec + [m];
      } else {
        Unref(m, arena);
      }
    }

    method Enter(m: Media, o: AddOutcome, ghost arena: Arena, ghost others: multiset<Media>)
      requires Balanced(arena, others) && m in others
      modifies this`vec, reader, m`refCount, m`frees, arena`held
      ensures Balanced(arena, others)
      ensures vec == if o.vector then old(vec) + [m] else old(vec)
      ensures reader.pending == Filed(old(reader.pending), m, m.parsed, o)
    {
      RequestTags(m, o, arena, others);
      Push(m, o.vector, arena, others);
    }

    /** `vector_take_at` and `media_unref` */
    method Pull(p: nat, m: Media, ghost arena: Arena, ghost others: multiset<Media>)
      requires Balanced(arena, others) && p < |vec| && vec[p] == m
      modifies this`vec, m`refCount, m`frees, arena`held
      ensures Balanced(arena, others) && vec == RemoveAt(old(vec), p)
    {
      TakenOut(others, reader.owned, vec, p);
      vec := RemoveAt(vec, p);
      Unref(m, arena);
    }

    /** The third step, once the vector has the track: the shuffler grows, or the track is taken out
        again. */
    method Grow(m: Media, alloc: bool, ghost arena: Arena, ghost others: multiset<Media>) returns (ok: bool)
      requires kfy.Valid() && kfy.state.size + 1 == |vec| < INT_LIMIT && vec[|vec| - 1] == m
      requires Balanced(arena, others)
      modifies this`vec, kfy, kfy.a, m`refCount, m`frees, arena`held
      ensures Balanced(arena, others) && kfy.Valid() && (kfy.a == old(kfy.a) || fresh(kfy.a))
      ensures ok == Shuffling.AddSucceeds(old(kfy.state), 1, alloc)
      ensures kfy.state == Shuffling.Add(old(kfy.state), 1, alloc)
      ensures vec == if ok then old(vec) else old(vec)[..|old(vec)| - 1]
    {
      assert kfy.size == kfy.state.size;
      hide Arena.Valid, TagReader.Valid, KfyBuffer.Kfy.Valid, Balanced;
      ok := kfy.Add(1, alloc);
      if !ok {
        Pull(|vec| - 1, m, arena, others);
      }
    }

    /** `media_unref` of a reference the caller owns. */
    method Drop(m: Media, ghost arena: Arena, ghost others: multiset<Media>)
      requires Balanced(arena, others + multiset{m})
      modifies m`refCount, m`frees, arena`held
      ensures Balanced(arena, others)
    {
      HandOver(others, reader.owned, vec, m);
      Unref(m, arena);
    }

    /** `playlist_add_media` */
    method AddMedia(m: Media, o: AddOutcome, ghost arena: Arena, ghost others: multiset<Media>) returns (ok: bool)
      requires Valid() && Balanced(arena, others) && m in others && |vec| + 1 < INT_LIMIT
      modifies this`vec, reader, kfy, kfy.a, m`refCount, m`frees, arena`held
      ensures Valid() && Balanced(arena, others) && (kfy.a == old(kfy.a) || fresh(kfy.a))
      ensures ok == (o.vector && Shuffling.AddSucceeds(old(State()).k, 1, o.alloc))
      ensures State() == Append(old(State()), m, o.vector, o.alloc)
      ensures reader.pending == if !m.parsed && o.insert && o.discover && m.uri !in old(reader.pending)
                                then old(reader.pending)[m.uri := m] else old(reader.pending)
    {
      hide Arena.Valid, TagReader.Valid, KfyBuffer.Kfy.Valid, Balanced, Shuffling.AddSucceeds, Shuffling.CapacityFor;
      Enter(m, o, arena, others);
      if !o.vector {
        return false;
      }
      ok := Grow(m, o.alloc, arena, others);
      assert !ok ==> vec == old(vec);
    }

    /** `playlist_add`.  `resolved` is what `realpath` answers for `path`. */
    method Add(path: string, resolved: Option<string>, o: AddOutcome, ghost arena: Arena, ghost others: multiset<Media>)
      returns (ok: bool)
      requires Valid() && Balanced(arena, others) && |vec| + 1 < INT_LIMIT && Uris.Resolves(resolved)
      modifies this`vec, reader, kfy, kfy.a, arena
      ensures Valid() && Balanced(arena, others) && (kfy.a == old(kfy.a) || fresh(kfy.a))
      ensures Grows(arena, old(arena.all))
      ensures forall x :: x in arena.all ==> x in old(arena.all) || fresh(x)
      ensures var uri := Uris.New(path, resolved, o.media);
              && ok == (uri.Some? && o.vector && Shuffling.AddSucceeds(old(kfy.state), 1, o.alloc))
              && (ok ==> |vec| == |old(vec)| + 1 && vec[..|vec| - 1] == old(vec) && Some(vec[|vec| - 1].uri) == uri)
      ensures !ok ==> vec == old(vec)
      ensures Distinct(old(vec)) ==> Distinct(vec)
      ensures Requests(old(reader.pending), reader.pending, Uris.New(path, resolved, o.media), o)
      ensures kfy.state == if ok then Shuffling.Add(old(kfy.state), 1, o.alloc) else old(kfy.state)
    {
      hide Arena.Valid, TagReader.Valid, KfyBuffer.Kfy.Valid, Uris.New, Uris.IsHttp, Distinct;
      var m := New(path, resolved, o.media, arena);
      if m == null {
        return false;
      }
      FiledRequests(reader.pending, m, o);
      hide Requests, Filed;
      assert m !in vec;
      ok := AddOwn(m, o, arena, others);
      if Distinct(old(vec)) {
        DistinctSnoc<Media>(old(vec), m);
      }
    }

    /** Adds a media and gives up the caller's reference. */
    method AddOwn(m: Media, o: AddOutcome, ghost arena: Arena, ghost others: multiset<Media>) returns (ok: bool)
      requires Valid() && Balanced(arena, others + multiset{m}) && |vec| + 1 < INT_LIMIT
      modifies this`vec, reader, kfy, kfy.a, m`refCount, m`frees, arena`held
      ensures Valid() && Balanced(arena, others) && (kfy.a == old(kfy.a) || fresh(kfy.a))
      ensures arena.all == old(arena.all)
      ensures ok == (o.vector && Shuffling.AddSucceeds(old(kfy.state), 1, o.alloc))
      ensures vec == if ok then old(vec) + [m] else old(vec)
      ensures reader.pending == Filed(old(reader.pending), m, m.parsed, o)
      ensures kfy.state == if ok then Shuffling.Add(old(kfy.state), 1, o.alloc) else old(kfy.state)
    {
      hide Arena.Valid, TagReader.Valid, KfyBuffer.Kfy.Valid, Balanced, Shuffling.AddSucceeds, Shuffling.Add;
      ok := AddMedia(m, o, arena, others + multiset{m});
      Drop(m, arena, others);
    }

    /** `playlist_remove` */
    method Remove(index: int, ghost arena: Arena, ghost others: multiset<Media>)
      requires Valid() && Balanced(arena, others)
      modifies this`vec, kfy, kfy.a, arena.all`refCount, arena.all`frees, arena`held
      ensures Valid() && Balanced(arena, others) && kfy.a == old(kfy.a)
      ensures State() == PlaylistModel.Remove(old(State()), index)
    {
      hide Arena.Valid, TagReader.Valid, Shuffling.Valid, Shuffling.IsCapacity, Resolve;
      var i := Resolve(|vec|, index);
      if i < |vec| {
        var m := vec[i];
        IsAlive(arena, others, m);
        Pull(i, m, arena, others);
        kfy.Remove(1);
      }
    }

    /** One entry of a playlist file. */
    method LoadEntry(entry: string, env: Env, n: nat, ghost arena: Arena, ghost others: multiset<Media>)
      returns (ok: bool)
      requires Valid() && Balanced(arena, others) && |vec| + 1 < INT_LIMIT && Uris.Resolves(env.realpath(entry))
      modifies this`vec, reader, kfy, kfy.a, arena
      ensures Valid() && Balanced(arena, others) && (kfy.a == old(kfy.a) || fresh(kfy.a))
      ensures Grows(arena, old(arena.all))
      ensures forall x :: x in arena.all ==> x in old(arena.all) || fresh(x)
      ensures var uri := Added(entry, old(kfy.state), env.realpath, env.outcome(n));
              && ok == uri.Some?
              && (ok ==> |vec| == |old(vec)| + 1 && vec[..|vec| - 1] == old(vec) && vec[|vec| - 1].uri == uri.value)
              && (ok ==> Requests(old(reader.pending), reader.pending, uri, env.outcome(n)))
      ensures Keeps(old(reader.pending), reader.pending)
      ensures !ok ==> vec == old(vec)
      ensures Distinct(old(vec)) ==> Distinct(vec)
      ensures kfy.state == if ok then Shuffling.Add(old(kfy.state), 1, env.outcome(n).alloc) else old(kfy.state)
    {
      hide Arena.Valid, TagReader.Valid, KfyBuffer.Kfy.Valid, Uris.New, Distinct, Requests, Keeps;
      RequestsKeeps(reader.pending, reader.pending, None, env.outcome(n));
      if !Uris.IsAbsolute(entry) && !Uris.IsOk(entry) {
        return false;
      }
      ok := Add(entry, env.realpath(entry), env.outcome(n), arena, others);
      var uri := Uris.New(entry, env.realpath(entry), env.outcome(n).media);
      RequestsKeeps(old(reader.pending), reader.pending, uri, env.outcome(n));
    }

    /** `playlist_remove(pl, -1)` */
    method RemoveLast(ghost arena: Arena, ghost others: multiset<Media>)
      requires Valid() && Balanced(arena, others) && vec != []
      modifies this`vec, kfy, kfy.a, arena.all`refCount, arena.all`frees, arena`held
      ensures Valid() && Balanced(arena, others) && kfy.a == old(kfy.a)
      ensures vec == old(vec)[..|old(vec)| - 1] && kfy.state == Shuffling.Remove(old(kfy.state), 1)
    {
      hide Arena.Valid, TagReader.Valid, KfyBuffer.Kfy.Valid, Balanced, Shuffling.Remove;
      ResolveIs(|vec|, -1);
      Remove(-1, arena, others);
    }

    /** The clean-up loop: tracks are removed from the end until the old size is reached. */
    method RollBack(size: nat, ghost arena: Arena, ghost others: multiset<Media>)
      requires Valid() && Balanced(arena, others) && size <= |vec|
      requires |vec| - size <= |kfy.state.rest| <= kfy.state.size
      modifies this`vec, kfy, kfy.a, arena.all`refCount, arena.all`frees, arena`held
      ensures Valid() && Balanced(arena, others) && kfy.a == old(kfy.a) && arena.all == old(arena.all)
      ensures vec == old(vec)[..size]
      ensures kfy.state == Shortened(old(kfy.state), |old(vec)| - size)
    {
      hide Arena.Valid, TagReader.Valid, KfyBuffer.Kfy.Valid, Balanced, Shortened, Shuffling.Remove;
      ShortenedStarts(kfy.state);
      while |vec| != size
        invariant Valid() && Balanced(arena, others) && kfy.a == old(kfy.a)
        invariant size <= |vec| <= |old(vec)| && vec == old(vec)[..|vec|]
        invariant kfy.state == Shortened(old(kfy.state), |old(vec)| - |vec|)
        decreases |vec|
      {
        ShortenedMore(old(kfy.state), |old(vec)| - |vec|);
        RemoveLast(arena, others);
      }
    }

    /** One line of a playlist file.  Its entry, if any, is added behind `uris`, or the load ends. */
    method LoadLine(rest: string, env: Env, n: nat, ghost text: string, ghost k0: Shuffling.Shuffler,
                    ghost v0: seq<Media>, ghost uris: seq<string>, ghost arena: Arena, ghost others: multiset<Media>)
      returns (ok: bool, next: nat, ghost more: seq<string>)
      requires Valid() && Balanced(arena, others) && rest != [] && |vec| + Entries(rest) < INT_LIMIT
      requires forall p :: Uris.Resolves(env.realpath(p))
      requires Progress(text, k0, env, rest, kfy.state, n, uris) && Appended(v0, vec, uris)
      requires Shuffling.Valid(k0) && |v0| + n == |vec| && AllFiled(vec, |v0|, env, reader.pending)
      modifies this`vec, reader, kfy, kfy.a, arena
      ensures Valid() && Balanced(arena, others) && (kfy.a == old(kfy.a) || fresh(kfy.a))
      ensures Grows(arena, old(arena.all))
      ensures forall x :: x in arena.all ==> x in old(arena.all) || fresh(x)
      ensures var later := rest[PlaylistText.LineLength(rest)..];
              if ok then
                && |vec| + Entries(later) < INT_LIMIT
                && Progress(text, k0, env, later, kfy.state, next, more) && Appended(v0, vec, more)
                && |v0| + next == |vec| && AllFiled(vec, |v0|, env, reader.pending)
              else
                && Loading.Run(text, k0, env, 0) == Report(uris, false)
                && vec == old(vec) && kfy.state == old(kfy.state)
      ensures Distinct(old(vec)) ==> Distinct(vec)
      ensures Keeps(old(reader.pending), reader.pending)
    {
      hide Arena.Valid, TagReader.Valid, KfyBuffer.Kfy.Valid, Balanced, Progress, Appended, Distinct;
      hide Requests, AllFiled, Loading.Run, Loading.Entries, Loading.Added, Shuffling.Add, PlaylistText.ParseLine;
      RequestsKeeps(reader.pending, reader.pending, None, env.outcome(n));
      hide Keeps;
      ok, next, more := true, n, uris;
      ghost var v := vec;
      ProgressLine(text, k0, env, rest, kfy.state, n, uris);
      var line := PlaylistText.TrimLine(rest[..PlaylistText.LineLength(rest)]);
      if line.Entry? {
        ok := LoadEntry(line.text, env, n, arena, others);
        if ok {
          AppendedOne(v0, v, uris, vec);
          AllFiledMore(v, vec, |v0|, env, old(reader.pending), reader.pending);
          more := uris + [vec[|v|].uri];
          next := n + 1;
        }
      }
    }

    /** The loop over the lines, up to the end of the file or the first failure. */
    method LoadLines(text: string, env: Env, ghost arena: Arena, ghost others: multiset<Media>)
      returns (ok: bool, ghost uris: seq<string>)
      requires Valid() && Balanced(arena, others) && |vec| + Entries(text) < INT_LIMIT
      requires Shuffling.Valid(kfy.state) && forall p :: Uris.Resolves(env.realpath(p))
      modifies this`vec, reader, kfy, kfy.a, arena
      ensures Valid() && Balanced(arena, others) && (kfy.a == old(kfy.a) || fresh(kfy.a))
      ensures Grows(arena, old(arena.all))
      ensures forall x :: x in arena.all ==> x in old(arena.all) || fresh(x)
      ensures Loading.Run(text, old(kfy.state), env, 0) == Report(uris, ok)
      ensures Appended(old(vec), vec, uris) && kfy.state == Shuffling.Add(old(kfy.state), |uris|, true)
      ensures ok ==> AllFiled(vec, |old(vec)|, env, reader.pending)
      ensures Distinct(old(vec)) ==> Distinct(vec)
      ensures Keeps(old(reader.pending), reader.pending)
    {
      hide Arena.Valid, TagReader.Valid, KfyBuffer.Kfy.Valid, Balanced, Progress, Appended, Distinct;
      hide Loading.Run, Loading.Entries, Shuffling.Add, Shuffling.Valid;
      assert AllFiled(vec, |vec|, env, reader.pending);
      RequestsKeeps(reader.pending, reader.pending, None, env.outcome(0));
      hide AllFiled, Keeps;
      ghost var v0, k0, pending0 := vec, kfy.state, reader.pending;
      var rest, n := text, 0;
      uris := [];
      LoadStarts(text, k0, env, v0);
      while rest != []
        invariant Valid() && Balanced(arena, others) && (kfy.a == old(kfy.a) || fresh(kfy.a))
        invariant Grows(arena, old(arena.all))
        invariant forall x :: x in arena.all ==> x in old(arena.all) || fresh(x)
        invariant |vec| + Entries(rest) < INT_LIMIT
        invariant Appended(v0, vec, uris) && (Distinct(v0) ==> Distinct(vec))
        invariant Progress(text, k0, env, rest, kfy.state, n, uris)
        invariant |v0| + n == |vec| && AllFiled(vec, |v0|, env, reader.pending)
        invariant Keeps(pending0, reader.pending)
        decreases |rest|
      {
        LoadFacts(text, k0, env, rest, kfy.state, n, uris, v0, vec);
        ghost var more, before := uris, reader.pending;
        ok, n, more := LoadLine(rest, env, n, text, k0, v0, uris, arena, others);
        KeepsTwice(pending0, before, reader.pending);
        if !ok {
          return;
        }
        uris := more;
        rest := rest[PlaylistText.LineLength(rest)..];
      }
      LoadFacts(text, k0, env, rest, kfy.state, n, uris, v0, vec);
      ok := true;
    }

    /** `playlist_load_file`.  Either every entry is added, or the file is rejected and the tracks,
        the current index and the modes are as before, with the shuffler's size and residue length. */
    method LoadFile(text: string, env: Env, ghost arena: Arena, ghost others: multiset<Media>) returns (ok: bool)
      requires Valid() && Balanced(arena, others) && |vec| + Entries(text) < INT_LIMIT
      requires forall p :: Uris.Resolves(env.realpath(p))
      modifies this`vec, reader, kfy, kfy.a, arena, arena.all`refCount, arena.all`frees
      ensures Valid() && Balanced(arena, others) && (kfy.a == old(kfy.a) || fresh(kfy.a))
      ensures Grows(arena, old(arena.all))
      ensures forall x :: x in arena.all ==> x in old(arena.all) || fresh(x)
      ensures ok == Loading.Run(text, old(kfy.state), env, 0).ok
      ensures Loads(Loading.Run(text, old(kfy.state), env, 0), old(vec), vec, old(kfy.state), kfy.state)
      ensures ok ==> AllFiled(vec, |old(vec)|, env, reader.pending)
      ensures Keeps(old(reader.pending), reader.pending)
      ensures Distinct(old(vec)) ==> Distinct(vec)
    {
      assert Shuffling.Valid(kfy.state);
      hide Arena.Valid, TagReader.Valid, KfyBuffer.Kfy.Valid, Balanced, Distinct, Appended;
      hide Loading.Run, Loading.Entries, Loads, Shortened, Shuffling.Add, Shuffling.Valid, AllFiled, Keeps;
      var oldSize := |vec|;
      ghost var uris;
      ok, uris := LoadLines(text, env, arena, others);
      LoadsIs(old(kfy.state), old(vec), vec, uris);
      if !ok {
        RollBack(oldSize, arena, others);
      }
    }

    /** `playlist_remove_array` */
    method RemoveArray(indices: array<int>, ghost arena: Arena, ghost others: multiset<Media>)
      requires Valid() && Balanced(arena, others)
      requires forall i :: 0 <= i < indices.Length ==> IsInt(indices[i])
      requires indices as object != kfy.a
      modifies this`vec, kfy, kfy.a, arena.all`refCount, arena.all`frees, arena`held, indices
      ensures Valid() && Balanced(arena, others) && kfy.a == old(kfy.a)
      ensures State() == BatchRemoval.RemoveArray(old(State()), old(indices[..])) && arena.all == old(arena.all)
      ensures Distinct(old(vec)) ==> Distinct(vec)
    {
      hide Arena.Valid, TagReader.Valid, KfyBuffer.Kfy.Valid, Balanced, PlaylistModel.Remove, Distinct;
      if Distinct(vec) {
        BatchRemoval.RemoveArrayKeepsDistinct(State(), indices[..]);
      }
      if indices.Length == 0 || |vec| == 0 {
        return;
      }
      BatchRemoval.NormaliseInPlace(indices, |vec|);
      BatchRemoval.QSort(indices);
      ghost var xs := indices[..];
      Remove(indices[0], arena, others);
      var i := 1;
      while i < indices.Length
        invariant 1 <= i <= indices.Length && indices[..] == xs
        invariant Valid() && Balanced(arena, others) && kfy.a == old(kfy.a)
        invariant BatchRemoval.RemoveRest(State(), xs[i - 1], xs[i..])
                  == BatchRemoval.RemoveArray(old(State()), old(indices[..]))
      {
        assert xs[i..][1..] == xs[i + 1..];
        if indices[i - 1] != indices[i] {
          Remove(indices[i], arena, others);
        }
        i := i + 1;
      }
    }

    method EmptyShuffler()
      requires kfy.Valid()
      modifies kfy, kfy.a
      ensures kfy.Valid() && kfy.a == old(kfy.a)
      ensures kfy.state == Shuffling.Remove(old(kfy.state), old(kfy.state.size)) && kfy.state.size == 0
    {
      assert kfy.size == kfy.state.size;
      hide KfyBuffer.Kfy.Valid;
      kfy.Remove(kfy.size);
    }

    /** `playlist_clear` */
    method Clear(ghost arena: Arena, ghost others: multiset<Media>)
      requires Valid() && Balanced(arena, others)
      modifies this`vec, this`index, kfy, kfy.a, arena.all`refCount, arena.all`frees, arena`held
      ensures Valid() && Balanced(arena, others) && kfy.a == old(kfy.a)
      ensures State() == PlaylistModel.Clear(old(State())) && vec == [] && arena.all == old(arena.all)
    {
      hide Arena.Valid, TagReader.Valid, KfyBuffer.Kfy.Valid, Balanced, Shuffling.Remove;
      EmptyShuffler();
      ReleaseAll(arena, others);
      index := NONE;
    }

    /** `vector_clear`: every element is given up. */
    method ReleaseAll(ghost arena: Arena, ghost others: multiset<Media>)
      requires Balanced(arena, others)
      modifies this`vec, arena.all`refCount, arena.all`frees, arena`held
      ensures Balanced(arena, others) && vec == []
    {
      hide Arena.Valid, TagReader.Valid;
      while |vec| > 0
        invariant Balanced(arena, others)
      {
        var last := |vec| - 1;
        TakenOut(others, reader.owned, vec, last);
        IsAlive(arena, others, vec[last]);
        Pull(last, vec[last], arena, others);
      }
    }

    /** `playlist_save`.  `writable` is the outcome of opening the file; without it nothing is written. */
    method Save(writable: bool) returns (text: Option<string>)
      ensures text == if writable then Some(PlaylistText.Save(UriList(vec))) else None
    {
      if !writable {
        return None;
      }
      var written := "";
      var i := 0;
      while i < |vec|
        invariant i <= |vec|
        invariant written + PlaylistText.Save(UriList(vec)[i..]) == PlaylistText.Save(UriList(vec))
      {
        var uris := UriList(vec);
        assert uris[i..][0] == vec[i].uri && uris[i..][1..] == uris[i + 1..];
        written := written + (vec[i].uri + "\n");
        i := i + 1;
      }
      assert UriList(vec)[i..] == [] && written + [] == written;
      return Some(written);
    }

    method SetIndex(index: int)
      requires Valid()
      modifies this`index
      ensures Valid() && State() == PlaylistModel.SetIndex(old(State()), index)
      ensures this.index == Resolve(|vec|, index)
    {
      this.index := Resolve(|vec|, index);
    }

    method SetModes(repeat: bool, shuffle: bool)
      requires Valid()
      modifies this`repeat, this`shuffle
      ensures Valid() && State() == old(State()).(repeat := repeat, shuffle := shuffle)
    {
      this.repeat := repeat;
      this.shuffle := shuffle;
    }

    /** `playlist_at`: the caller gets a reference of its own. */
    method At(index: int, ghost arena: Arena, ghost others: multiset<Media>) returns (m: Media?)
      requires Valid() && Balanced(arena, others)
      modifies arena.all`refCount, arena`held
      ensures m == null <==> Resolve(|vec|, index) >= |vec|
      ensures m != null ==> m == vec[Resolve(|vec|, index)] && m in arena.all
      ensures Balanced(arena, if m == null then others else others + multiset{m})
    {
      var i := Resolve(|vec|, index);
      if i >= |vec| {
        return null;
      }
      m := vec[i];
      IsAlive(arena, others, m);
      HandOver(others, reader.owned, vec, m);
      Ref(m, arena);
    }

    /** `playlist_next` */
    method Next(pick: Pick) returns (track: nat)
      requires Valid() && CanNext(State(), pick)
      modifies this`index, kfy, kfy.a
      ensures Valid() && (kfy.a == old(kfy.a) || fresh(kfy.a))
      ensures (State(), track) == PlaylistModel.Next(old(State()), pick)
      ensures track == NONE || track < |vec|
    {
      if |vec| == 0 {
        return NONE;
      }
      if shuffle {
        if kfy.CycleDone() && !repeat {
          kfy.Reset(pick.alloc);
          return NONE;
        }
        index := kfy.Shuffle(pick.r, pick.alloc);
        assert index < |vec|;
        return index;
      }
      index := ToU32(index + 1);
      if index >= |vec| {
        if !repeat {
          index := NONE;
          return index;
        }
        index := 0;
      }
      return index;
    }

    /** `playlist_sort`: `sorted` is the order `vector_sort` finds. */
    method Sort(sorted: seq<Media>, alloc: bool, ghost arena: Arena, ghost others: multiset<Media>)
      requires Valid() && Balanced(arena, others) && multiset(sorted) == multiset(vec)
      modifies this`vec, this`index, kfy, kfy.a
      ensures Valid() && Balanced(arena, others) && (kfy.a == old(kfy.a) || fresh(kfy.a))
      ensures State() == PlaylistModel.Sort(old(State()), sorted, alloc) && vec == sorted
    {
      hide Arena.Valid, TagReader.Valid, KfyBuffer.Kfy.Valid, Shuffling.CapacityFor;
      Shuffling.SameLength(sorted, vec);
      vec := sorted;
      kfy.Reset(alloc);
      index := NONE;
    }

    /** `playlist_destroy`: the playlist gives up every reference it holds. */
    method Destroy(ghost arena: Arena, ghost others: multiset<Media>)
      requires Balanced(arena, others)
      modifies this`vec, reader, arena.all`refCount, arena.all`frees, arena`held
      ensures arena.Valid() && arena.held == others
    {
      reader.Destroy(arena, others + multiset(vec));
      ReleaseAll(arena, others);
    }
  }
}
