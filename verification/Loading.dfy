/** Loading a playlist file track by track, with every way it can fail. */
module Loading {
  import opened Words
  import PlaylistText
  import Shuffling
  import Uris

  /** Which of the steps of adding a track succeed, should they be reached: allocating the media,
      filing it for its tags, starting the discovery, growing the vector, growing the shuffler. */
  datatype AddOutcome = AddOutcome(media: bool, insert: bool, discover: bool, vector: bool, alloc: bool)

  /** What lies outside the program: `realpath`, and the outcomes of the `n`-th addition. */
  datatype Env = Env(realpath: string -> Option<string>, outcome: nat -> AddOutcome)

  /** The tracks added before the end of the file or the first failure, and whether it succeeded. */
  datatype Report = Report(uris: seq<string>, ok: bool)

  /** The URI under which an entry is added, or None if that fails. */
  function Added(text: string, k: Shuffling.Shuffler, realpath: string -> Option<string>, o: AddOutcome)
    : Option<string>
  {
    if !Uris.IsAbsolute(text) && !Uris.IsOk(text) then None
    else
      var uri := Uris.New(text, realpath(text), o.media);
      if o.vector && Shuffling.AddSucceeds(k, 1, o.alloc) then uri else None
  }

  /** `n` counts the additions attempted so far. */
  function Run(text: string, k: Shuffling.Shuffler, env: Env, n: nat): Report
    decreases |text|
  {
    if text == [] then Report([], true)
    else
      var length := PlaylistText.LineLength(text);
      match PlaylistText.ParseLine(text[..length])
      case Skipped => Run(text[length..], k, env, n)
      case Entry(entry) =>
        var uri := Added(entry, k, env.realpath, env.outcome(n));
        if uri.None? then Report([], false)
        else
          var later := Run(text[length..], Shuffling.Add(k, 1, env.outcome(n).alloc), env, n + 1);
          Report([uri.value] + later.uris, later.ok)
  }

  function Entries(text: string): nat
    decreases |text|
  {
    if text == [] then 0
    else
      var length := PlaylistText.LineLength(text);
      (if PlaylistText.ParseLine(text[..length]).Skipped? then 0 else 1) + Entries(text[length..])
  }

  ghost predicate Plentiful(env: Env) {
    forall i :: env.outcome(i).media && env.outcome(i).vector && env.outcome(i).alloc
  }

  /** An addition takes all of its steps, and then the URI is the one the entry stands for. */
  lemma AddedIs(text: string, k: Shuffling.Shuffler, realpath: string -> Option<string>, o: AddOutcome)
    ensures Added(text, k, realpath, o).Some? <==>
            && o.media && o.vector && (k.size + 1 < k.capacity || o.alloc)
            && PlaylistText.Accept(text, realpath).Some?
    ensures Added(text, k, realpath, o).Some? ==> Added(text, k, realpath, o) == PlaylistText.Accept(text, realpath)
  {
  }

  /** Whatever fails, the tracks added before are the first ones of the file; loading succeeds only if
      these are all, and no media or vector allocation has failed. */
  lemma {:induction false} RunIsPrefix(text: string, k: Shuffling.Shuffler, env: Env, n: nat)
    ensures var load := PlaylistText.Load(text, env.realpath);
            var run := Run(text, k, env, n);
            && (run.ok ==> load == Some(run.uris))
            && (run.ok ==> forall i :: n <= i < n + |run.uris| ==> env.outcome(i).media && env.outcome(i).vector)
            && (load.Some? ==> run.uris <= load.value && (run.ok <==> run.uris == load.value))
    decreases |text|
  {
    if text != [] {
      var length := PlaylistText.LineLength(text);
      match PlaylistText.ParseLine(text[..length])
      case Skipped =>
        RunIsPrefix(text[length..], k, env, n);
      case Entry(entry) =>
        var o := env.outcome(n);
        AddedIs(entry, k, env.realpath, o);
        RunIsPrefix(text[length..], Shuffling.Add(k, 1, o.alloc), env, n + 1);
        hide Added, PlaylistText.Accept, PlaylistText.ParseLine, Shuffling.Add, PlaylistText.LineLength;
    }
  }

  /** When allocations succeed, loading succeeds exactly for the files that `Load` accepts, and adds
      the URIs it names. */
  lemma {:induction false} RunIsLoad(text: string, k: Shuffling.Shuffler, env: Env, n: nat)
    requires Plentiful(env)
    ensures var load := PlaylistText.Load(text, env.realpath);
            Run(text, k, env, n).ok == load.Some? && (load.Some? ==> Run(text, k, env, n).uris == load.value)
    decreases |text|
  {
    if text != [] {
      var length := PlaylistText.LineLength(text);
      var k' := if PlaylistText.ParseLine(text[..length]).Skipped? then k
                else Shuffling.Add(k, 1, env.outcome(n).alloc);
      var n' := if PlaylistText.ParseLine(text[..length]).Skipped? then n else n + 1;
      RunIsLoad(text[length..], k', env, n');
    }
  }

  /** Saving and loading again, allocations succeeding: the same URIs come back if and only if they
      are clean. */
  lemma SavedRunRoundTrip(uris: seq<string>, k: Shuffling.Shuffler, env: Env)
    requires Plentiful(env) && (forall u :: u in uris ==> Uris.IsOk(u))
    requires forall p :: Uris.Resolves(env.realpath(p))
    ensures Run(PlaylistText.Save(uris), k, env, 0) == Report(uris, true) <==>
            forall u :: u in uris ==> PlaylistText.Clean(u)
  {
    RunIsLoad(PlaylistText.Save(uris), k, env, 0);
    PlaylistText.SaveLoadRoundTrip(uris, env.realpath);
  }
}
