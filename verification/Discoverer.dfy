/** The directory walk of climp-discoverer: one path buffer, extended and cut back in place. */
module Discovering {
  import opened Words
  import Uris

  const PATH_MAX: nat := 4096

  /** `sizeof("file://")`, the terminator included. */
  const SIZEOF_SCHEME: nat := 8

  const URI_MAX: nat := PATH_MAX + SIZEOF_SCHEME

  /** What a directory holds, in the order in which it is read.  (A read error ends the listing like
      the end of the directory.)  A directory may fail to open. */
  datatype Entry = File(name: string) | Dir(name: string, tree: Tree) | Other(name: string)

  datatype Tree = Tree(opens: bool, entries: seq<Entry>)

  predicate IsDot(name: string) {
    name == "." || name == ".."
  }

  function UriOf(path: string, name: string): string {
    Uris.FILE_SCHEME + path + "/" + name
  }

  // ---------------------------------------------------------------- the walk on values

  datatype Report = Report(uris: seq<string>, failed: bool)

  /** `recursive_scan` of the directory `tree` under an absolute path. */
  function Scan(path: string, tree: Tree, playable: string -> bool): Report
    decreases tree, 1
  {
    if |path| >= PATH_MAX || !tree.opens then Report([], true)
    else Report(ScanEntries(path, tree.entries, playable), false)
  }

  /** The subdirectories that the walk goes into. */
  predicate Enters(path: string, e: Entry) {
    e.Dir? && !IsDot(e.name) && |path| + 2 + |e.name| <= PATH_MAX
  }

  /** Its loop.  A subdirectory that fails ends the loop of its parent. */
  function ScanEntries(path: string, entries: seq<Entry>, playable: string -> bool): seq<string>
    decreases entries, 0
  {
    if entries == [] then []
    else
      var e := entries[0];
      if Enters(path, e) && Scan(path + "/" + e.name, e.tree, playable).failed then []
      else ScanEntry(path, e, playable) + ScanEntries(path, entries[1..], playable)
  }

  function ScanEntry(path: string, e: Entry, playable: string -> bool): seq<string>
    decreases e, 2
  {
    if IsDot(e.name) then []
    else match e
      case File(name) =>
        if SIZEOF_SCHEME + |path| + 1 + |name| < URI_MAX && playable(UriOf(path, name)) then [UriOf(path, name)] else []
      case Dir(name, tree) =>
        if |path| + 2 + |name| > PATH_MAX then [] else Scan(path + "/" + name, tree, playable).uris
      case Other(_) => []
  }

  // ---------------------------------------------------------------- its meaning

  /** The URIs of all files below a path, however long. */
  function AllFiles(path: string, entries: seq<Entry>): seq<string>
    decreases entries, 0
  {
    if entries == [] then [] else FilesOf(path, entries[0]) + AllFiles(path, entries[1..])
  }

  function FilesOf(path: string, e: Entry): seq<string>
    decreases e, 1
  {
    if IsDot(e.name) then []
    else match e
      case File(name) => [UriOf(path, name)]
      case Dir(name, tree) => AllFiles(path + "/" + name, tree.entries)
      case Other(_) => []
  }

  /** A URI that fits into the buffer and that the media framework can play. */
  predicate Wanted(uri: string, playable: string -> bool) {
    |uri| + 1 < URI_MAX && playable(uri)
  }

  function Filter(uris: seq<string>, playable: string -> bool): seq<string> {
    if uris == [] then []
    else (if Wanted(uris[0], playable) then [uris[0]] else []) + Filter(uris[1..], playable)
  }

  /** Every directory that the walk goes into opens. */
  ghost predicate AllOpen(path: string, entries: seq<Entry>)
    decreases entries
  {
    forall i :: 0 <= i < |entries| && Enters(path, entries[i]) ==>
      entries[i].tree.opens && AllOpen(path + "/" + entries[i].name, entries[i].tree.entries)
  }

  /** Wherever a directory fails to open, neither it nor what follows it in its parent has a file that
      is wanted. */
  ghost predicate Complete(path: string, entries: seq<Entry>, playable: string -> bool)
    decreases entries
  {
    entries == []
    || (var e := entries[0];
        if Enters(path, e) && !e.tree.opens then forall u :: u in AllFiles(path, entries) ==> !Wanted(u, playable)
        else
          && (Enters(path, e) ==> Complete(path + "/" + e.name, e.tree.entries, playable))
          && Complete(path, entries[1..], playable))
  }

  lemma FilterFirst(s: seq<string>, playable: string -> bool)
    requires s != []
    ensures Filter(s, playable) == Filter([s[0]], playable) + Filter(s[1..], playable)
  {
    hide Wanted;
    assert Filter([s[0]][1..], playable) == [];
  }

  lemma {:induction false} FilterConcat(s: seq<string>, t: seq<string>, playable: string -> bool)
    ensures Filter(s + t, playable) == Filter(s, playable) + Filter(t, playable)
  {
    if s == [] {
      assert s + t == t;
    } else {
      hide Filter;
      FilterConcat(s[1..], t, playable);
      assert (s + t)[1..] == s[1..] + t && (s + t)[0] == s[0];
      FilterFirst(s, playable);
      FilterFirst(s + t, playable);
    }
  }

  /** Nothing below an over-long path fits. */
  lemma {:induction false} NothingFits(path: string, entries: seq<Entry>, playable: string -> bool)
    requires |path| >= PATH_MAX
    ensures Filter(AllFiles(path, entries), playable) == []
    decreases entries, 0
  {
    if entries != [] {
      NothingOfFits(path, entries[0], playable);
      NothingFits(path, entries[1..], playable);
      FilterConcat(FilesOf(path, entries[0]), AllFiles(path, entries[1..]), playable);
    }
  }

  lemma {:induction false} NothingOfFits(path: string, e: Entry, playable: string -> bool)
    requires |path| >= PATH_MAX
    ensures Filter(FilesOf(path, e), playable) == []
    decreases e, 1
  {
    match e
    case File(name) =>
    case Dir(name, tree) => NothingFits(path + "/" + name, tree.entries, playable);
    case Other(_) =>
  }

  lemma {:induction false} FilterNone(uris: seq<string>, playable: string -> bool)
    ensures Filter(uris, playable) == [] <==> forall u :: u in uris ==> !Wanted(u, playable)
  {
    hide Wanted;
    if uris != [] {
      FilterNone(uris[1..], playable);
      assert forall u :: u in uris <==> u == uris[0] || u in uris[1..];
    }
  }

  /** The loop lists the wanted files if it is complete, and strictly fewer otherwise. */
  lemma {:induction false} ScanIsFilter(path: string, entries: seq<Entry>, playable: string -> bool)
    ensures var listing := Filter(AllFiles(path, entries), playable);
            if Complete(path, entries, playable) then ScanEntries(path, entries, playable) == listing
            else |ScanEntries(path, entries, playable)| < |listing|
    decreases entries, 0
  {
    if entries != [] {
      var e := entries[0];
      if Enters(path, e) && !e.tree.opens {
        FilterNone(AllFiles(path, entries), playable);
      } else {
        ScanEntryIsFilter(path, e, playable);
        ScanIsFilter(path, entries[1..], playable);
        FilterConcat(FilesOf(path, e), AllFiles(path, entries[1..]), playable);
      }
    }
  }

  lemma {:induction false} ScanEntryIsFilter(path: string, e: Entry, playable: string -> bool)
    requires Enters(path, e) ==> e.tree.opens
    ensures var listing := Filter(FilesOf(path, e), playable);
            if Enters(path, e) ==> Complete(path + "/" + e.name, e.tree.entries, playable)
            then ScanEntry(path, e, playable) == listing
            else |ScanEntry(path, e, playable)| < |listing|
    decreases e, 1
  {
    if !IsDot(e.name) {
      match e
      case File(name) =>
      case Dir(name, tree) =>
        if Enters(path, e) {
          ScanIsFilter(path + "/" + name, tree.entries, playable);
        } else {
          NothingFits(path + "/" + name, tree.entries, playable);
        }
      case Other(_) =>
    }
  }

  lemma {:induction false} OpenIsComplete(path: string, entries: seq<Entry>, playable: string -> bool)
    requires AllOpen(path, entries)
    ensures Complete(path, entries, playable)
    decreases entries
  {
    if entries != [] {
      var e := entries[0];
      if Enters(path, e) {
        OpenIsComplete(path + "/" + e.name, e.tree.entries, playable);
      }
      assert AllOpen(path, entries[1..]);
      OpenIsComplete(path, entries[1..], playable);
    }
  }

  /** The walk finds exactly the playable files whose URI fits, in the order of a plain recursive
      listing, if and only if no directory that fails to open hides one, in it or behind it; so it
      does whenever every directory it enters opens.  Leaving over-long subdirectories out loses
      nothing. */
  lemma WalkIsListing(path: string, tree: Tree, playable: string -> bool)
    requires |path| < PATH_MAX
    ensures Scan(path, tree, playable) == Report(Filter(AllFiles(path, tree.entries), playable), false)
       <==> tree.opens && Complete(path, tree.entries, playable)
    ensures AllOpen(path, tree.entries) ==> Complete(path, tree.entries, playable)
  {
    ScanIsFilter(path, tree.entries, playable);
    if AllOpen(path, tree.entries) {
      OpenIsComplete(path, tree.entries, playable);
    }
  }

  /** One round of the loop, unfolded. */
  lemma LoopRound(path: string, entries: seq<Entry>, playable: string -> bool)
    requires entries != []
    ensures var e := entries[0];
            if Enters(path, e) && Scan(path + "/" + e.name, e.tree, playable).failed
            then ScanEntries(path, entries, playable) == [] == ScanEntry(path, e, playable)
            else ScanEntries(path, entries, playable)
                 == ScanEntry(path, e, playable) + ScanEntries(path, entries[1..], playable)
  {
  }

  /** The plain listing, in its own terms: what is in a directory is listed in order, ... */
  lemma {:induction false} ListingConcat(path: string, s: seq<Entry>, t: seq<Entry>)
    ensures AllFiles(path, []) == [] && AllFiles(path, s + t) == AllFiles(path, s) + AllFiles(path, t)
    decreases |s|
  {
    if s == [] {
      assert s + t == t;
    } else {
      hide FilesOf;
      ListingConcat(path, s[1..], t);
      ListingFirst(path, s);
      ListingFirst(path, s + t);
      assert (s + t)[0] == s[0] && (s + t)[1..] == s[1..] + t;
      hide AllFiles;
    }
  }

  lemma ListingFirst(path: string, s: seq<Entry>)
    requires s != []
    ensures AllFiles(path, s) == FilesOf(path, s[0]) + AllFiles(path, s[1..])
  {
    hide FilesOf;
  }

  /** ... a file by its URI and a directory by its contents; entries named . or .. and those of other
      kinds do not count. */
  lemma ListingOne(path: string, name: string, tree: Tree)
    ensures var dots := name == "." || name == "..";
            && AllFiles(path, [File(name)]) == (if dots then [] else ["file://" + path + "/" + name])
            && AllFiles(path, [Dir(name, tree)]) == (if dots then [] else AllFiles(path + "/" + name, tree.entries))
            && AllFiles(path, [Other(name)]) == []
  {
    assert [File(name)][1..] == [] && [Dir(name, tree)][1..] == [] && [Other(name)][1..] == [];
    ListingFirst(path, [File(name)]);
    ListingFirst(path, [Dir(name, tree)]);
    ListingFirst(path, [Other(name)]);
    assert AllFiles(path, []) == [];
    hide AllFiles;
  }

  /** The wanted URIs: playable ones of at most 4102 characters. */
  lemma FilterIs(s: seq<string>, t: seq<string>, u: string, playable: string -> bool)
    ensures Filter([], playable) == [] && Filter(s + t, playable) == Filter(s, playable) + Filter(t, playable)
    ensures Filter([u], playable) == if |u| <= 4102 && playable(u) then [u] else []
  {
    FilterConcat(s, t, playable);
    assert [u][1..] == [];
  }

  /** A subdirectory is entered exactly if its own path fits into the path buffer. */
  lemma EntersIs(path: string, e: Entry)
    ensures Enters(path, e) <==> e.Dir? && e.name != "." && e.name != ".." && |path + "/" + e.name| < 4096
  {
  }

  /** A walk fails exactly if its path is too long or its root does not open; then it prints nothing. */
  lemma ScanFails(path: string, tree: Tree, playable: string -> bool)
    ensures Scan(path, tree, playable).failed <==> |path| >= 4096 || !tree.opens
    ensures Scan(path, tree, playable).failed ==> Scan(path, tree, playable).uris == []
  {
  }

  lemma OpenRound(path: string, entries: seq<Entry>, playable: string -> bool)
    requires entries != [] && (Enters(path, entries[0]) ==> entries[0].tree.opens)
    ensures ScanEntries(path, entries, playable)
         == ScanEntry(path, entries[0], playable) + ScanEntries(path, entries[1..], playable)
  {
    var e := entries[0];
    LoopRound(path, entries, playable);
    if Enters(path, e) {
      ScanFails(path + "/" + e.name, e.tree, playable);
    }
    hide Scan, ScanEntry, ScanEntries;
  }

  /** What comes before the first subdirectory that fails is listed; ... */
  lemma {:induction false} ListedUntil(path: string, s: seq<Entry>, t: seq<Entry>, playable: string -> bool)
    requires forall e :: e in s && Enters(path, e) ==> e.tree.opens
    ensures ScanEntries(path, s + t, playable) == ScanEntries(path, s, playable) + ScanEntries(path, t, playable)
    decreases |s|
  {
    if s == [] {
      assert s + t == t && ScanEntries(path, [], playable) == [];
    } else {
      hide Scan, ScanEntry, ScanEntries, Enters;
      assert s[0] in s && forall e :: e in s[1..] ==> e in s;
      ListedUntil(path, s[1..], t, playable);
      assert (s + t)[0] == s[0] && (s + t)[1..] == s[1..] + t;
      OpenRound(path, s, playable);
      OpenRound(path, s + t, playable);
    }
  }

  /** ... nothing behind it is. */
  lemma NothingBehind(path: string, t: seq<Entry>, playable: string -> bool)
    requires t != [] && Enters(path, t[0]) && !t[0].tree.opens
    ensures ScanEntries(path, t, playable) == []
  {
    LoopRound(path, t, playable);
    ScanFails(path + "/" + t[0].name, t[0].tree, playable);
    hide Scan, ScanEntry, ScanEntries;
  }

  /** A directory that fails to open hides the file behind it. */
  lemma HiddenExample()
    ensures var tree := Tree(true, [Dir("d", Tree(false, [])), File("a")]);
            && Filter(AllFiles("/m", tree.entries), uri => true) == ["file:///m/a"]
            && Scan("/m", tree, uri => true) == Report([], false)
  {
    var closed := Dir("d", Tree(false, []));
    assert UriOf("/m", "a") == "file:///m/a";
    assert Enters("/m", closed) && Scan("/m/d", closed.tree, uri => true).failed;
    assert "/m" + "/" + "d" == "/m/d";
    assert ScanEntries("/m", [closed, File("a")], uri => true) == [];
    assert AllFiles("/m", [closed]) == [];
  }

  // ---------------------------------------------------------------- buffers

  predicate NulFree(s: string) {
    forall i :: 0 <= i < |s| ==> s[i] != '\0'
  }

  /** The buffer holds the C string `s`. */
  ghost predicate Holds(a: array<char>, s: string)
    reads a
  {
    NulFree(s) && |s| < a.Length && a[..|s|] == s && a[|s|] == '\0'
  }

  method StrLen(a: array<char>, ghost s: string) returns (n: nat)
    requires Holds(a, s)
    ensures n == |s|
  {
    n := 0;
    assert forall i :: 0 <= i < |s| ==> a[i] == a[..|s|][i];
    while a[n] != '\0'
      invariant n <= |s|
      decreases |s| - n
    {
      n := n + 1;
    }
  }

  /** Writes `src` and its terminator from position `at` on. */
  method Put(dst: array<char>, at: nat, src: string)
    requires at + |src| < dst.Length
    modifies dst
    ensures dst[..at] == old(dst[..at]) && dst[at..at + |src|] == src && dst[at + |src|] == '\0'
  {
    forall i | 0 <= i < |src| {
      dst[at + i] := src[i];
    }
    dst[at + |src|] := '\0';
  }

  method StrCpy(dst: array<char>, src: string)
    requires NulFree(src) && |src| < dst.Length
    modifies dst
    ensures Holds(dst, src)
  {
    Put(dst, 0, src);
  }

  method StrCat(dst: array<char>, src: string, ghost s: string)
    requires Holds(dst, s) && NulFree(src) && |s| + |src| < dst.Length
    modifies dst
    ensures Holds(dst, s + src)
  {
    var n := StrLen(dst, s);
    Put(dst, n, src);
    assert dst[..n + |src|] == dst[..n] + dst[n..n + |src|];
  }

  // ---------------------------------------------------------------- the walk in place

  ghost predicate WellNamed(entries: seq<Entry>)
    decreases entries
  {
    forall i :: 0 <= i < |entries| ==>
      NulFree(entries[i].name) && (entries[i].Dir? ==> WellNamed(entries[i].tree.entries))
  }

  class Discoverer {
    const rpath: array<char>
    const uri: array<char>
    const playable: string -> bool
    /** What has been printed. */
    var printed: seq<string>

    constructor (playable: string -> bool)
      ensures Valid() && fresh(rpath) && fresh(uri) && printed == [] && this.playable == playable
    {
      rpath := new char[PATH_MAX];
      uri := new char[URI_MAX];
      this.playable := playable;
      printed := [];
    }

    predicate Valid() {
      rpath.Length == PATH_MAX && uri.Length == URI_MAX && rpath != uri
    }

    /** `set_uri`, for the path in the path buffer. */
    method SetUri(len: nat, name: string, ghost path: string) returns (ok: bool)
      requires Valid() && Holds(rpath, path) && len == |path| && NulFree(name)
      modifies uri
      ensures ok == (SIZEOF_SCHEME + |path| + 1 + |name| < URI_MAX)
      ensures ok ==> Holds(uri, UriOf(path, name))
    {
      if SIZEOF_SCHEME + len + 1 + |name| >= URI_MAX {
        return false;
      }
      StrCpy(uri, Uris.FILE_SCHEME);
      StrCat(uri, rpath[..len], Uris.FILE_SCHEME);
      StrCat(uri, "/", Uris.FILE_SCHEME + path);
      StrCat(uri, name, Uris.FILE_SCHEME + path + "/");
      return true;
    }

    /** `recursive_scan` with an absolute path in the path buffer, where it is found again afterwards.
        (That it fits is a fact about the buffer here, so the length test is not repeated.) */
    method ScanHere(tree: Tree, ghost path: string) returns (failed: bool)
      requires Valid() && Holds(rpath, path) && WellNamed(tree.entries)
      modifies this`printed, rpath, uri
      ensures Holds(rpath, path)
      ensures printed == old(printed) + Scan(path, tree, playable).uris
      ensures failed == Scan(path, tree, playable).failed
      decreases tree, 1
    {
      if !tree.opens {
        return true;
      }
      var len := StrLen(rpath, path);
      ScanLoop(tree.entries, len, path);
      return false;
    }

    /** The loop over the entries of a directory whose path, of length `len`, is in the buffer. */
    method ScanLoop(entries: seq<Entry>, len: nat, ghost path: string)
      requires Valid() && Holds(rpath, path) && len == |path| && WellNamed(entries)
      modifies this`printed, rpath, uri
      ensures Holds(rpath, path)
      ensures printed == old(printed) + ScanEntries(path, entries, playable)
      decreases entries, 0
    {
      hide Scan, ScanEntry, Enters, NulFree;
      var i := 0;
      while i < |entries|
        invariant i <= |entries| && Holds(rpath, path)
        invariant printed + ScanEntries(path, entries[i..], playable)
                  == old(printed) + ScanEntries(path, entries, playable)
      {
        hide ScanEntries;
        LoopRound(path, entries[i..], playable);
        var stop := ScanOne(entries[i], len, path);
        assert entries[i..][0] == entries[i] && entries[i..][1..] == entries[i + 1..];
        if stop {
          break;
        }
        i := i + 1;
      }
    }

    /** One round of the loop; `stop` after a subdirectory that failed. */
    method ScanOne(e: Entry, len: nat, ghost path: string) returns (stop: bool)
      requires Valid() && Holds(rpath, path) && len == |path|
      requires NulFree(e.name) && (e.Dir? ==> WellNamed(e.tree.entries))
      modifies this`printed, rpath, uri
      ensures Holds(rpath, path)
      ensures stop == (Enters(path, e) && Scan(path + "/" + e.name, e.tree, playable).failed)
      ensures printed == old(printed) + ScanEntry(path, e, playable)
      decreases e, 2
    {
      stop := false;
      if e.name == "." || e.name == ".." {
        return;
      }
      match e
      case File(name) =>
        var ok := SetUri(len, name, path);
        if ok {
          var n := StrLen(uri, UriOf(path, name));
          if playable(uri[..n]) {
            printed := printed + [uri[..n]];
          }
        }
      case Dir(name, tree) =>
        if len + 1 + 1 + |name| <= PATH_MAX {
          StrCat(rpath, "/", path);
          StrCat(rpath, name, path + "/");
          stop := ScanHere(tree, path + "/" + name);
          assert rpath[..len] == rpath[..len + 1 + |name|][..len];
          rpath[len] := '\0';
        }
      case Other(_) =>
    }

    /** `recursive_scan` of a path from the command line; `resolved` is what `realpath` answers. */
    method ScanPath(path: string, resolved: Option<string>, tree: Tree) returns (failed: bool)
      requires Valid() && NulFree(path) && WellNamed(tree.entries)
      requires resolved.Some? ==>
        NulFree(resolved.value) && Uris.IsAbsolute(resolved.value) && |resolved.value| < PATH_MAX
      modifies this`printed, rpath, uri
      ensures var report :=
                if |path| >= PATH_MAX || (!Uris.IsAbsolute(path) && resolved.None?) then Report([], true)
                else Scan(if Uris.IsAbsolute(path) then path else resolved.value, tree, playable);
              printed == old(printed) + report.uris && failed == report.failed
    {
      if |path| >= PATH_MAX {
        return true;
      }
      if !Uris.IsAbsolute(path) {
        if resolved.None? {
          return true;
        }
        StrCpy(rpath, resolved.value);
        failed := ScanHere(tree, resolved.value);
        return;
      }
      if !tree.opens {
        return true;
      }
      StrCpy(rpath, path);
      ScanLoop(tree.entries, |path|, path);
      return false;
    }
  }
}
