/** Playlist files: the line format that `playlist_load_file` reads and `playlist_save` writes. */
module PlaylistText {
  import opened Words
  import Uris

  /** `isspace` in the C locale. */
  predicate IsSpace(c: char) {
    c == ' ' || c == '\t' || c == '\n' || c == '\U{000B}' || c == '\U{000C}' || c == '\r'
  }

  function SkipSpaces(s: string): string {
    if s != [] && IsSpace(s[0]) then SkipSpaces(s[1..]) else s
  }

  function TrimEnd(s: string): string {
    if s != [] && IsSpace(s[|s| - 1]) then TrimEnd(s[..|s| - 1]) else s
  }

  /** What a C function sees of a buffer: the characters before the first NUL. */
  function UpToNul(s: string): string {
    if s == [] || s[0] == '\0' then [] else [s[0]] + UpToNul(s[1..])
  }

  lemma TrimNone(s: string)
    requires s != [] && !IsSpace(s[|s| - 1])
    ensures TrimEnd(s) == s
  {
  }

  datatype Line = Skipped | Entry(text: string)

  /** A line is skipped if it is a comment or if less than two characters remain after trimming. */
  function ParseLine(line: string): Line {
    var body := SkipSpaces(line);
    if body != [] && (body[0] == '#' || body[0] == ';') then Skipped
    else
      var text := TrimEnd(body);
      if |text| <= 1 then Skipped else Entry(UpToNul(text))
  }

  /** The two pointer loops of `playlist_load_file` over one line. */
  method TrimLine(line: string) returns (parsed: Line)
    ensures parsed == ParseLine(line)
  {
    var begin := 0;
    assert line[0..] == line;
    while begin < |line| && IsSpace(line[begin])
      invariant begin <= |line| && SkipSpaces(line) == SkipSpaces(line[begin..])
    {
      begin := begin + 1;
    }
    if begin < |line| && (line[begin] == '#' || line[begin] == ';') {
      return Skipped;
    }
    var end: int := |line| - 1;
    ghost var body := line[begin..];
    assert SkipSpaces(line) == body && line[begin..end + 1] == body;
    while end > begin && IsSpace(line[end])
      invariant end >= begin - 1 && end < |line| && (end == begin - 1 ==> body == [])
      invariant end >= begin ==> TrimEnd(body) == TrimEnd(line[begin..end + 1])
    {
      assert line[begin..end + 1][..end - begin] == line[begin..end];
      end := end - 1;
    }
    if begin >= end {
      if begin == end {
        TrimNone(line[begin..end + 1]);
      }
      return Skipped;
    }
    return Entry(UpToNul(line[begin..end + 1]));
  }

  /** The length of the line at the start of `s`, its newline included. */
  function LineLength(s: string): (n: nat)
    ensures n <= |s| && (s != [] ==> n > 0)
  {
    if s == [] then 0 else if s[0] == '\n' then 1 else 1 + LineLength(s[1..])
  }

  /** The URI an entry is stored under, if it is accepted and `realpath` finds it. */
  function Accept(text: string, realpath: string -> Option<string>): Option<string> {
    if !Uris.IsAbsolute(text) && !Uris.IsOk(text) then None
    else Uris.New(text, realpath(text), true)
  }

  /** The URIs a file's text stands for when allocations succeed; None if the file is rejected. */
  function Load(text: string, realpath: string -> Option<string>): Option<seq<string>>
    decreases |text|
  {
    if text == [] then Some([])
    else
      var n := LineLength(text);
      var later := Load(text[n..], realpath);
      match ParseLine(text[..n])
      case Skipped => later
      case Entry(entry) =>
        var uri := Accept(entry, realpath);
        if uri.None? || later.None? then None else Some([uri.value] + later.value)
  }

  /** The text `playlist_save` writes. */
  function Save(uris: seq<string>): string {
    if uris == [] then [] else uris[0] + "\n" + Save(uris[1..])
  }

  // ---------------------------------------------------------------- what a line means

  /** `isspace`, by character codes: the blank, and 9 to 13. */
  lemma SpaceIs(c: char)
    ensures IsSpace(c) <==> c as int == 32 || 9 <= c as int <= 13
  {
  }

  ghost predicate Blank(s: string) {
    forall i :: 0 <= i < |s| ==> IsSpace(s[i])
  }

  /** A line that adds nothing: only white space, a comment, or a single character with white space
      around it. */
  ghost predicate Ignored(line: string) {
    exists n :: 0 <= n <= |line| && Blank(line[..n])
                && (n == |line| || line[n] == '#' || line[n] == ';' || Blank(line[n + 1..]))
  }

  lemma {:induction false} SkipBlank(a: string, s: string)
    requires Blank(a) && (s == [] || !IsSpace(s[0]))
    ensures SkipSpaces(a + s) == s
  {
    if a == [] {
      assert a + s == s;
    } else {
      assert (a + s)[0] == a[0] && (a + s)[1..] == a[1..] + s;
      SkipBlank(a[1..], s);
    }
  }

  lemma {:induction false} TrimBlank(s: string, b: string)
    requires Blank(b) && (s == [] || !IsSpace(s[|s| - 1]))
    ensures TrimEnd(s + b) == s
  {
    if b == [] {
      assert s + b == s;
    } else {
      var e := |b| - 1;
      assert (s + b)[|s + b| - 1] == b[e] && (s + b)[..|s + b| - 1] == s + b[..e];
      TrimBlank(s, b[..e]);
    }
  }

  lemma {:induction false} UpToNulIs(t: string, z: string)
    requires (forall i :: 0 <= i < |t| ==> t[i] != '\0') && (z == [] || z[0] == '\0')
    ensures UpToNul(t + z) == t
  {
    if t == [] {
      assert t + z == z;
    } else {
      assert (t + z)[0] == t[0] && (t + z)[1..] == t[1..] + z;
      UpToNulIs(t[1..], z);
    }
  }

  /** Every line is white space around a text that neither starts nor ends with any. */
  lemma {:induction false} SplitLine(line: string) returns (a: string, text: string, b: string)
    ensures line == a + text + b && Blank(a) && Blank(b)
    ensures text == [] || (!IsSpace(text[0]) && !IsSpace(text[|text| - 1]))
  {
    if line == [] {
      a, text, b := [], [], [];
    } else if IsSpace(line[0]) {
      a, text, b := SplitLine(line[1..]);
      assert line == [line[0]] + (a + text + b);
      a := [line[0]] + a;
    } else if IsSpace(line[|line| - 1]) {
      a, text, b := SplitLine(line[..|line| - 1]);
      assert line == (a + text + b) + [line[|line| - 1]];
      b := b + [line[|line| - 1]];
    } else {
      a, text, b := [], line, [];
    }
  }

  lemma LineIs(a: string, text: string, b: string)
    requires Blank(a) && Blank(b) && text != [] && !IsSpace(text[0]) && !IsSpace(text[|text| - 1])
    ensures ParseLine(a + text + b) ==
            if text[0] == '#' || text[0] == ';' || |text| == 1 then Skipped else Entry(UpToNul(text))
  {
    hide SkipSpaces, TrimEnd, UpToNul;
    assert a + text + b == a + (text + b);
    SkipBlank(a, text + b);
    TrimBlank(text, b);
  }

  lemma BlankLine(a: string)
    requires Blank(a)
    ensures ParseLine(a) == Skipped
  {
    assert a + [] == a;
    SkipBlank(a, []);
  }

  lemma IgnoredIs(a: string, text: string, b: string)
    requires Blank(a) && Blank(b) && (text == [] || (!IsSpace(text[0]) && !IsSpace(text[|text| - 1])))
    ensures Ignored(a + text + b) <==> |text| <= 1 || text[0] == '#' || text[0] == ';'
  {
    var line := a + text + b;
    if text == [] {
      assert line[..|line|] == line && forall i :: 0 <= i < |line| ==> line[i] == if i < |a| then a[i] else b[i - |a|];
    } else {
      assert line[..|a|] == a && line[|a|] == text[0] && line[|a| + 1..] == text[1..] + b;
      if Ignored(line) {
        var n :| 0 <= n <= |line| && Blank(line[..n])
                 && (n == |line| || line[n] == '#' || line[n] == ';' || Blank(line[n + 1..]));
        IgnoredAt(line, |a|, n, |text|);
      } else if |text| == 1 {
        assert line[|a| + 1..] == b;
      }
    }
  }

  lemma IgnoredAt(line: string, at: nat, n: nat, length: nat)
    requires 0 < length && at + length <= |line| && n <= |line| && Blank(line[..at]) && Blank(line[..n])
    requires !IsSpace(line[at]) && !IsSpace(line[at + length - 1])
    requires n == |line| || line[n] == '#' || line[n] == ';' || Blank(line[n + 1..])
    ensures length == 1 || line[at] == '#' || line[at] == ';'
  {
    assert forall i :: 0 <= i < n ==> line[i] == line[..n][i];
    assert forall i :: 0 <= i < at ==> line[i] == line[..at][i];
    assert forall i :: n < i < |line| ==> line[i] == line[n + 1..][i - n - 1];
  }

  /** The lines that are skipped are exactly the ignored ones. */
  lemma SkippedIsIgnored(line: string)
    ensures ParseLine(line) == Skipped <==> Ignored(line)
  {
    var a, text, b := SplitLine(line);
    IgnoredIs(a, text, b);
    hide Ignored, Blank;
    if text == [] {
      assert line == a + b;
      BlankConcat(a, b);
      BlankLine(line);
    } else {
      LineIs(a, text, b);
    }
  }

  lemma BlankConcat(a: string, b: string)
    requires Blank(a) && Blank(b)
    ensures Blank(a + b)
  {
  }

  // ---------------------------------------------------------------- the round trip

  ghost predicate Clean(uri: string) {
    && uri != []
    && (forall i :: 0 <= i < |uri| ==> uri[i] != '\n' && uri[i] != '\0')
    && !IsSpace(uri[0]) && !IsSpace(uri[|uri| - 1])
    && uri[0] != '#' && uri[0] != ';'
  }

  predicate NoNewline(s: string) {
    forall i :: 0 <= i < |s| ==> s[i] != '\n'
  }

  lemma {:induction false} SkipSpacesIsSuffix(s: string)
    ensures exists i :: 0 <= i <= |s| && SkipSpaces(s) == s[i..]
    ensures SkipSpaces(s) != [] ==> !IsSpace(SkipSpaces(s)[0])
  {
    if s != [] && IsSpace(s[0]) {
      SkipSpacesIsSuffix(s[1..]);
      var i :| 0 <= i <= |s[1..]| && SkipSpaces(s[1..]) == s[1..][i..];
      assert SkipSpaces(s) == s[i + 1..];
    } else {
      assert s[0..] == s;
    }
  }

  lemma {:induction false} TrimEndIsPrefix(s: string)
    ensures |TrimEnd(s)| <= |s| && TrimEnd(s) == s[..|TrimEnd(s)|]
    ensures TrimEnd(s) != [] ==> !IsSpace(TrimEnd(s)[|TrimEnd(s)| - 1])
  {
    if s != [] && IsSpace(s[|s| - 1]) {
      TrimEndIsPrefix(s[..|s| - 1]);
    }
  }

  lemma {:induction false} UpToNulIsPrefix(s: string)
    ensures |UpToNul(s)| <= |s| && UpToNul(s) == s[..|UpToNul(s)|]
    ensures forall i :: 0 <= i < |UpToNul(s)| ==> UpToNul(s)[i] != '\0'
    ensures (forall i :: 0 <= i < |s| ==> s[i] != '\0') ==> UpToNul(s) == s
  {
    if s != [] && s[0] != '\0' {
      UpToNulIsPrefix(s[1..]);
    }
  }

  lemma {:induction false} LineLengthIs(u: string, rest: string)
    requires NoNewline(u)
    ensures LineLength(u + "\n" + rest) == |u| + 1
    ensures (u + "\n" + rest)[..|u| + 1] == u + "\n" && (u + "\n" + rest)[|u| + 1..] == rest
  {
    var s := u + "\n" + rest;
    if u != [] {
      assert s[1..] == u[1..] + "\n" + rest;
      LineLengthIs(u[1..], rest);
    }
  }

  lemma CleanIsKept(u: string)
    requires |u| >= 2 && Clean(u)
    ensures ParseLine(u + "\n") == Entry(u)
  {
    var line := u + "\n";
    assert line[0] == u[0] && SkipSpaces(line) == line;
    assert line[..|line| - 1] == u;
    assert TrimEnd(line) == TrimEnd(u) == u;
    UpToNulIsPrefix(u);
  }

  lemma KeptIsClean(u: string)
    requires |u| >= 2 && NoNewline(u)
    requires ParseLine(u + "\n") == Entry(u)
    ensures Clean(u)
  {
    hide SkipSpaces, TrimEnd, UpToNul;
    var line := u + "\n";
    var body := SkipSpaces(line);
    var text := TrimEnd(body);
    SkipSpacesIsSuffix(line);
    TrimEndIsPrefix(body);
    UpToNulIsPrefix(text);
    assert |u| <= |text| <= |body| <= |line|;
    assert |text| == |u| by {
      assert |body| == |line| ==> body == line;
    }
    assert text == u;
  }

  /** Trimming a written line gives the URI back exactly for clean URIs. */
  lemma ParseWritten(u: string)
    requires |u| >= 2 && NoNewline(u)
    ensures ParseLine(u + "\n") == Entry(u) <==> Clean(u)
  {
    if Clean(u) {
      CleanIsKept(u);
    } else if ParseLine(u + "\n") == Entry(u) {
      KeptIsClean(u);
    }
  }

  /** An accepted URI has a slash that is not its first character. */
  lemma OkHasSlash(u: string) returns (i: nat)
    requires Uris.IsOk(u)
    ensures 1 <= i < |u| && u[i] == '/'
  {
    hide Uris.StrStr;
    var start := if Uris.IsFile(u) then Uris.StrStr(u, Uris.FILE_SCHEME)
                 else if Uris.StrStr(u, "http://") >= 0 then Uris.StrStr(u, "http://")
                 else Uris.StrStr(u, "https://");
    var scheme := if Uris.IsFile(u) then Uris.FILE_SCHEME
                  else if Uris.StrStr(u, "http://") >= 0 then "http://" else "https://";
    assert Uris.At(u, scheme, start);
    i := start + |scheme| - 1;
    assert u[i] == u[start..start + |scheme|][|scheme| - 1];
  }

  lemma OkIsLong(u: string)
    requires Uris.IsOk(u)
    ensures |u| >= 2
  {
    var i := OkHasSlash(u);
  }

  /** The written line of `u` is read back as `v`. */
  predicate ReadsAs(u: string, v: string, realpath: string -> Option<string>) {
    ParseLine(u + "\n").Entry? && Accept(ParseLine(u + "\n").text, realpath) == Some(v)
  }

  predicate Starts(s: string) {
    s != [] && !IsSpace(s[0]) && s[0] != '#' && s[0] != ';'
  }

  /** How the URI of every local file starts. */
  predicate StartsFile(s: string) {
    |s| >= 8 && s[..8] == "file:///"
  }

  lemma StartsFileIsOk(s: string)
    requires StartsFile(s)
    ensures Uris.IsOk(s) && Starts(s)
  {
    assert s[7] == s[..8][7] && s[0] == s[..8][0];
    assert s[..7] == s[..8][..7] == Uris.FILE_SCHEME;
    assert s == Uris.FILE_SCHEME + s[7..];
    Uris.FileUri(s[7..]);
  }

  lemma {:induction false} TrimEndKeeps(s: string, i: nat)
    requires i < |s| && !IsSpace(s[i])
    ensures i < |TrimEnd(s)|
  {
    if IsSpace(s[|s| - 1]) {
      TrimEndKeeps(s[..|s| - 1], i);
    }
  }

  lemma {:induction false} UpToNulKeeps(s: string, n: nat)
    requires n <= |s| && forall i :: 0 <= i < n ==> s[i] != '\0'
    ensures n <= |UpToNul(s)|
  {
    if n > 0 {
      UpToNulKeeps(s[1..], n - 1);
    }
  }

  lemma FilePrefix(s: string, n: nat)
    requires StartsFile(s) && 8 <= n <= |s|
    ensures StartsFile(s[..n])
  {
    assert s[..n][..8] == s[..8];
  }

  lemma FileCharacters(s: string)
    requires StartsFile(s)
    ensures forall i :: 0 <= i < 8 ==> s[i] != '\n' && s[i] != '\0'
    ensures !IsSpace(s[0]) && !IsSpace(s[7])
  {
    assert forall i :: 0 <= i < 8 ==> s[i] == s[..8][i];
  }

  /** A line that starts like the URI of a local file is read as such a URI. */
  lemma FileLine(s: string, realpath: string -> Option<string>)
    requires StartsFile(s) && NoNewline(s)
    ensures ParseLine(s + "\n").Entry?
    ensures var text := ParseLine(s + "\n").text;
            StartsFile(text) && NoNewline(text) && Accept(text, realpath) == Some(text)
  {
    var line := s + "\n";
    assert line[..8] == s[..8];
    FileCharacters(line);
    assert SkipSpaces(line) == line;
    StartsFileIsOk(line);
    EntryNoNewline(line);
    hide SkipSpaces, TrimEnd, UpToNul, StartsFile, Uris.IsOk;
    var text := TrimEnd(line);
    TrimEndKeeps(line, 7);
    TrimEndIsPrefix(line);
    UpToNulKeeps(text, 8);
    UpToNulIsPrefix(text);
    var entry := UpToNul(text);
    assert entry == line[..|entry|];
    FilePrefix(line, |entry|);
    StartsFileIsOk(entry);
  }

  /** A written line is read back as the URI it came from exactly for clean URIs. */
  lemma AcceptWritten(u: string, realpath: string -> Option<string>)
    requires (forall p :: Uris.Resolves(realpath(p))) && Uris.IsOk(u) && NoNewline(u)
    ensures ReadsAs(u, u, realpath) <==> Clean(u)
  {
    OkIsLong(u);
    ParseWritten(u);
    hide ParseLine, Uris.IsOk, Uris.IsFile, Uris.IsHttp;
    var line := ParseLine(u + "\n");
    if ReadsAs(u, u, realpath) && !Uris.IsOk(line.text) {
      assert u == Uris.FILE_SCHEME + realpath(line.text).value;
      assert u[..8] == "file:///";
      FileLine(u, realpath);
    }
  }

  lemma {:induction false} LineLengthFirst(s: string)
    ensures forall i :: 0 <= i < LineLength(s) - 1 ==> s[i] != '\n'
  {
    if s != [] && s[0] != '\n' {
      LineLengthFirst(s[1..]);
    }
  }

  lemma {:induction false} TrimmedNoNewline(line: string)
    requires forall i :: 0 <= i < |line| - 1 ==> line[i] != '\n'
    ensures NoNewline(TrimEnd(SkipSpaces(line)))
  {
    if line != [] && IsSpace(line[0]) {
      assert forall i :: 0 <= i < |line[1..]| ==> line[1..][i] == line[i + 1];
      TrimmedNoNewline(line[1..]);
    } else {
      TrimEndIsPrefix(line);
    }
  }

  lemma EntryNoNewline(line: string)
    requires forall i :: 0 <= i < |line| - 1 ==> line[i] != '\n'
    ensures ParseLine(line).Entry? ==> NoNewline(ParseLine(line).text)
  {
    hide SkipSpaces, TrimEnd, UpToNul;
    TrimmedNoNewline(line);
    UpToNulIsPrefix(TrimEnd(SkipSpaces(line)));
  }

  /** What is loaded starts as an entry does, and has no newline unless it names a local file. */
  lemma {:induction false} LoadedStarts(text: string, realpath: string -> Option<string>)
    requires forall p :: Uris.Resolves(realpath(p))
    ensures Load(text, realpath).Some? ==>
              forall u :: u in Load(text, realpath).value ==> Starts(u) && (NoNewline(u) || StartsFile(u))
    decreases |text|
  {
    if text != [] {
      var n := LineLength(text);
      LoadedStarts(text[n..], realpath);
      LineLengthFirst(text);
      AcceptedStarts(text[..n], realpath);
      hide ParseLine, Accept, Starts, StartsFile, LineLength;
    }
  }

  lemma AcceptedStarts(line: string, realpath: string -> Option<string>)
    requires forall p :: Uris.Resolves(realpath(p))
    requires forall i :: 0 <= i < |line| - 1 ==> line[i] != '\n'
    ensures ParseLine(line).Entry? && Accept(ParseLine(line).text, realpath).Some? ==>
              var u := Accept(ParseLine(line).text, realpath).value;
              Starts(u) && (NoNewline(u) || StartsFile(u))
  {
    EntryNoNewline(line);
    if ParseLine(line).Entry? && Accept(ParseLine(line).text, realpath).Some? {
      var text := ParseLine(line).text;
      if Uris.IsOk(text) {
        EntryStarts(line);
      } else {
        var path := realpath(text).value;
        assert (Uris.FILE_SCHEME + path)[..8] == Uris.FILE_SCHEME + path[..1] == "file:///";
      }
    }
  }

  lemma EntryStarts(line: string)
    requires ParseLine(line).Entry? && ParseLine(line).text != []
    ensures Starts(ParseLine(line).text)
  {
    hide SkipSpaces, TrimEnd, UpToNul;
    var body := SkipSpaces(line);
    SkipSpacesIsSuffix(line);
    TrimEndIsPrefix(body);
    UpToNulIsPrefix(TrimEnd(body));
  }

  lemma LoadFirst(u: string, rest: string, realpath: string -> Option<string>)
    requires NoNewline(u)
    ensures var later := Load(rest, realpath);
            Load(u + "\n" + rest, realpath) ==
            match ParseLine(u + "\n")
            case Skipped => later
            case Entry(entry) =>
              var uri := Accept(entry, realpath);
              if uri.None? || later.None? then None else Some([uri.value] + later.value)
  {
    LineLengthIs(u, rest);
  }

  /** Comments and empty lines, such as the header "#EXTM3U", add nothing. */
  lemma LoadSkips(line: string, rest: string, realpath: string -> Option<string>)
    requires NoNewline(line) && Ignored(line)
    ensures Load(line + "\n" + rest, realpath) == Load(rest, realpath)
  {
    hide ParseLine, Load;
    IgnoredWithNewline(line);
    SkippedIsIgnored(line + "\n");
    LoadFirst(line, rest, realpath);
  }

  /** Only those add nothing. */
  lemma LoadsNothing(line: string, realpath: string -> Option<string>)
    requires NoNewline(line)
    ensures Load(line + "\n", realpath) == Some([]) <==> Ignored(line)
  {
    IgnoredWithNewline(line);
    SkippedIsIgnored(line + "\n");
    assert line + "\n" + [] == line + "\n" && Load([], realpath) == Some([]);
    hide ParseLine, Load;
    LoadFirst(line, [], realpath);
  }

  lemma HeaderExample(realpath: string -> Option<string>)
    ensures Load("#EXTM3U\n", realpath) == Some([])
  {
    hide Load;
    assert "#EXTM3U"[..0] == [] && "#EXTM3U" + "\n" == "#EXTM3U\n";
    LoadsNothing("#EXTM3U", realpath);
  }

  lemma IgnoredWithNewline(line: string)
    ensures Ignored(line) <==> Ignored(line + "\n")
  {
    var a, text, b := SplitLine(line);
    IgnoredIs(a, text, b);
    IgnoredIs(a, text, b + "\n");
    assert line + "\n" == a + text + (b + "\n");
  }

  /** Any other line is read as its text between the white space, up to a NUL: a URI stays as it is, an
      absolute path becomes the file URI of what `realpath` answers, and anything else ends the load. */
  lemma LoadTakes(a: string, t: string, z: string, b: string, rest: string, realpath: string -> Option<string>)
    requires Blank(a) && Blank(b) && NoNewline(a + (t + z) + b) && |t + z| >= 2
    requires (forall i :: 0 <= i < |t| ==> t[i] != '\0') && (z == [] || z[0] == '\0')
    requires var text := t + z; !IsSpace(text[0]) && !IsSpace(text[|text| - 1]) && text[0] != '#' && text[0] != ';'
    ensures var later := Load(rest, realpath);
            var uri := if Uris.IsOk(t) then Some(t)
                       else if Uris.IsAbsolute(t) && realpath(t).Some? then Some("file://" + realpath(t).value)
                       else None;
            Load(a + (t + z) + b + "\n" + rest, realpath) ==
            if uri.None? || later.None? then None else Some([uri.value] + later.value)
  {
    var line := a + (t + z) + b;
    assert line + "\n" == a + (t + z) + (b + "\n");
    LineIs(a, t + z, b + "\n");
    UpToNulIs(t, z);
    hide ParseLine, Load, UpToNul, Uris.IsOk, Uris.IsAbsolute, NoNewline, Blank;
    LoadFirst(line, rest, realpath);
  }

  /** A line that names a local file. */
  lemma LoadLocalFile(path: string, rest: string, realpath: string -> Option<string>)
    requires Clean(path) && |path| >= 2 && Uris.IsAbsolute(path) && !Uris.IsOk(path)
    ensures realpath(path).None? ==> Load(path + "\n" + rest, realpath) == None
    ensures realpath(path).Some? && Load(rest, realpath).Some? ==>
              var uris := Load(rest, realpath).value;
              Load(path + "\n" + rest, realpath) == Some(["file://" + realpath(path).value] + uris)
  {
    hide Load;
    assert [] + (path + []) + [] == path;
    LoadTakes([], path, [], [], rest, realpath);
  }

  lemma {:induction false} WholeLine(line: string)
    requires NoNewline(line)
    ensures LineLength(line) == |line|
  {
    if line != [] {
      WholeLine(line[1..]);
    }
  }

  lemma ParsesAlike(line: string)
    ensures ParseLine(line) == ParseLine(line + "\n")
  {
    hide ParseLine;
    var a, text, b := SplitLine(line);
    BlankConcat(b, "\n");
    assert line + "\n" == a + text + (b + "\n");
    if text == [] {
      BlankConcat(a, b);
      BlankConcat(line, "\n");
      assert line == a + b;
      BlankLine(line);
      BlankLine(line + "\n");
    } else {
      LineIs(a, text, b);
      LineIs(a, text, b + "\n");
    }
  }

  /** The last line needs no newline. */
  lemma LoadLastLine(line: string, realpath: string -> Option<string>)
    requires NoNewline(line)
    ensures Load(line, realpath) == Load(line + "\n", realpath)
  {
    hide ParseLine, Accept, LineLength;
    assert Load([], realpath) == Some([]);
    ParsesAlike(line);
    LoadFirst(line, [], realpath);
    assert line + "\n" + [] == line + "\n";
    if line == [] {
      BlankLine([]);
    } else {
      WholeLine(line);
      assert line[..|line|] == line && line[|line|..] == [];
    }
  }

  /** What is saved is the URIs in order, each followed by a newline. */
  lemma {:induction false} SaveIs(s: seq<string>, t: seq<string>, u: string)
    ensures Save([]) == "" && Save([u]) == u + "\n" && Save(s + t) == Save(s) + Save(t)
  {
    assert Save([u]) == u + "\n" + "";
    if s == [] {
      assert s + t == t;
    } else {
      SaveIs(s[1..], t, u);
      assert (s + t)[0] == s[0] && (s + t)[1..] == s[1..] + t;
    }
  }

  lemma CleanFirst(u: string, rest: string, realpath: string -> Option<string>)
    requires Uris.IsOk(u) && Clean(u)
    requires Load(rest, realpath).Some?
    ensures Load(u + "\n" + rest, realpath) == Some([u] + Load(rest, realpath).value)
  {
    OkIsLong(u);
    CleanIsKept(u);
    LoadFirst(u, rest, realpath);
  }

  lemma {:induction false} CleanLoads(uris: seq<string>, realpath: string -> Option<string>)
    requires forall u :: u in uris ==> Uris.IsOk(u) && Clean(u)
    ensures Load(Save(uris), realpath) == Some(uris)
  {
    if uris != [] {
      CleanLoads(uris[1..], realpath);
      CleanFirst(uris[0], Save(uris[1..]), realpath);
      assert [uris[0]] + uris[1..] == uris;
    }
  }

  /** The line of a URI that can have been loaded is not skipped. */
  lemma NotSkipped(u: string)
    requires Uris.IsOk(u) && Starts(u)
    ensures ParseLine(u + "\n").Entry?
  {
    var line := u + "\n";
    var i := OkHasSlash(u);
    assert SkipSpaces(line) == line && line[i] == '/';
    TrimEndKeeps(line, i);
  }

  lemma FirstNewline(s: string) returns (n: nat)
    requires !NoNewline(s)
    ensures n < |s| && s[n] == '\n' && NoNewline(s[..n])
  {
    n := 0;
    while s[n] != '\n'
      invariant n < |s| && (exists i :: n <= i < |s| && s[i] == '\n') && NoNewline(s[..n])
      decreases |s| - n
    {
      n := n + 1;
    }
  }

  lemma CutAt(u: string, n: nat, rest: string)
    requires n < |u| && u[n] == '\n'
    ensures u + "\n" + rest == u[..n] + "\n" + (u[n + 1..] + "\n" + rest)
  {
    assert u == u[..n] + "\n" + u[n + 1..];
  }

  /** A URI with a newline is cut at its first line, which is read as another URI. */
  lemma NewlineIsCut(u: string, rest: string, realpath: string -> Option<string>)
    requires StartsFile(u) && !NoNewline(u)
    requires Load(u + "\n" + rest, realpath).Some?
    ensures var out := Load(u + "\n" + rest, realpath).value; out != [] && out[0] != u
  {
    hide Load, ParseLine, Accept, StartsFile;
    var n := FirstNewline(u);
    FileCharacters(u);
    FilePrefix(u, n);
    CutAt(u, n, rest);
    FileLine(u[..n], realpath);
    LoadFirst(u[..n], u[n + 1..] + "\n" + rest, realpath);
  }

  lemma {:induction false} LoadedIsClean(uris: seq<string>, realpath: string -> Option<string>)
    requires (forall u :: u in uris ==> Uris.IsOk(u)) && forall p :: Uris.Resolves(realpath(p))
    requires Load(Save(uris), realpath) == Some(uris)
    ensures forall u :: u in uris ==> Clean(u)
  {
    hide ParseLine, Accept, Uris.IsOk, Clean, Load;
    if uris != [] {
      var u, rest := uris[0], Save(uris[1..]);
      assert u in uris;
      LoadedStarts(Save(uris), realpath);
      if !NoNewline(u) {
        NewlineIsCut(u, rest, realpath);
      }
      LoadFirst(u, rest, realpath);
      NotSkipped(u);
      AcceptWritten(u, realpath);
      assert uris[1..] == Load(rest, realpath).value;
      LoadedIsClean(uris[1..], realpath);
    }
  }

  /** Saving a playlist and loading the file gives the same URIs if and only if every URI is clean:
      no newline or NUL, no white space at either end, no leading comment sign. */
  lemma SaveLoadRoundTrip(uris: seq<string>, realpath: string -> Option<string>)
    requires (forall u :: u in uris ==> Uris.IsOk(u)) && forall p :: Uris.Resolves(realpath(p))
    ensures Load(Save(uris), realpath) == Some(uris) <==> forall u :: u in uris ==> Clean(u)
  {
    if forall u :: u in uris ==> Clean(u) {
      CleanLoads(uris, realpath);
    } else if Load(Save(uris), realpath) == Some(uris) {
      LoadedIsClean(uris, realpath);
    }
  }

  /** A leading blank is lost. */
  lemma BlankIsLost(u: string, realpath: string -> Option<string>)
    requires Uris.IsOk(u) && Clean(u)
    ensures Load(Save([" " + u]), realpath) == Some([u])
  {
    hide Uris.IsOk;
    var line := " " + u + "\n";
    assert line[1..] == u + "\n";
    assert ParseLine(line) == ParseLine(u + "\n");
    OkIsLong(u);
    CleanIsKept(u);
    LoadFirst(" " + u, "", realpath);
    assert Save([" " + u]) == " " + u + "\n" + "";
    assert [u] + [] == [u];
  }

  /** So this URI is accepted but does not come back. */
  lemma BlankExample(realpath: string -> Option<string>)
    ensures Uris.IsOk(" http://a") && Load(Save([" http://a"]), realpath) == Some(["http://a"])
  {
    hide Load, Save;
    hide Uris.IsOk;
    Uris.HttpIsOk("http://a", 0);
    Uris.HttpIsOk(" http://a", 1);
    assert " " + "http://a" == " http://a";
    BlankIsLost("http://a", realpath);
  }

  /** If the second line of such a URI is not the name of a file, the playlist does not load at all. */
  lemma NewlineFails(first: string, second: string, realpath: string -> Option<string>)
    requires StartsFile(first) && NoNewline(first)
    requires |second| >= 2 && Clean(second) && !Uris.IsAbsolute(second) && !Uris.IsOk(second)
    ensures Load(Save([first + "\n" + second]), realpath) == None
  {
    hide ParseLine, Uris.IsOk, LineLength, StartsFile;
    var u := first + "\n" + second;
    assert Save([u]) == u + "\n" + "";
    assert u + "\n" + "" == first + "\n" + (second + "\n" + "");
    hide Load, Save;
    FileLine(first, realpath);
    CleanIsKept(second);
    LoadFirst(second, "", realpath);
    LoadFirst(first, second + "\n" + "", realpath);
  }

  /** So this URI, of a file whose name has a newline, is accepted but does not come back. */
  lemma NewlineExample(realpath: string -> Option<string>)
    ensures Uris.IsOk("file:///a\nbc") && Load(Save(["file:///a\nbc"]), realpath) == None
  {
    hide Load, Save, Uris.IsOk;
    StartsFileIsOk("file:///a\nbc");
    Uris.ShortIsNotOk("bc");
    assert "file:///a" + "\n" + "bc" == "file:///a\nbc";
    NewlineFails("file:///a", "bc", realpath);
  }
}
