/** The pure string tests and the constructor of uri.c. */
module Uris {
  import opened Words

  predicate At(s: string, pat: string, i: nat) {
    i + |pat| <= |s| && s[i..i + |pat|] == pat
  }

  lemma AtShift(s: string, pat: string, i: nat)
    requires s != []
    ensures At(s, pat, i + 1) <==> At(s[1..], pat, i)
  {
  }

  /** `strstr`: the first occurrence of `pat`, or -1. */
  function StrStr(s: string, pat: string): (r: int)
    ensures -1 <= r
    ensures r >= 0 ==> At(s, pat, r)
    ensures forall i: nat :: i < |s| && (r < 0 || i < r) ==> !At(s, pat, i)
  {
    if At(s, pat, 0) then 0
    else if s == [] then -1
    else
      var r := StrStr(s[1..], pat);
      assert forall i: nat :: 0 < i ==> At(s, pat, i) == At(s[1..], pat, i - 1) by {
        forall i: nat | 0 < i
          ensures At(s, pat, i) == At(s[1..], pat, i - 1)
        {
          AtShift(s, pat, i - 1);
        }
      }
      if r < 0 then -1 else r + 1
  }

  const FILE_SCHEME := "file://"

  predicate IsAbsolute(path: string) {
    path != [] && path[0] == '/'
  }

  predicate IsFile(uri: string) {
    var p := StrStr(uri, FILE_SCHEME);
    p >= 0 && IsAbsolute(uri[p + |FILE_SCHEME|..])
  }

  predicate IsHttp(uri: string) {
    StrStr(uri, "http://") >= 0 || StrStr(uri, "https://") >= 0
  }

  predicate IsOk(uri: string) {
    IsFile(uri) || IsHttp(uri)
  }

  lemma HttpIsOk(uri: string, i: nat)
    requires At(uri, "http://", i)
    ensures IsOk(uri)
  {
    hide StrStr;
    assert i < |uri|;
  }

  lemma ShortIsNotOk(s: string)
    requires |s| < 7
    ensures !IsOk(s)
  {
    hide StrStr;
  }

  lemma WebIsOk()
    ensures IsOk("http://")
  {
  }

  /** The URIs of media objects. */
  type Uri = u: string | IsOk(u) witness (WebIsOk(); "http://")

  predicate HasAuthority(uri: string) {
    StrStr(uri, "://") >= 0
  }

  /** `uri_hierarchical`: what follows the first "://". */
  function Hierarchical(uri: string): string
    requires HasAuthority(uri)
  {
    uri[StrStr(uri, "://") + 3..]
  }

  /** `uri_new`: `resolved` is what `realpath` answers for `arg`, `alloc` the outcome of the
      allocation. */
  function New(arg: string, resolved: Option<string>, alloc: bool): Option<string> {
    if IsOk(arg) then (if alloc then Some(arg) else None)
    else match resolved
      case None => None
      case Some(path) => if alloc then Some(FILE_SCHEME + path) else None
  }

  /** `realpath` returns absolute paths. */
  predicate Resolves(resolved: Option<string>) {
    resolved.Some? ==> IsAbsolute(resolved.value)
  }

  lemma ContainsAuthority(uri: string, scheme: string, i: nat)
    requires At(uri, scheme, i) && |scheme| >= 3 && scheme[|scheme| - 3..] == "://"
    ensures HasAuthority(uri)
  {
    var j := i + |scheme| - 3;
    assert uri[j..j + 3] == uri[i..i + |scheme|][|scheme| - 3..];
    assert At(uri, "://", j);
  }

  /** Accepted URIs have a hierarchical part, so `media_path` is never computed from a failed
      search. */
  lemma OkHasAuthority(uri: string)
    requires IsOk(uri)
    ensures HasAuthority(uri)
  {
    if IsFile(uri) {
      ContainsAuthority(uri, FILE_SCHEME, StrStr(uri, FILE_SCHEME));
    } else if StrStr(uri, "http://") >= 0 {
      ContainsAuthority(uri, "http://", StrStr(uri, "http://"));
    } else {
      ContainsAuthority(uri, "https://", StrStr(uri, "https://"));
    }
  }

  lemma FileUri(path: string)
    requires IsAbsolute(path)
    ensures IsOk(FILE_SCHEME + path)
    ensures HasAuthority(FILE_SCHEME + path) && Hierarchical(FILE_SCHEME + path) == path
  {
    var uri := FILE_SCHEME + path;
    assert At(uri, FILE_SCHEME, 0);
    assert uri[7..] == path;
    OkHasAuthority(uri);
    assert uri[4..7] == "://";
    assert At(uri, "://", 4);
    forall i: nat | i < 4
      ensures !At(uri, "://", i)
    {
      assert uri[i] != ':';
      assert uri[i..i + 3][0] == uri[i];
    }
  }

  /** A web URI names one of the two schemes anywhere; a local one is absolute behind the first
      occurrence of its scheme. */
  lemma OkIs(uri: string)
    ensures IsHttp(uri) <==> exists i: nat :: At(uri, "http://", i) || At(uri, "https://", i)
    ensures IsFile(uri) <==>
            exists i: nat :: At(uri, "file://", i) && uri[i + 7..] != [] && uri[i + 7] == '/'
                             && forall j: nat :: j < i ==> !At(uri, "file://", j)
    ensures IsOk(uri) <==> IsHttp(uri) || IsFile(uri)
  {
    hide StrStr;
    if IsHttp(uri) {
      var i: nat := if StrStr(uri, "http://") >= 0 then StrStr(uri, "http://") else StrStr(uri, "https://");
      assert At(uri, "http://", i) || At(uri, "https://", i);
    }
    if IsFile(uri) {
      var i: nat := StrStr(uri, "file://");
      assert At(uri, "file://", i) && uri[i + 7] == '/';
    } else if i: nat :| At(uri, "file://", i) && uri[i + 7..] != [] && uri[i + 7] == '/'
                        && forall j: nat :: j < i ==> !At(uri, "file://", j) {
      assert StrStr(uri, "file://") == i;
    }
  }

  /** The hierarchical part is what follows the first "://". */
  lemma HierarchicalIs(uri: string, i: nat)
    requires At(uri, "://", i) && forall j: nat :: j < i ==> !At(uri, "://", j)
    ensures HasAuthority(uri) && uri == uri[..i] + "://" + Hierarchical(uri)
  {
    hide StrStr;
    assert i < |uri| && StrStr(uri, "://") == i;
    assert uri == uri[..i] + uri[i..i + 3] + uri[i + 3..];
  }

  /** `uri_new` has a result exactly if memory suffices and its argument is a URI or names a file: then
      it is the argument, or "file://" followed by what `realpath` answers.  So every URI the program
      stores is accepted by `uri_ok`, and a local file's path can be read back. */
  lemma NewIsOk(arg: string, resolved: Option<string>, alloc: bool)
    requires Resolves(resolved)
    ensures New(arg, resolved, alloc).Some? <==> alloc && (IsOk(arg) || resolved.Some?)
    ensures New(arg, resolved, alloc).Some? ==> IsOk(New(arg, resolved, alloc).value)
    ensures New(arg, resolved, alloc) == Some(arg) <==> alloc && IsOk(arg)
    ensures !IsOk(arg) && New(arg, resolved, alloc).Some? ==>
              var u := New(arg, resolved, alloc).value;
              && At(u, "file://", 0) && Some(u[7..]) == resolved
              && HasAuthority(u) && Some(Hierarchical(u)) == resolved
  {
    if resolved.Some? {
      FileUri(resolved.value);
    }
  }
}
