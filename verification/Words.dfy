/** What several parts share: C integer widths (`unsigned int` is 32 bits and wraps, `int` is its two's
    complement reading), optional values and duplicate-free sequences. */
module Words {

  const U32: nat := 0x1_0000_0000

  const INT_LIMIT: nat := 0x8000_0000

  /** `(unsigned int) -1`, the "no track" answer of the playlist. */
  const NONE: nat := 0xFFFF_FFFF

  predicate IsInt(i: int) {
    -(INT_LIMIT as int) <= i < INT_LIMIT
  }

  /** Conversion of any integer to `unsigned int`. */
  function ToU32(i: int): (u: nat)
    ensures u < U32
  {
    i % U32
  }

  /** Conversion of an `unsigned int` to `int`. */
  function ToInt(u: nat): (i: int)
    requires u < U32
    ensures IsInt(i) && ToU32(i) == u
  {
    if u < INT_LIMIT then u else (u as int) - (U32 as int)
  }

  datatype Option<+T> = None | Some(value: T)

  ghost predicate Distinct<T>(s: seq<T>) {
    forall i, j :: 0 <= i < j < |s| ==> s[i] != s[j]
  }

  lemma DistinctSnoc<T>(s: seq<T>, x: T)
    requires Distinct(s) && x !in s
    ensures Distinct(s + [x])
  {
  }

  lemma DistinctConcat<T>(s: seq<T>, t: seq<T>)
    ensures Distinct(s + t) <==> Distinct(s) && Distinct(t) && forall x :: x in s ==> x !in t
  {
    var u := s + t;
    if Distinct(u) {
      assert forall i, j :: 0 <= i < j < |s| ==> u[i] == s[i] && u[j] == s[j];
      assert forall i :: 0 <= i < |t| ==> u[|s| + i] == t[i];
      forall x | x in s
        ensures x !in t
      {
        var i :| 0 <= i < |s| && s[i] == x;
        assert u[i] == x;
      }
    } else if Distinct(s) && Distinct(t) && forall x :: x in s ==> x !in t {
      forall i, j | 0 <= i < j < |u|
        ensures u[i] != u[j]
      {
        assert i < |s| ==> u[i] == s[i] && s[i] in s;
        assert j >= |s| ==> u[j] == t[j - |s|] && t[j - |s|] in t;
      }
    }
  }

  /** A sequence without duplicates is no longer than one that has all its elements. */
  lemma {:induction false} Pigeonhole<T>(s: seq<T>, t: seq<T>)
    requires Distinct(s) && forall x :: x in s ==> x in t
    ensures |s| <= |t|
  {
    if s != [] {
      var e := |s| - 1;
      assert s[e] in t;
      var i :| 0 <= i < |t| && t[i] == s[e];
      var others := t[..i] + t[i + 1..];
      forall x | x in s[..e]
        ensures x in others
      {
        assert x in t && x != t[i];
        assert t == t[..i] + [t[i]] + t[i + 1..];
      }
      Pigeonhole(s[..e], others);
    }
  }

  /** If it is as long, it has all of them too. */
  lemma Exhausts<T>(s: seq<T>, t: seq<T>)
    requires Distinct(s) && (forall x :: x in s ==> x in t) && |s| == |t|
    ensures forall x :: x in t ==> x in s
  {
    forall x | x in t
      ensures x in s
    {
      if x !in s {
        Pigeonhole(s + [x], t);
      }
    }
  }

  /** A rearrangement has no duplicates either. */
  lemma Rearranged<T>(s: seq<T>, t: seq<T>)
    requires Distinct(s) && multiset(s) == multiset(t)
    ensures Distinct(t)
  {
    assert |multiset(s)| == |s| && |multiset(t)| == |t|;
    forall i, j | 0 <= i < j < |t|
      ensures t[i] != t[j]
    {
      if t[i] == t[j] {
        var others := t[..j] + t[j + 1..];
        forall x | x in s
          ensures x in others
        {
          assert x in multiset(t);
          assert t == t[..j] + [t[j]] + t[j + 1..] && t[i] == t[..j][i];
        }
        Pigeonhole(s, others);
      }
    }
  }
}
