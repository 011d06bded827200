/** Generic facts about sequences: duplicates, removal of an element, reversal, prefixes, search. */
module Sequences {

  /** No element occurs twice. */
  ghost predicate NoDup<T>(s: seq<T>)
  {
    forall i, j :: 0 <= i < j < |s| ==> s[i] != s[j]
  }

  /** `s` with every occurrence of `x` removed, the others kept in order. */
  function Without<T(==)>(s: seq<T>, x: T): (r: seq<T>)
    ensures forall i :: 0 <= i < |r| ==> r[i] in s && r[i] != x
    ensures forall i :: 0 <= i < |s| && s[i] != x ==> s[i] in r
    ensures |r| <= |s|
  {
    if s == [] then [] else (if s[0] == x then [] else [s[0]]) + Without(s[1..], x)
  }

  /** `s` read back to front. */
  function Reverse<T>(s: seq<T>): seq<T>
  {
    seq(|s|, i requires 0 <= i < |s| => s[|s| - 1 - i])
  }

  predicate IsPrefix<T(==)>(p: seq<T>, s: seq<T>)
  {
    |p| <= |s| && s[..|p|] == p
  }

  /** Index of the first occurrence of `x` in `s`, or `|s|` when there is none. */
  function IndexOf<T(==)>(s: seq<T>, x: T): (i: nat)
    ensures i <= |s|
    ensures i < |s| ==> s[i] == x
    ensures forall j :: 0 <= j < i ==> s[j] != x
  {
    if s == [] then 0 else if s[0] == x then 0 else 1 + IndexOf(s[1..], x)
  }

  lemma {:induction false} NoDupWithout<T>(s: seq<T>, x: T)
    requires NoDup(s)
    ensures NoDup(Without(s, x))
  {
    if s != [] {
      NoDupWithout(s[1..], x);
      var r := Without(s, x);
      var tail := Without(s[1..], x);
      assert s[0] !in tail;
      if s[0] != x {
        assert r == [s[0]] + tail;
        forall i, j | 0 <= i < j < |r| ensures r[i] != r[j] {
          if i == 0 { assert r[j] == tail[j - 1]; assert tail[j - 1] in tail; }
          else { assert r[i] == tail[i - 1] && r[j] == tail[j - 1]; }
        }
      }
    }
  }

  lemma NoDupTail<T>(s: seq<T>)
    requires NoDup(s) && s != []
    ensures NoDup(s[1..]) && s[0] !in s[1..]
  {
    forall i, j | 0 <= i < j < |s[1..]| ensures s[1..][i] != s[1..][j] { assert s[i + 1] != s[j + 1]; }
  }

  /** Removing the only occurrence of `s[k]` is cutting it out at `k`. */
  lemma {:induction false} WithoutAt<T>(s: seq<T>, k: nat)
    requires NoDup(s) && k < |s|
    ensures Without(s, s[k]) == s[..k] + s[k + 1..]
  {
    NoDupTail(s);
    if k == 0 {
      WithoutAbsent(s[1..], s[0]);
    } else {
      var t := s[1..];
      assert t[k - 1] == s[k];
      WithoutAt(t, k - 1);
      assert s[0] != s[k];
      calc {
        Without(s, s[k]);
        [s[0]] + Without(t, t[k - 1]);
        [s[0]] + (t[..k - 1] + t[k..]);
        { assert t[..k - 1] == s[1..k] && t[k..] == s[k + 1..]; }
        [s[0]] + (s[1..k] + s[k + 1..]);
        { assert s[..k] == [s[0]] + s[1..k]; }
        s[..k] + s[k + 1..];
      }
    }
  }

  lemma {:induction false} WithoutAbsent<T>(s: seq<T>, x: T)
    requires x !in s
    ensures Without(s, x) == s
  {
    if s != [] {
      assert x !in s[1..];
      WithoutAbsent(s[1..], x);
      assert [s[0]] + s[1..] == s;
    }
  }

  /** The three properties in `IndexOf`'s contract determine the index. */
  lemma IndexOfIs<T>(s: seq<T>, x: T, k: nat)
    requires k <= |s| && (k < |s| ==> s[k] == x)
    requires forall j :: 0 <= j < k ==> s[j] != x
    ensures IndexOf(s, x) == k
  {
  }

  lemma ReverseReverse<T>(s: seq<T>)
    ensures Reverse(Reverse(s)) == s
  {
    var r := Reverse(s);
    forall i | 0 <= i < |s| ensures Reverse(r)[i] == s[i] {
      assert Reverse(r)[i] == r[|r| - 1 - i];
    }
  }

  lemma ReverseInit<T>(s: seq<T>)
    requires s != []
    ensures Reverse(s)[0] == s[|s| - 1] && Reverse(s)[1..] == Reverse(s[..|s| - 1])
  {
    var r := Reverse(s);
    var t := s[..|s| - 1];
    forall i | 0 <= i < |t| ensures r[1..][i] == Reverse(t)[i] {
      assert r[1..][i] == r[i + 1] == s[|s| - 2 - i];
      assert Reverse(t)[i] == t[|t| - 1 - i];
    }
  }

  /** Reversal turns a prefix into a suffix and a suffix into a prefix. */
  lemma ReverseSlices<T>(s: seq<T>, j: nat)
    requires j <= |s|
    ensures Reverse(s)[j..] == Reverse(s[..|s| - j])
    ensures Reverse(s)[..j] == Reverse(s[|s| - j..])
  {
    var r := Reverse(s);
    var p := s[..|s| - j];
    var q := s[|s| - j..];
    forall i | 0 <= i < |p| ensures r[j..][i] == Reverse(p)[i] {
      assert r[j..][i] == r[j + i] == s[|s| - 1 - j - i];
      assert Reverse(p)[i] == p[|p| - 1 - i];
    }
    forall i | 0 <= i < j ensures r[..j][i] == Reverse(q)[i] {
      assert r[..j][i] == s[|s| - 1 - i];
      assert Reverse(q)[i] == q[|q| - 1 - i];
    }
  }

  lemma ReverseMembers<T>(s: seq<T>, x: T)
    ensures x in Reverse(s) <==> x in s
  {
    var r := Reverse(s);
    if x in s { var i :| 0 <= i < |s| && s[i] == x; assert r[|s| - 1 - i] == x; }
    if x in r { var i :| 0 <= i < |r| && r[i] == x; assert s[|s| - 1 - i] == x; }
  }

  lemma ReverseNoDup<T>(s: seq<T>)
    requires NoDup(s)
    ensures NoDup(Reverse(s))
  {
    var r := Reverse(s);
    forall i, j | 0 <= i < j < |r| ensures r[i] != r[j] {
      assert r[i] == s[|s| - 1 - i] && r[j] == s[|s| - 1 - j];
    }
  }
}
