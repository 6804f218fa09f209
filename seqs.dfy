/** Sequence helpers shared by the queue model: order-preserving filtering,
    duplicate-freedom and removal of the first occurrence of a value. */
module Seqs {

  /** No value occurs twice in `s`. */
  predicate Distinct<T(==)>(s: seq<T>)
  {
    forall a, b :: 0 <= a < b < |s| ==> s[a] != s[b]
  }

  /** The elements of `s` that satisfy `f`, in their order in `s`. */
  function Filter<T>(s: seq<T>, f: T -> bool): (r: seq<T>)
    ensures |r| <= |s|
  {
    if s == [] then []
    else (if f(s[0]) then [s[0]] else []) + Filter(s[1..], f)
  }

  /** Filter keeps exactly the elements that pass. */
  lemma {:induction false} FilterMembers<T(!new)>(s: seq<T>, f: T -> bool)
    ensures forall x :: x in Filter(s, f) <==> x in s && f(x)
  {
    if s != [] {
      FilterMembers(s[1..], f);
      assert s == [s[0]] + s[1..];
    }
  }

  lemma {:induction false} FilterConcat<T>(a: seq<T>, b: seq<T>, f: T -> bool)
    ensures Filter(a + b, f) == Filter(a, f) + Filter(b, f)
  {
    if a == [] {
      assert a + b == b;
    } else {
      var h: seq<T> := if f(a[0]) then [a[0]] else [];
      calc {
        Filter(a + b, f);
        { assert (a + b)[0] == a[0]; assert (a + b)[1..] == a[1..] + b; }
        h + Filter(a[1..] + b, f);
        { FilterConcat(a[1..], b, f); }
        h + (Filter(a[1..], f) + Filter(b, f));
        (h + Filter(a[1..], f)) + Filter(b, f);
      }
    }
  }

  /** Filtering keeps everything when every element passes. */
  lemma {:induction false} FilterAll<T>(s: seq<T>, f: T -> bool)
    requires forall k :: 0 <= k < |s| ==> f(s[k])
    ensures Filter(s, f) == s
  {
    if s != [] {
      assert forall k :: 0 <= k < |s[1..]| ==> s[1..][k] == s[k + 1];
      FilterAll(s[1..], f);
    }
  }

  /** Filtering keeps nothing when no element passes. */
  lemma {:induction false} FilterNone<T>(s: seq<T>, f: T -> bool)
    requires forall k :: 0 <= k < |s| ==> !f(s[k])
    ensures Filter(s, f) == []
  {
    if s != [] {
      assert forall k :: 0 <= k < |s[1..]| ==> s[1..][k] == s[k + 1];
      FilterNone(s[1..], f);
    }
  }

  /** A second filter whose passing elements all pass the first one sees
      through the first. */
  lemma {:induction false} FilterAbsorb<T>(s: seq<T>, f: T -> bool, g: T -> bool)
    requires forall k :: 0 <= k < |s| && g(s[k]) ==> f(s[k])
    ensures Filter(Filter(s, f), g) == Filter(s, g)
  {
    if s != [] {
      assert forall k :: 0 <= k < |s[1..]| ==> s[1..][k] == s[k + 1];
      FilterAbsorb(s[1..], f, g);
      FilterConcat(if f(s[0]) then [s[0]] else [], Filter(s[1..], f), g);
    }
  }

  /** Two filters may be applied in either order. */
  lemma {:induction false} FilterCommute<T>(s: seq<T>, f: T -> bool, g: T -> bool)
    ensures Filter(Filter(s, f), g) == Filter(Filter(s, g), f)
  {
    if s != [] {
      FilterCommute(s[1..], f, g);
      FilterConcat(if f(s[0]) then [s[0]] else [], Filter(s[1..], f), g);
      FilterConcat(if g(s[0]) then [s[0]] else [], Filter(s[1..], g), f);
    }
  }

  /** Two filters in a row are one filter by their conjunction. */
  lemma {:induction false} FilterAnd<T>(s: seq<T>, f: T -> bool, g: T -> bool, h: T -> bool)
    requires forall k :: 0 <= k < |s| ==> h(s[k]) == (f(s[k]) && g(s[k]))
    ensures Filter(Filter(s, f), g) == Filter(s, h)
  {
    if s != [] {
      assert forall k :: 0 <= k < |s[1..]| ==> s[1..][k] == s[k + 1];
      FilterAnd(s[1..], f, g, h);
      FilterConcat(if f(s[0]) then [s[0]] else [], Filter(s[1..], f), g);
    }
  }

  lemma DistinctConcat<T>(a: seq<T>, b: seq<T>)
    requires Distinct(a) && Distinct(b)
    requires forall i, j :: 0 <= i < |a| && 0 <= j < |b| ==> a[i] != b[j]
    ensures Distinct(a + b)
  {
    forall i, j | 0 <= i < j < |a + b|
      ensures (a + b)[i] != (a + b)[j]
    {
      if i < |a| && |a| <= j {
        assert (a + b)[j] == b[j - |a|];
      }
    }
  }

  /** Filtering cannot introduce a duplicate. */
  lemma {:induction false} FilterDistinct<T(!new)>(s: seq<T>, f: T -> bool)
    requires Distinct(s)
    ensures Distinct(Filter(s, f))
  {
    if s != [] {
      var rest := Filter(s[1..], f);
      assert Distinct(s[1..]) by {
        assert forall k :: 0 <= k < |s[1..]| ==> s[1..][k] == s[k + 1];
      }
      FilterDistinct(s[1..], f);
      FilterMembers(s[1..], f);
      forall j | 0 <= j < |rest|
        ensures s[0] != rest[j]
      {
        assert rest[j] in s[1..];
        var k :| 0 <= k < |s[1..]| && s[1..][k] == rest[j];
        assert s[k + 1] == rest[j];
      }
      DistinctConcat(if f(s[0]) then [s[0]] else [], rest);
    }
  }

  /** `s` with the first occurrence of `x` taken out; `s` itself when `x`
      does not occur. */
  function RemoveFirst<T(==)>(s: seq<T>, x: T): (r: seq<T>)
    ensures |r| == if x in s then |s| - 1 else |s|
  {
    if |s| == 0 then []
    else if s[0] == x then s[1..]
    else
      assert x in s <==> x in s[1..] by { assert s == [s[0]] + s[1..]; }
      [s[0]] + RemoveFirst(s[1..], x)
  }

  /** Exactly one copy of `x` goes, if there is one. */
  lemma {:induction false} RemoveFirstMultiset<T>(s: seq<T>, x: T)
    ensures multiset(RemoveFirst(s, x)) == multiset(s) - multiset{x}
  {
    if s != [] {
      assert s == [s[0]] + s[1..];
      if s[0] != x {
        RemoveFirstMultiset(s[1..], x);
      }
    }
  }

  /** The first occurrence of `x` sits at slot `k`: removing slot `k` is
      removing the first occurrence. */
  lemma {:induction false} RemoveFirstAt<T>(s: seq<T>, k: nat, x: T)
    requires k < |s| && s[k] == x
    requires forall j :: 0 <= j < k ==> s[j] != x
    ensures RemoveFirst(s, x) == s[..k] + s[k + 1..]
  {
    if k > 0 {
      var t := s[1..];
      assert s[0] != x;
      forall j | 0 <= j < k - 1
        ensures t[j] != x
      {
        assert t[j] == s[j + 1];
      }
      RemoveFirstAt(t, k - 1, x);
      assert RemoveFirst(s, x) == [s[0]] + RemoveFirst(t, x);
      ConcatAssoc([s[0]], t[..k - 1], t[k..]);
      assert [s[0]] + t[..k - 1] == s[..k];
      assert t[k..] == s[k + 1..];
    }
  }

  lemma {:induction false} RemoveFirstAbsent<T>(s: seq<T>, x: T)
    requires forall j :: 0 <= j < |s| ==> s[j] != x
    ensures RemoveFirst(s, x) == s
  {
    if s != [] {
      assert s == [s[0]] + s[1..];
      assert forall j :: 0 <= j < |s[1..]| ==> s[1..][j] == s[j + 1];
      RemoveFirstAbsent(s[1..], x);
    }
  }

  /** Taking one slot out of a duplicate-free sequence leaves it duplicate-free. */
  lemma DistinctRemoveSlot<T>(s: seq<T>, k: nat)
    requires Distinct(s) && k < |s|
    ensures Distinct(s[..k] + s[k + 1..])
  {
    var r := s[..k] + s[k + 1..];
    forall i, j | 0 <= i < j < |r|
      ensures r[i] != r[j]
    {
      var i', j' := if i < k then i else i + 1, if j < k then j else j + 1;
      assert r[i] == s[i'] && r[j] == s[j'];
    }
  }

  /** In a duplicate-free sequence, removing the first occurrence of `x`
      removes every occurrence: doing it again changes nothing. */
  lemma {:induction false} RemoveFirstTwice<T>(s: seq<T>, x: T)
    requires Distinct(s)
    ensures RemoveFirst(RemoveFirst(s, x), x) == RemoveFirst(s, x)
  {
    if s != [] {
      var t := s[1..];
      assert forall j :: 0 <= j < |t| ==> t[j] == s[j + 1];
      if s[0] == x {
        RemoveFirstAbsent(t, x);
      } else {
        RemoveFirstTwice(t, x);
      }
    }
  }

  /** The first slot of `s` holding `x`. */
  function IndexOf<T(==)>(s: seq<T>, x: T): (k: nat)
    requires x in s
    ensures k < |s| && s[k] == x
    ensures forall j :: 0 <= j < k ==> s[j] != x
  {
    if s[0] == x then 0
    else
      assert x in s[1..] by { assert s == [s[0]] + s[1..]; }
      var k := IndexOf(s[1..], x);
      assert forall j :: 1 <= j <= k ==> s[j] == s[1..][j - 1];
      k + 1
  }

  /** In a duplicate-free sequence, removing the first occurrence of `x`
      leaves no `x` behind. */
  lemma {:induction false} RemoveFirstGone<T>(s: seq<T>, x: T)
    requires Distinct(s)
    ensures x !in RemoveFirst(s, x)
  {
    if s != [] {
      var t := s[1..];
      assert forall j :: 0 <= j < |t| ==> t[j] == s[j + 1];
      if s[0] != x {
        RemoveFirstGone(t, x);
      }
    }
  }

  lemma ConcatAssoc<T>(a: seq<T>, b: seq<T>, c: seq<T>)
    ensures (a + b) + c == a + (b + c)
  {
  }
}
