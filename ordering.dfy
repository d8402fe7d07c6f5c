/** Python's ordering of `str` values: lexicographic by code point, a proper
    prefix sorting before the longer string. `sorted`, `itertools.groupby` on
    a sorted list and pandas' `groupby` (which sorts its keys) all use it. */
module Ordering {

  predicate StrLt(a: string, b: string)
    decreases |a|
  {
    if |a| == 0 then |b| > 0
    else if |b| == 0 then false
    else if a[0] != b[0] then a[0] < b[0]
    else StrLt(a[1..], b[1..])
  }

  predicate StrLe(a: string, b: string)
  {
    a == b || StrLt(a, b)
  }

  lemma {:induction false} StrLtIrreflexive(a: string)
    ensures !StrLt(a, a)
    decreases |a|
  {
    if |a| > 0 {
      StrLtIrreflexive(a[1..]);
    }
  }

  lemma {:induction false} StrLtTransitive(a: string, b: string, c: string)
    requires StrLt(a, b) && StrLt(b, c)
    ensures StrLt(a, c)
    decreases |a|
  {
    if |a| > 0 && a[0] == b[0] && b[0] == c[0] {
      StrLtTransitive(a[1..], b[1..], c[1..]);
    }
  }

  /** Any two strings are comparable: the order is total. */
  lemma {:induction false} StrLtTotal(a: string, b: string)
    ensures a == b || StrLt(a, b) || StrLt(b, a)
    decreases |a|
  {
    if |a| > 0 && |b| > 0 && a[0] == b[0] {
      StrLtTotal(a[1..], b[1..]);
      if a[1..] == b[1..] {
        assert a == [a[0]] + a[1..] && b == [b[0]] + b[1..];
      }
    }
  }

  lemma StrLtAsymmetric(a: string, b: string)
    requires StrLt(a, b)
    ensures !StrLt(b, a)
  {
    if StrLt(b, a) {
      StrLtTransitive(a, b, a);
      StrLtIrreflexive(a);
    }
  }

  lemma StrLeAntisymmetric(a: string, b: string)
    requires StrLe(a, b) && StrLe(b, a)
    ensures a == b
  {
    if a != b {
      StrLtAsymmetric(a, b);
    }
  }

  /** A strictly ascending sequence of names, as groupby yields its keys. */
  predicate StrictlyAscending(ns: seq<string>)
  {
    forall i, j :: 0 <= i < j < |ns| ==> StrLt(ns[i], ns[j])
  }

  /** A strictly ascending sequence is fixed by its elements: the order of
      the keys depends only on the set of names, not on how they arrived. */
  lemma {:induction false} StrictlyAscendingUnique(a: seq<string>, b: seq<string>)
    requires StrictlyAscending(a) && StrictlyAscending(b)
    requires forall x :: x in a <==> x in b
    ensures a == b
    decreases |a|
  {
    if a != [] && b != [] {
      assert a[0] in b;
      assert b[0] in a;
      if a[0] != b[0] {
        assert StrLt(b[0], a[0]);
        assert StrLt(a[0], b[0]);
        StrLtAsymmetric(a[0], b[0]);
      }
      assert a == [a[0]] + a[1..] && b == [b[0]] + b[1..];
      StrLtIrreflexive(a[0]);
      forall x
        ensures x in a[1..] <==> x in b[1..]
      {
        if x in a[1..] {
          var i :| 1 <= i < |a| && a[i] == x;
          assert x in b && x != b[0];
        }
        if x in b[1..] {
          var i :| 1 <= i < |b| && b[i] == x;
          assert x in a && x != a[0];
        }
      }
      StrictlyAscendingUnique(a[1..], b[1..]);
      assert a == [a[0]] + a[1..] && b == [b[0]] + b[1..];
    } else {
      StrictlyAscendingCard(a);
      StrictlyAscendingCard(b);
      assert (set x | x in a) == (set x | x in b);
    }
  }

  /** A strictly ascending sequence has no repeated element, so it has as
      many elements as its set. */
  lemma {:induction false} StrictlyAscendingCard(ns: seq<string>)
    requires StrictlyAscending(ns)
    ensures |set x | x in ns| == |ns|
    decreases |ns|
  {
    if ns != [] {
      var tail := ns[1..];
      assert StrictlyAscending(tail);
      StrictlyAscendingCard(tail);
      var head := ns[0];
      StrLtIrreflexive(head);
      forall k | 0 <= k < |tail|
        ensures tail[k] != head
      {
        assert StrLt(ns[0], ns[k + 1]);
      }
      assert (set x | x in ns) == (set x | x in tail) + {head} by {
        assert ns == [head] + tail;
      }
    }
  }

  /** Dropping the last of strictly ascending names leaves them strictly
      ascending and without that name. */
  lemma AscendingSplit(ns: seq<string>)
    requires StrictlyAscending(ns) && ns != []
    ensures StrictlyAscending(ns[..|ns| - 1])
    ensures ns[|ns| - 1] !in ns[..|ns| - 1]
    ensures forall x :: x in ns <==> x in ns[..|ns| - 1] || x == ns[|ns| - 1]
  {
    var init, last := ns[..|ns| - 1], ns[|ns| - 1];
    assert ns == init + [last];
    StrLtIrreflexive(last);
    assert forall p :: 0 <= p < |init| ==> StrLt(ns[p], last);
  }

  /** A name above the last of strictly ascending names extends them. */
  lemma AscendingAppend(ns: seq<string>, x: string)
    requires StrictlyAscending(ns) && ns != []
    requires StrLe(ns[|ns| - 1], x) && ns[|ns| - 1] != x
    ensures StrictlyAscending(ns + [x])
  {
    forall i | 0 <= i < |ns| - 1
      ensures StrLt(ns[i], x)
    {
      StrLtTransitive(ns[i], ns[|ns| - 1], x);
    }
    assert forall i :: 0 <= i < |ns| ==> (ns + [x])[i] == ns[i];
  }
}
