/** Fact rows and the list operations the dashboard applies to them: Python's
    stable `sorted` with a key, and the grouping of a sorted list into runs of
    one fact name (`itertools.groupby`, and pandas' `groupby("fact_name")`,
    whose groups come out in ascending key order with their rows in input
    order). */
module Records {
  import opened Ordering

  /** One row of fact data: a timestamp in whole minutes, the fact's name and
      its value. The query returns `Record<real>`; a regularised series holds
      `Record<Option<real>>`, where an absent value is pandas' NaN. */
  datatype Record<V> = Record(ts: int, name: string, value: V)

  /** A row as the query returns it. */
  type Fact = Record<real>

  /** The set of fact names occurring in `s` (`{i["fact_name"] for i in data}`). */
  function Names<V(==)>(s: seq<Record<V>>): set<string>
  {
    set r | r in s :: r.name
  }

  lemma NamesConcat<V>(a: seq<Record<V>>, b: seq<Record<V>>)
    ensures Names(a + b) == Names(a) + Names(b)
  {
    assert forall r :: r in a + b <==> r in a || r in b;
  }

  lemma NamesOfRun<V>(s: seq<Record<V>>, n: string)
    requires s != []
    requires forall k :: 0 <= k < |s| ==> s[k].name == n
    ensures Names(s) == {n}
  {
    assert s[0] in s;
  }

  /** The rows of fact `n`, in their order in `s`. */
  function OfFact<V(==)>(s: seq<Record<V>>, n: string): seq<Record<V>>
  {
    if s == [] then [] else (if s[0].name == n then [s[0]] else []) + OfFact(s[1..], n)
  }

  /** Appending rows that all belong to `m` adds them to the rows of `m`
      and nothing to those of any other fact. */
  lemma OfFactAppend<V>(a: seq<Record<V>>, b: seq<Record<V>>, n: string, m: string)
    requires forall k :: 0 <= k < |b| ==> b[k].name == m
    ensures OfFact(a + b, n) == OfFact(a, n) + (if n == m then b else [])
  {
    OfFactConcat(a, b, n);
    if n == m {
      OfFactAll(b, n);
    } else {
      OfFactNone(b, n);
    }
  }

  lemma {:induction false} OfFactConcat<V>(a: seq<Record<V>>, b: seq<Record<V>>, n: string)
    ensures OfFact(a + b, n) == OfFact(a, n) + OfFact(b, n)
    decreases |a|
  {
    if a != [] {
      assert (a + b)[0] == a[0] && (a + b)[1..] == a[1..] + b;
      OfFactConcat(a[1..], b, n);
    } else {
      assert a + b == b;
    }
  }

  lemma {:induction false} OfFactNone<V>(s: seq<Record<V>>, n: string)
    requires forall k :: 0 <= k < |s| ==> s[k].name != n
    ensures OfFact(s, n) == []
    decreases |s|
  {
    if s != [] {
      OfFactNone(s[1..], n);
    }
  }

  lemma {:induction false} OfFactAll<V>(s: seq<Record<V>>, n: string)
    requires forall k :: 0 <= k < |s| ==> s[k].name == n
    ensures OfFact(s, n) == s
    decreases |s|
  {
    if s != [] {
      OfFactAll(s[1..], n);
      assert s == [s[0]] + s[1..];
    }
  }

  /** A fact has rows exactly when its name occurs, and its rows are rows of `s`. */
  lemma {:induction false} OfFactMembers<V>(s: seq<Record<V>>, n: string)
    ensures (OfFact(s, n) != []) == (n in Names(s))
    ensures forall r :: r in OfFact(s, n) <==> r in s && r.name == n
    decreases |s|
  {
    if s != [] {
      OfFactMembers(s[1..], n);
      assert Names(s) == {s[0].name} + Names(s[1..]) by {
        assert s == [s[0]] + s[1..];
      }
      assert forall r :: r in s <==> r == s[0] || r in s[1..];
    }
  }

  /** The sort keys the source uses: `x["fact_name"]` and `(x["fact_name"], x["ts"])`. */
  datatype SortKey = ByName | ByNameTs

  /** `x` sorts no later than `y` under `key` (Python's key comparison). */
  predicate KeyLe<V(==)>(key: SortKey, x: Record<V>, y: Record<V>)
  {
    match key
    case ByName => StrLe(x.name, y.name)
    case ByNameTs => StrLt(x.name, y.name) || (x.name == y.name && x.ts <= y.ts)
  }

  lemma KeyLeTotal<V>(key: SortKey, x: Record<V>, y: Record<V>)
    ensures KeyLe(key, x, y) || KeyLe(key, y, x)
  {
    StrLtTotal(x.name, y.name);
  }

  lemma KeyLeTransitive<V>(key: SortKey, x: Record<V>, y: Record<V>, z: Record<V>)
    requires KeyLe(key, x, y) && KeyLe(key, y, z)
    ensures KeyLe(key, x, z)
  {
    if x.name != y.name && y.name != z.name {
      StrLtTransitive(x.name, y.name, z.name);
    }
  }

  /** Insert `x` before the first element it sorts no later than; elements
      that compare equal to `x` stay behind it. */
  function Insert<V(==)>(key: SortKey, x: Record<V>, s: seq<Record<V>>): (r: seq<Record<V>>)
    ensures multiset(r) == multiset(s) + multiset{x}
  {
    if s == [] then [x]
    else if KeyLe(key, x, s[0]) then [x] + s
    else
      assert s == [s[0]] + s[1..];
      [s[0]] + Insert(key, x, s[1..])
  }

  /** Python's `sorted(s, key=...)`: a stable sort, here by insertion. The
      result is a permutation of the input. */
  function SortBy<V(==)>(key: SortKey, s: seq<Record<V>>): (r: seq<Record<V>>)
    ensures multiset(r) == multiset(s)
  {
    if s == [] then []
    else
      assert s == [s[0]] + s[1..];
      Insert(key, s[0], SortBy(key, s[1..]))
  }

  predicate SortedBy<V(==)>(key: SortKey, s: seq<Record<V>>)
  {
    forall i, j :: 0 <= i < j < |s| ==> KeyLe(key, s[i], s[j])
  }

  lemma {:induction false} InsertSorted<V>(key: SortKey, x: Record<V>, s: seq<Record<V>>)
    requires SortedBy(key, s)
    ensures SortedBy(key, Insert(key, x, s))
    decreases |s|
  {
    if s != [] {
      SortedTail(key, s);
      if KeyLe(key, x, s[0]) {
        forall y | y in s
          ensures KeyLe(key, x, y)
        {
          if y != s[0] {
            KeyLeTransitive(key, x, s[0], y);
          }
        }
        SortedCons(key, x, s);
      } else {
        KeyLeTotal(key, x, s[0]);
        InsertSorted(key, x, s[1..]);
        var t := Insert(key, x, s[1..]);
        forall y | y in t
          ensures KeyLe(key, s[0], y)
        {
          assert y in multiset(t);
        }
        SortedCons(key, s[0], t);
      }
    }
  }

  /** The tail of a sorted list is sorted and sorts no earlier than its head. */
  lemma SortedTail<V>(key: SortKey, s: seq<Record<V>>)
    requires SortedBy(key, s) && s != []
    ensures SortedBy(key, s[1..])
    ensures forall y :: y in s[1..] ==> KeyLe(key, s[0], y)
  {
    forall y | y in s[1..]
      ensures KeyLe(key, s[0], y)
    {
      var j :| 0 <= j < |s[1..]| && s[1..][j] == y;
      assert s[j + 1] == y;
    }
  }

  /** A row no later than every row of a sorted list can go in front of it. */
  lemma SortedCons<V>(key: SortKey, y: Record<V>, t: seq<Record<V>>)
    requires SortedBy(key, t)
    requires forall z :: z in t ==> KeyLe(key, y, z)
    ensures SortedBy(key, [y] + t)
  {
    var r := [y] + t;
    forall i, j | 0 <= i < j < |r|
      ensures KeyLe(key, r[i], r[j])
    {
      assert r[j] == t[j - 1];
      if i > 0 {
        assert r[i] == t[i - 1];
      } else {
        assert t[j - 1] in t;
      }
    }
  }

  /** `sorted` returns its input in ascending key order. */
  lemma {:induction false} SortBySorted<V>(key: SortKey, s: seq<Record<V>>)
    ensures SortedBy(key, SortBy(key, s))
    decreases |s|
  {
    if s != [] {
      SortBySorted(key, s[1..]);
      InsertSorted(key, s[0], SortBy(key, s[1..]));
    }
  }

  lemma {:induction false} InsertOfFact<V>(x: Record<V>, s: seq<Record<V>>, n: string)
    ensures OfFact(Insert(ByName, x, s), n) == if x.name == n then [x] + OfFact(s, n) else OfFact(s, n)
    decreases |s|
  {
    if s == [] {
      assert OfFact([x], n) == (if x.name == n then [x] else []) + OfFact([], n);
    } else if KeyLe(ByName, x, s[0]) {
      assert ([x] + s)[1..] == s;
    } else {
      InsertOfFact(x, s[1..], n);
      var r := [s[0]] + Insert(ByName, x, s[1..]);
      assert r[1..] == Insert(ByName, x, s[1..]);
    }
  }

  /** Sorting by name is stable: each fact keeps its rows in their input order. */
  lemma {:induction false} SortByNameStable<V>(s: seq<Record<V>>, n: string)
    ensures OfFact(SortBy(ByName, s), n) == OfFact(s, n)
    decreases |s|
  {
    if s != [] {
      SortByNameStable(s[1..], n);
      InsertOfFact(s[0], SortBy(ByName, s[1..]), n);
    }
  }

  /** Both sort keys order the rows by name first. */
  predicate NameSorted<V(==)>(s: seq<Record<V>>)
  {
    forall i, j :: 0 <= i < j < |s| ==> StrLe(s[i].name, s[j].name)
  }

  lemma SortedByNameSorted<V>(key: SortKey, s: seq<Record<V>>)
    requires SortedBy(key, s)
    ensures NameSorted(s)
  {
    forall i, j | 0 <= i < j < |s|
      ensures StrLe(s[i].name, s[j].name)
    {
      assert KeyLe(key, s[i], s[j]);
    }
  }

  /** The keys `groupby` yields for `s`: the name of each run of consecutive
      rows with one name, in order. */
  function RunNames<V(==)>(s: seq<Record<V>>): seq<string>
  {
    if s == [] then []
    else if |s| > 1 && s[|s| - 2].name == s[|s| - 1].name then RunNames(s[..|s| - 1])
    else RunNames(s[..|s| - 1]) + [s[|s| - 1].name]
  }

  /** The group keys of a grouping by fact name: its runs once sorted by name. */
  function SortedNames<V(==)>(s: seq<Record<V>>): seq<string>
  {
    RunNames(SortBy(ByName, s))
  }

  lemma {:induction false} RunNamesOfSorted<V>(s: seq<Record<V>>)
    requires NameSorted(s)
    ensures StrictlyAscending(RunNames(s))
    ensures forall n :: n in RunNames(s) <==> n in Names(s)
    ensures s != [] ==> RunNames(s) != [] && RunNames(s)[|RunNames(s)| - 1] == s[|s| - 1].name
    decreases |s|
  {
    RunNamesMembers(s);
    RunNamesLast(s);
    if s != [] {
      var p := s[..|s| - 1];
      NameSortedInit(s);
      RunNamesOfSorted(p);
      if p != [] && s[|s| - 2].name != s[|s| - 1].name {
        RunNamesLast(p);
        AscendingAppend(RunNames(p), s[|s| - 1].name);
      }
    }
  }

  /** The run names of any list end with the name of its last row. */
  lemma {:induction false} RunNamesLast<V>(s: seq<Record<V>>)
    ensures s != [] ==> RunNames(s) != [] && RunNames(s)[|RunNames(s)| - 1] == s[|s| - 1].name
    decreases |s|
  {
    if |s| > 1 && s[|s| - 2].name == s[|s| - 1].name {
      RunNamesLast(s[..|s| - 1]);
    }
  }

  /** The run names of any list are its names. */
  lemma {:induction false} RunNamesMembers<V>(s: seq<Record<V>>)
    ensures forall n :: n in RunNames(s) <==> n in Names(s)
    decreases |s|
  {
    if s != [] {
      var p, last := s[..|s| - 1], s[|s| - 1];
      RunNamesMembers(p);
      NamesConcat(p, [last]);
      assert s == p + [last];
      assert Names([last]) == {last.name};
      if |s| > 1 && s[|s| - 2].name == last.name {
        assert last.name in Names(p) by { assert p[|p| - 1] == s[|s| - 2]; }
      }
    }
  }

  /** A name-sorted list is name-sorted without its last row, and that row's
      name is at least the one before it. */
  lemma NameSortedInit<V>(s: seq<Record<V>>)
    requires NameSorted(s) && s != []
    ensures NameSorted(s[..|s| - 1])
    ensures |s| > 1 ==> StrLe(s[|s| - 2].name, s[|s| - 1].name)
  {
  }

  /** The group keys are the input's names, each once, in ascending order. */
  lemma SortedNamesSpec<V>(s: seq<Record<V>>)
    ensures StrictlyAscending(SortedNames(s))
    ensures forall n :: n in SortedNames(s) <==> n in Names(s)
    ensures |SortedNames(s)| == |Names(s)|
  {
    var t := SortBy(ByName, s);
    SortBySorted(ByName, s);
    SortedByNameSorted(ByName, t);
    RunNamesOfSorted(t);
    assert forall r :: r in t <==> r in s by {
      assert forall r :: r in t <==> r in multiset(t);
    }
    assert Names(t) == Names(s);
    StrictlyAscendingCard(SortedNames(s));
    assert (set x | x in SortedNames(s)) == Names(s);
  }

  /** A run `s[i..j]` that starts and ends at name changes of a name-sorted
      list is everything the list holds for that name. */
  lemma RunIsOfFact<V>(s: seq<Record<V>>, i: nat, j: nat, n: string)
    requires NameSorted(s)
    requires i < j <= |s|
    requires forall k :: i <= k < j ==> s[k].name == n
    requires i == 0 || s[i - 1].name != n
    requires j == |s| || s[j].name != n
    ensures OfFact(s, n) == s[i..j]
  {
    forall k | 0 <= k < i
      ensures s[k].name != n
    {
      NameBeforeRun(s, k, i, n);
    }
    forall k | j <= k < |s|
      ensures s[k].name != n
    {
      NameAfterRun(s, j, k, n);
    }
    OfFactOfRun(s, i, j, n);
  }

  /** If only `s[i..j]` holds rows of `n`, those are the rows of `n`. */
  lemma OfFactOfRun<V>(s: seq<Record<V>>, i: nat, j: nat, n: string)
    requires i <= j <= |s|
    requires forall k :: 0 <= k < |s| ==> (s[k].name == n <==> i <= k < j)
    ensures OfFact(s, n) == s[i..j]
  {
    var before, run, after := s[..i], s[i..j], s[j..];
    assert forall k :: 0 <= k < |before| ==> before[k] == s[k];
    assert forall k :: 0 <= k < |run| ==> run[k] == s[i + k];
    assert forall k :: 0 <= k < |after| ==> after[k] == s[j + k];
    OfFactNone(before, n);
    OfFactNone(after, n);
    OfFactAll(run, n);
    OfFactConcat(before, run, n);
    OfFactConcat(before + run, after, n);
    SplitThree(s, i, j);
  }

  lemma SplitThree<T>(s: seq<T>, i: nat, j: nat)
    requires i <= j <= |s|
    ensures s == s[..i] + s[i..j] + s[j..]
  {
    assert s[..j] == s[..i] + s[i..j];
    assert s == s[..j] + s[j..];
  }

  lemma NameBeforeRun<V>(s: seq<Record<V>>, k: nat, i: nat, n: string)
    requires NameSorted(s)
    requires k < i < |s| && s[i].name == n && s[i - 1].name != n
    ensures s[k].name != n
  {
    if s[k].name == n {
      assert StrLe(s[i - 1].name, s[i].name);
      if k < i - 1 {
        assert StrLe(s[k].name, s[i - 1].name);
      }
      StrLeAntisymmetric(s[i - 1].name, n);
    }
  }

  lemma NameAfterRun<V>(s: seq<Record<V>>, j: nat, k: nat, n: string)
    requires NameSorted(s)
    requires 0 < j <= k < |s| && s[j - 1].name == n && s[j].name != n
    ensures s[k].name != n
  {
    if s[k].name == n {
      assert StrLe(s[j - 1].name, s[j].name);
      if j < k {
        assert StrLe(s[j].name, s[k].name);
      }
      StrLeAntisymmetric(s[j].name, n);
    }
  }

  /** Starting a new run at `i` adds its name to the keys seen so far. */
  lemma RunNamesStart<V>(s: seq<Record<V>>, i: nat)
    requires i < |s|
    requires i == 0 || s[i - 1].name != s[i].name
    ensures RunNames(s[..i + 1]) == RunNames(s[..i]) + [s[i].name]
  {
    assert s[..i + 1][..i] == s[..i];
  }

  /** Extending a run adds no key. */
  lemma RunNamesExtend<V>(s: seq<Record<V>>, j: nat)
    requires 0 < j < |s|
    requires s[j - 1].name == s[j].name
    ensures RunNames(s[..j + 1]) == RunNames(s[..j])
  {
    assert s[..j + 1][..j] == s[..j];
  }

  /** A prefix of a list has no more group keys than the list. */
  lemma {:induction false} RunNamesPrefix<V>(s: seq<Record<V>>, m: nat)
    requires m <= |s|
    ensures |RunNames(s[..m])| <= |RunNames(s)|
    decreases |s|
  {
    if m < |s| {
      var p := s[..|s| - 1];
      RunNamesPrefix(p, m);
      assert p[..m] == s[..m];
    } else {
      assert s[..m] == s;
    }
  }

  /** One step of `groupby` over `s`: the run that starts at `i` ends at the
      first row with another name, or at the end of the list. */
  method RunEnd<V>(s: seq<Record<V>>, i: nat) returns (j: nat)
    requires i < |s|
    requires i == 0 || s[i - 1].name != s[i].name
    ensures i < j <= |s|
    ensures forall k :: i <= k < j ==> s[k].name == s[i].name
    ensures j == |s| || s[j].name != s[i].name
    ensures RunNames(s[..j]) == RunNames(s[..i]) + [s[i].name]
  {
    RunNamesStart(s, i);
    j := i + 1;
    while j < |s| && s[j].name == s[i].name
      invariant i < j <= |s|
      invariant forall k :: i <= k < j ==> s[k].name == s[i].name
      invariant RunNames(s[..j]) == RunNames(s[..i]) + [s[i].name]
    {
      RunNamesExtend(s, j);
      j := j + 1;
    }
  }
}
