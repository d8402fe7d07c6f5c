/** The body of `render_latest_facts`: the rows are sorted by fact name and
    timestamp, grouped by fact name, and the last row of each group, with its
    redundant `fact_name` key deleted, is stored under that name. */
module Latest {
  import opened Ordering
  import opened Records

  /** A fact row once `del row["fact_name"]` has removed its name: the
      remaining fields, unchanged. */
  datatype Entry = Entry(ts: int, value: real)

  function WithoutName(f: Fact): Entry
  {
    Entry(f.ts, f.value)
  }

  /** `e` is a row of fact `n` in `data`, name deleted, and no row of that
      fact is later than it. */
  ghost predicate IsLatest(data: seq<Fact>, n: string, e: Entry)
  {
    && (exists f :: f in data && f.name == n && WithoutName(f) == e)
    && (forall f :: f in data && f.name == n ==> f.ts <= e.ts)
  }

  /** Every entry of `latest` is the latest row of its fact in `data`. */
  ghost predicate AllLatest(data: seq<Fact>, latest: map<string, Entry>)
  {
    forall n :: n in latest ==> IsLatest(data, n, latest[n])
  }

  /** The last row of a run of a list sorted by name and timestamp is the
      latest row of that fact anywhere in the list. */
  lemma LastOfRunIsLatest(s: seq<Fact>, i: nat, j: nat, n: string)
    requires SortedBy(ByNameTs, s)
    requires i < j <= |s|
    requires forall k :: i <= k < j ==> s[k].name == n
    requires i == 0 || s[i - 1].name != n
    requires j == |s| || s[j].name != n
    ensures IsLatest(s, n, WithoutName(s[j - 1]))
  {
    SortedByNameSorted(ByNameTs, s);
    assert s[j - 1] in s;
    forall f | f in s && f.name == n
      ensures f.ts <= s[j - 1].ts
    {
      var k :| 0 <= k < |s| && s[k] == f;
      if k < i {
        NameBeforeRun(s, k, i, n);
      } else if k >= j {
        NameAfterRun(s, j, k, n);
      } else if k < j - 1 {
        assert KeyLe(ByNameTs, s[k], s[j - 1]);
        StrLtIrreflexive(n);
      }
    }
  }

  /** `latest` as `render_latest_facts` builds it: one key per fact present
      in `data` and no other, each holding the fact's row with the greatest
      timestamp, without its name. */
  method LatestFacts(data: seq<Fact>) returns (latest: map<string, Entry>)
    ensures latest.Keys == Names(data)
    ensures forall n :: n in latest ==> IsLatest(data, n, latest[n])
  {
    var sorted := SortBy(ByNameTs, data);
    SortBySorted(ByNameTs, data);
    latest := map[];
    var i := 0;
    while i < |sorted|
      invariant i <= |sorted|
      invariant 0 < i < |sorted| ==> sorted[i - 1].name != sorted[i].name
      invariant latest.Keys == Names(sorted[..i])
      invariant AllLatest(sorted, latest)
    {
      i, latest := StoreLastOfRun(sorted, i, latest);
    }
    assert sorted[..i] == sorted;
    SameRowsKeepLatest(sorted, data, latest);
  }

  /** One turn of the loop: the run of the fact starting at `i` ends at `j`,
      and its last row, without the name, is stored under the fact's name. */
  method StoreLastOfRun(s: seq<Fact>, i: nat, latest: map<string, Entry>)
    returns (j: nat, next: map<string, Entry>)
    requires SortedBy(ByNameTs, s)
    requires i < |s|
    requires i == 0 || s[i - 1].name != s[i].name
    requires latest.Keys == Names(s[..i]) && AllLatest(s, latest)
    ensures i < j <= |s|
    ensures forall k :: i <= k < j ==> s[k].name == s[i].name
    ensures j < |s| ==> s[j - 1].name != s[j].name
    ensures next == latest[s[i].name := WithoutName(s[j - 1])]
    ensures next.Keys == Names(s[..j]) && AllLatest(s, next)
  {
    var fact := s[i].name;
    j := RunEnd(s, i);
    assert s[j - 1].name == fact;
    LatestStep(s, i, j, latest);
    next := latest[fact := WithoutName(s[j - 1])];
  }

  /** Storing the last row of the run `s[i..j]` under its name extends the
      map from the names before `i` to the names before `j`. */
  lemma LatestStep(s: seq<Fact>, i: nat, j: nat, latest: map<string, Entry>)
    requires SortedBy(ByNameTs, s)
    requires i < j <= |s|
    requires forall k :: i <= k < j ==> s[k].name == s[i].name
    requires i == 0 || s[i - 1].name != s[i].name
    requires j == |s| || s[j].name != s[i].name
    requires latest.Keys == Names(s[..i]) && AllLatest(s, latest)
    ensures var next := latest[s[i].name := WithoutName(s[j - 1])];
      next.Keys == Names(s[..j]) && AllLatest(s, next)
  {
    LastOfRunIsLatest(s, i, j, s[i].name);
    NamesOfPrefixRun(s, i, j);
  }

  /** Extending a prefix by a run of one fact adds exactly that fact's name. */
  lemma NamesOfPrefixRun(s: seq<Fact>, i: nat, j: nat)
    requires i < j <= |s|
    requires forall k :: i <= k < j ==> s[k].name == s[i].name
    ensures Names(s[..j]) == Names(s[..i]) + {s[i].name}
  {
    var group := s[i..j];
    assert s[..j] == s[..i] + group;
    NamesConcat(s[..i], group);
    assert forall k :: 0 <= k < |group| ==> group[k] == s[i + k];
    NamesOfRun(group, s[i].name);
  }

  /** The latest rows of a permutation are those of the original. */
  lemma SameRowsKeepLatest(a: seq<Fact>, b: seq<Fact>, latest: map<string, Entry>)
    requires multiset(a) == multiset(b)
    requires latest.Keys == Names(a) && AllLatest(a, latest)
    ensures latest.Keys == Names(b) && AllLatest(b, latest)
  {
    assert forall f :: f in a <==> f in b by {
      assert forall f :: f in a <==> f in multiset(a);
    }
    forall n | n in latest
      ensures IsLatest(b, n, latest[n])
    {
      IsLatestSameRows(a, b, n, latest[n]);
    }
  }

  /** Which row is latest depends only on which rows there are. */
  lemma IsLatestSameRows(a: seq<Fact>, b: seq<Fact>, n: string, e: Entry)
    requires forall f :: f in a <==> f in b
    requires IsLatest(a, n, e)
    ensures IsLatest(b, n, e)
  {
    var f :| f in a && f.name == n && WithoutName(f) == e;
    assert f in b;
  }
}
