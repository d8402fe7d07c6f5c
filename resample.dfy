/** `regularize_timeseries`: the rows of each fact are moved down to a
    five-minute boundary, averaged per boundary, and laid out on the full grid
    of boundaries between the fact's first and last bucket, a boundary without
    rows carrying an absent value (NaN). The per-fact series are concatenated
    in ascending fact-name order. */
module Resample {
  import opened Wrappers
  import opened Ordering
  import opened Records

  /** `TIMESTEP_MINS`: the width of one bucket, in minutes. */
  const TimestepMins: int := 5

  /** A row of a regularised series; `None` is a boundary without samples. */
  type Row = Record<Option<real>>

  /** One group of `groupby("ts").mean()`: a boundary and the mean there. */
  datatype Bucket = Bucket(ts: int, mean: real)

  /** One entry of the `asfreq` grid. */
  datatype Slot = Slot(ts: int, value: Option<real>)

  // ---------------------------------------------------------------------
  // Flooring (`d.ts.dt.floor("5min")`)
  // ---------------------------------------------------------------------

  /** The bucket boundary of minute `t`, rounding towards the past: the one
      multiple of the step at or below `t`, less than one step away. */
  function Floor(t: int): (r: int)
    ensures r % TimestepMins == 0
    ensures r <= t < r + TimestepMins
    ensures t % TimestepMins == 0 ==> r == t
  {
    t - t % TimestepMins
  }

  /** Floor is the only aligned boundary within one step below `t`, so
      flooring twice is flooring once. */
  lemma FloorUnique(t: int, b: int)
    requires b % TimestepMins == 0 && b <= t < b + TimestepMins
    ensures b == Floor(t) && Floor(b) == b
  {
  }

  function FloorTimestamps(rows: seq<Fact>): seq<Fact>
  {
    seq(|rows|, k requires 0 <= k < |rows| => rows[k].(ts := Floor(rows[k].ts)))
  }

  /** The values of the rows that fall into bucket `b`, in input order,
      duplicates included. */
  function BucketValues(rows: seq<Fact>, b: int): seq<real>
  {
    if rows == [] then []
    else (if Floor(rows[0].ts) == b then [rows[0].value] else []) + BucketValues(rows[1..], b)
  }

  // ---------------------------------------------------------------------
  // Grouping by timestamp and averaging (`groupby("ts").mean()`)
  // ---------------------------------------------------------------------

  function Timestamps(rows: seq<Fact>): set<int>
  {
    set r | r in rows :: r.ts
  }

  /** The values of the rows stamped `t`, in input order. */
  function ValuesAt(rows: seq<Fact>, t: int): seq<real>
  {
    if rows == [] then []
    else (if rows[0].ts == t then [rows[0].value] else []) + ValuesAt(rows[1..], t)
  }

  predicate Increasing(ks: seq<int>)
  {
    forall i, j :: 0 <= i < j < |ks| ==> ks[i] < ks[j]
  }

  /** Add `t` to a strictly increasing list of keys, keeping it so. */
  function InsertKey(t: int, ks: seq<int>): seq<int>
  {
    if ks == [] then [t]
    else if t < ks[0] then [t] + ks
    else if t == ks[0] then ks
    else [ks[0]] + InsertKey(t, ks[1..])
  }

  /** The distinct timestamps of `rows`, ascending: the groupby's index. */
  function GroupKeys(rows: seq<Fact>): seq<int>
  {
    if rows == [] then [] else InsertKey(rows[0].ts, GroupKeys(rows[1..]))
  }

  function Sum(vs: seq<real>): real
  {
    if vs == [] then 0.0 else vs[0] + Sum(vs[1..])
  }

  /** The arithmetic mean, computed exactly. */
  function Mean(vs: seq<real>): real
    requires vs != []
  {
    Sum(vs) / (|vs| as real)
  }

  function GroupMeans(rows: seq<Fact>, ks: seq<int>): (r: seq<Bucket>)
    requires forall k :: k in ks ==> k in Timestamps(rows)
    ensures |r| == |ks|
    ensures forall i :: 0 <= i < |ks| ==> r[i].ts == ks[i]
  {
    if ks == [] then []
    else
      ValuesAtNonEmpty(rows, ks[0]);
      [Bucket(ks[0], Mean(ValuesAt(rows, ks[0])))] + GroupMeans(rows, ks[1..])
  }

  /** `groupby("ts").mean()`: one bucket per distinct timestamp, ascending. */
  function GroupMean(rows: seq<Fact>): seq<Bucket>
  {
    GroupKeysSpec(rows);
    GroupMeans(rows, GroupKeys(rows))
  }

  // ---------------------------------------------------------------------
  // Gap filling (`asfreq("5min")`) and the per-fact chain
  // ---------------------------------------------------------------------

  /** The mean recorded for boundary `t`, if a bucket has it. */
  function Lookup(bs: seq<Bucket>, t: int): Option<real>
  {
    if bs == [] then None
    else if bs[0].ts == t then Some(bs[0].mean)
    else Lookup(bs[1..], t)
  }

  /** The number of grid points `date_range(first, last, freq="5min")` has. */
  function GridSize(first: int, last: int): nat
  {
    if last < first then 0 else (last - first) / TimestepMins + 1
  }

  /** `asfreq`: reindex the buckets onto the grid from the first bucket to
      the last, one step apart; a grid point without a bucket is absent. */
  function AsFreq(bs: seq<Bucket>): seq<Slot>
  {
    if bs == [] then []
    else
      var first := bs[0].ts;
      seq(GridSize(first, bs[|bs| - 1].ts),
          k => Slot(first + TimestepMins * k, Lookup(bs, first + TimestepMins * k)))
  }

  /** The chain applied to the rows of one fact: floor, group-mean, asfreq,
      reset_index and `assign(fact_name=key)`. */
  function Series(name: string, rows: seq<Fact>): seq<Row>
  {
    var slots := AsFreq(GroupMean(FloorTimestamps(rows)));
    seq(|slots|, k requires 0 <= k < |slots| => Record(slots[k].ts, name, slots[k].value))
  }

  // ---------------------------------------------------------------------
  // Facts about the pieces of the chain
  // ---------------------------------------------------------------------

  lemma {:induction false} ValuesAtNonEmpty(rows: seq<Fact>, t: int)
    requires t in Timestamps(rows)
    ensures ValuesAt(rows, t) != []
    decreases |rows|
  {
    if rows[0].ts != t {
      assert rows == [rows[0]] + rows[1..];
      assert t in Timestamps(rows[1..]);
      ValuesAtNonEmpty(rows[1..], t);
    }
  }

  lemma InsertKeySpec(t: int, ks: seq<int>)
    requires Increasing(ks)
    ensures Increasing(InsertKey(t, ks))
    ensures forall x :: x in InsertKey(t, ks) <==> x == t || x in ks
  {
    InsertKeyMembers(t, ks);
    InsertKeyIncreasing(t, ks);
  }

  lemma {:induction false} InsertKeyMembers(t: int, ks: seq<int>)
    ensures forall x :: x in InsertKey(t, ks) <==> x == t || x in ks
    decreases |ks|
  {
    if ks != [] && t > ks[0] {
      InsertKeyMembers(t, ks[1..]);
      assert ks == [ks[0]] + ks[1..];
    }
  }

  lemma {:induction false} InsertKeyIncreasing(t: int, ks: seq<int>)
    requires Increasing(ks)
    ensures Increasing(InsertKey(t, ks))
    decreases |ks|
  {
    if ks != [] {
      IncreasingSplit(ks);
      if t < ks[0] {
        IncreasingCons(t, ks);
      } else if t > ks[0] {
        InsertKeyIncreasing(t, ks[1..]);
        InsertKeyMembers(t, ks[1..]);
        IncreasingCons(ks[0], InsertKey(t, ks[1..]));
      }
    }
  }

  /** An increasing list starts with its least key and its tail is increasing. */
  lemma IncreasingSplit(ks: seq<int>)
    requires Increasing(ks) && ks != []
    ensures Increasing(ks[1..])
    ensures forall y :: y in ks[1..] ==> ks[0] < y
  {
    forall y | y in ks[1..]
      ensures ks[0] < y
    {
      var j :| 0 <= j < |ks[1..]| && ks[1..][j] == y;
      assert ks[j + 1] == y;
    }
  }

  /** A key below every key of an increasing list can go in front of it. */
  lemma IncreasingCons(h: int, ks: seq<int>)
    requires Increasing(ks)
    requires forall y :: y in ks ==> h < y
    ensures Increasing([h] + ks)
  {
    var r := [h] + ks;
    forall i, j | 0 <= i < j < |r|
      ensures r[i] < r[j]
    {
      assert r[j] == ks[j - 1];
      if i > 0 {
        assert r[i] == ks[i - 1];
      } else {
        assert ks[j - 1] in ks;
      }
    }
  }

  /** The groupby index holds each timestamp of `rows` once, in ascending order. */
  lemma {:induction false} GroupKeysSpec(rows: seq<Fact>)
    ensures Increasing(GroupKeys(rows))
    ensures forall x :: x in GroupKeys(rows) <==> x in Timestamps(rows)
    decreases |rows|
  {
    if rows != [] {
      GroupKeysSpec(rows[1..]);
      InsertKeySpec(rows[0].ts, GroupKeys(rows[1..]));
      assert Timestamps(rows) == {rows[0].ts} + Timestamps(rows[1..]) by {
        assert rows == [rows[0]] + rows[1..];
      }
    }
  }

  /** A boundary has a bucket exactly when it is one of the keys, and the
      bucket holds the mean of the values stamped there. */
  lemma {:induction false} LookupGroupMeans(rows: seq<Fact>, ks: seq<int>, t: int)
    requires forall k :: k in ks ==> k in Timestamps(rows)
    ensures t in ks ==> t in Timestamps(rows) && ValuesAt(rows, t) != []
    ensures Lookup(GroupMeans(rows, ks), t) == if t in ks then Some(Mean(ValuesAt(rows, t))) else None
    decreases |ks|
  {
    if ks != [] {
      LookupGroupMeans(rows, ks[1..], t);
      if t in ks {
        ValuesAtNonEmpty(rows, t);
      }
      var r := GroupMeans(rows, ks);
      assert r[1..] == GroupMeans(rows, ks[1..]);
      assert t in ks <==> t == ks[0] || t in ks[1..];
    }
  }

  /** Flooring first and then selecting by timestamp selects the bucket's values. */
  lemma {:induction false} FlooredValues(rows: seq<Fact>, b: int)
    ensures ValuesAt(FloorTimestamps(rows), b) == BucketValues(rows, b)
    decreases |rows|
  {
    if rows != [] {
      FlooredValues(rows[1..], b);
      var fl := FloorTimestamps(rows);
      assert fl[1..] == FloorTimestamps(rows[1..]);
    }
  }

  /** The floored timestamps are the boundaries of the rows. */
  lemma FlooredTimestamps(rows: seq<Fact>)
    ensures forall t :: t in Timestamps(FloorTimestamps(rows)) <==> exists r :: r in rows && Floor(r.ts) == t
  {
    var fl := FloorTimestamps(rows);
    forall t
      ensures t in Timestamps(fl) <==> exists r :: r in rows && Floor(r.ts) == t
    {
      if t in Timestamps(fl) {
        var f :| f in fl && f.ts == t;
        var k :| 0 <= k < |fl| && fl[k] == f;
        assert rows[k] in rows && Floor(rows[k].ts) == t;
      }
      if exists r :: r in rows && Floor(r.ts) == t {
        var r :| r in rows && Floor(r.ts) == t;
        var k :| 0 <= k < |rows| && rows[k] == r;
        assert fl[k] in fl;
      }
    }
  }

  lemma {:induction false} BucketValuesNonEmpty(rows: seq<Fact>, b: int)
    ensures BucketValues(rows, b) != [] <==> exists r :: r in rows && Floor(r.ts) == b
    decreases |rows|
  {
    if rows != [] {
      BucketValuesNonEmpty(rows[1..], b);
      assert forall r :: r in rows <==> r == rows[0] || r in rows[1..];
    }
  }

  lemma {:induction false} SumConcat(a: seq<real>, b: seq<real>)
    ensures Sum(a + b) == Sum(a) + Sum(b)
    decreases |a|
  {
    if a == [] {
      assert a + b == b;
    } else {
      assert (a + b)[0] == a[0] && (a + b)[1..] == a[1..] + b;
      SumConcat(a[1..], b);
    }
  }

  lemma {:induction false} SumPermutation(a: seq<real>, b: seq<real>)
    requires multiset(a) == multiset(b)
    ensures Sum(a) == Sum(b)
    decreases |a|
  {
    if a != [] {
      assert a[0] in multiset(b);
      var i :| 0 <= i < |b| && b[i] == a[0];
      var rest := b[..i] + b[i + 1..];
      RemoveAt(b, i);
      assert a == [a[0]] + a[1..];
      assert multiset(a[1..]) == multiset(a) - multiset{a[0]};
      SumPermutation(a[1..], rest);
      SumRemoveAt(b, i);
    } else {
      assert |b| == |multiset(b)| == 0;
    }
  }

  lemma {:induction false} RemoveAt(b: seq<real>, i: nat)
    requires i < |b|
    ensures multiset(b[..i] + b[i + 1..]) == multiset(b) - multiset{b[i]}
  {
    assert b == b[..i] + [b[i]] + b[i + 1..];
  }

  lemma {:induction false} SumRemoveAt(b: seq<real>, i: nat)
    requires i < |b|
    ensures Sum(b) == b[i] + Sum(b[..i] + b[i + 1..])
  {
    assert b == b[..i] + [b[i]] + b[i + 1..];
    SumMiddle(b[..i], b[i], b[i + 1..]);
  }

  lemma {:induction false} SumMiddle(p: seq<real>, x: real, q: seq<real>)
    ensures Sum(p + [x] + q) == x + Sum(p + q)
  {
    assert Sum([x]) == x by {
      assert [x][1..] == [];
    }
    SumConcat(p + [x], q);
    SumConcat(p, [x]);
    SumConcat(p, q);
  }

  /** The mean of a bucket does not depend on the order of its samples. */
  lemma MeanOrderIndependent(a: seq<real>, b: seq<real>)
    requires a != [] && multiset(a) == multiset(b)
    ensures b != [] && Mean(a) == Mean(b)
  {
    SumPermutation(a, b);
    assert |a| == |multiset(a)| == |multiset(b)| == |b|;
  }

  // ---------------------------------------------------------------------
  // What one fact's series looks like
  // ---------------------------------------------------------------------

  lemma AlignedStep(first: int, k: int)
    requires first % TimestepMins == 0
    ensures (first + TimestepMins * k) % TimestepMins == 0
  {
  }

  lemma AlignedSpan(first: int, last: int)
    requires first % TimestepMins == 0 && last % TimestepMins == 0 && first <= last
    ensures first + TimestepMins * ((last - first) / TimestepMins) == last
  {
  }

  /** The groupby index of the floored rows: ascending, non-empty, and
      holding exactly the rows' boundaries. */
  lemma ChainKeys(rows: seq<Fact>)
    requires rows != []
    ensures var ks := GroupKeys(FloorTimestamps(rows));
      && ks != [] && Increasing(ks)
      && (forall t :: t in ks <==> exists x :: x in rows && Floor(x.ts) == t)
  {
    var fl := FloorTimestamps(rows);
    GroupKeysSpec(fl);
    FlooredTimestamps(rows);
    assert rows[0] in rows;
    assert Floor(rows[0].ts) in Timestamps(fl);
  }

  /** A series is its `asfreq` grid with the fact name attached. */
  lemma SeriesSlots(name: string, rows: seq<Fact>)
    ensures var bs := GroupMean(FloorTimestamps(rows));
      var slots := AsFreq(bs);
      && |Series(name, rows)| == |slots|
      && (forall k :: 0 <= k < |slots| ==> Series(name, rows)[k] == Record(slots[k].ts, name, slots[k].value))
      && (forall k :: 0 <= k < |slots| ==> slots[k] == Slot(bs[0].ts + TimestepMins * k, Lookup(bs, bs[0].ts + TimestepMins * k)))
      && (bs != [] ==> |slots| == GridSize(bs[0].ts, bs[|bs| - 1].ts))
  {
  }

  /** The series of a fact with rows runs over the grid from the first key
      of the groupby index to the last. */
  lemma SeriesOnKeys(name: string, rows: seq<Fact>)
    requires rows != []
    ensures var ks := GroupKeys(FloorTimestamps(rows));
      var r := Series(name, rows);
      && ks != []
      && |r| == GridSize(ks[0], ks[|ks| - 1])
      && (forall k :: 0 <= k < |r| ==> r[k].name == name && r[k].ts == ks[0] + TimestepMins * k)
  {
    var fl := FloorTimestamps(rows);
    var ks := GroupKeys(fl);
    ChainKeys(rows);
    GroupKeysSpec(fl);
    var bs := GroupMean(fl);
    assert bs == GroupMeans(fl, ks);
    assert bs[0].ts == ks[0] && bs[|bs| - 1].ts == ks[|ks| - 1];
    SeriesSlots(name, rows);
  }

  /** A fact with rows gets a non-empty series, stamped with its name, on the
      grid of boundaries one step apart, from the smallest floored timestamp
      of its rows to the largest, both included. */
  lemma SeriesGrid(name: string, rows: seq<Fact>)
    requires rows != []
    ensures var r := Series(name, rows);
      && r != []
      && (forall k :: 0 <= k < |r| ==> r[k].name == name)
      && (forall k :: 0 <= k < |r| ==> r[k].ts % TimestepMins == 0)
      && (forall k :: 0 <= k < |r| ==> r[k].ts == r[0].ts + TimestepMins * k)
      && (exists x :: x in rows && Floor(x.ts) == r[0].ts)
      && (exists x :: x in rows && Floor(x.ts) == r[|r| - 1].ts)
      && (forall x :: x in rows ==> r[0].ts <= Floor(x.ts) <= r[|r| - 1].ts)
  {
    var ks := GroupKeys(FloorTimestamps(rows));
    ChainKeys(rows);
    SeriesOnKeys(name, rows);
    KeysBounds(ks);
    var first, last := ks[0], ks[|ks| - 1];
    assert first in ks && last in ks;
    var wf :| wf in rows && Floor(wf.ts) == first;
    var wl :| wl in rows && Floor(wl.ts) == last;
    var r := Series(name, rows);
    GridEnds(r, first, last);
    forall x | x in rows
      ensures first <= Floor(x.ts) <= last
    {
      assert Floor(x.ts) in ks;
    }
  }

  /** The keys of an increasing list lie between its first and last. */
  lemma KeysBounds(ks: seq<int>)
    requires Increasing(ks) && ks != []
    ensures forall t :: t in ks ==> ks[0] <= t <= ks[|ks| - 1]
  {
    forall t | t in ks
      ensures ks[0] <= t <= ks[|ks| - 1]
    {
      var i :| 0 <= i < |ks| && ks[i] == t;
      assert i > 0 ==> ks[0] < ks[i];
      assert i < |ks| - 1 ==> ks[i] < ks[|ks| - 1];
    }
  }

  /** A grid of `GridSize(first, last)` aligned points one step apart from
      `first` is non-empty, aligned throughout, and ends at `last`. */
  lemma GridEnds(r: seq<Row>, first: int, last: int)
    requires first % TimestepMins == 0 && last % TimestepMins == 0 && first <= last
    requires |r| == GridSize(first, last)
    requires forall k :: 0 <= k < |r| ==> r[k].ts == first + TimestepMins * k
    ensures r != [] && r[0].ts == first && r[|r| - 1].ts == last
    ensures forall k :: 0 <= k < |r| ==> r[k].ts % TimestepMins == 0
  {
    AlignedSpan(first, last);
    forall k | 0 <= k < |r|
      ensures r[k].ts % TimestepMins == 0
    {
      AlignedStep(first, k);
    }
  }

  /** Each grid point of a fact's series carries the mean of exactly those
      rows that floor to it, duplicates counted once per occurrence, and a
      point that no row floors to carries an absent value, not zero. */
  lemma SeriesValues(name: string, rows: seq<Fact>, k: nat)
    requires k < |Series(name, rows)|
    ensures var e := Series(name, rows)[k];
      e.value == if BucketValues(rows, e.ts) != [] then Some(Mean(BucketValues(rows, e.ts))) else None
  {
    var fl := FloorTimestamps(rows);
    var ks := GroupKeys(fl);
    GroupKeysSpec(fl);
    FlooredTimestamps(rows);
    var e := Series(name, rows)[k];
    var bs := GroupMean(fl);
    assert bs == GroupMeans(fl, ks);
    assert e.value == Lookup(bs, e.ts);
    LookupGroupMeans(fl, ks, e.ts);
    FlooredValues(rows, e.ts);
    BucketValuesNonEmpty(rows, e.ts);
  }

  /** No row is lost: every row's boundary is a point of its fact's series. */
  lemma SeriesCovers(name: string, rows: seq<Fact>, x: Fact)
    requires x in rows
    ensures exists k :: 0 <= k < |Series(name, rows)| && Series(name, rows)[k].ts == Floor(x.ts)
  {
    SeriesGrid(name, rows);
    var r := Series(name, rows);
    var first, last := r[0].ts, r[|r| - 1].ts;
    var b := Floor(x.ts);
    assert first <= b <= last;
    AlignedSpan(first, b);
    var k := (b - first) / TimestepMins;
    assert r[|r| - 1].ts == first + TimestepMins * (|r| - 1);
    assert k < |r|;
    assert r[k].ts == b;
  }

  lemma SeriesOfFact(m: string, rows: seq<Fact>, n: string)
    ensures OfFact(Series(m, rows), n) == if m == n then Series(m, rows) else []
  {
    if m == n {
      OfFactAll(Series(m, rows), n);
    } else {
      OfFactNone(Series(m, rows), n);
    }
  }

  // ---------------------------------------------------------------------
  // The whole result: per-fact series concatenated in key order
  // ---------------------------------------------------------------------

  /** The blocks of the facts `ns`, one after another. */
  function Blocks(ns: seq<string>, block: string -> seq<Row>): seq<Row>
  {
    if ns == [] then []
    else Blocks(ns[..|ns| - 1], block) + block(ns[|ns| - 1])
  }

  /** Each block holds rows of its own fact only. */
  ghost predicate Labelled(block: string -> seq<Row>)
  {
    forall m, k :: 0 <= k < |block(m)| ==> block(m)[k].name == m
  }

  /** The block of fact `n`: the series of its rows. */
  function SeriesOf(data: seq<Fact>): string -> seq<Row>
  {
    n => Series(n, OfFact(data, n))
  }

  /** What `regularize_timeseries` returns for non-empty input. */
  function Regularized(data: seq<Fact>): seq<Row>
  {
    Blocks(SortedNames(data), SeriesOf(data))
  }

  lemma BlocksAppend(ns: seq<string>, n: string, block: string -> seq<Row>)
    ensures Blocks(ns + [n], block) == Blocks(ns, block) + block(n)
  {
    assert (ns + [n])[..|ns|] == ns;
  }

  lemma SeriesLabelled(data: seq<Fact>)
    ensures Labelled(SeriesOf(data))
  {
    forall m
      ensures forall k :: 0 <= k < |SeriesOf(data)(m)| ==> SeriesOf(data)(m)[k].name == m
    {
      assert SeriesOf(data)(m) == Series(m, OfFact(data, m));
    }
  }

  lemma {:induction false} BlocksNames(ns: seq<string>, block: string -> seq<Row>)
    requires Labelled(block)
    ensures forall k :: 0 <= k < |Blocks(ns, block)| ==> Blocks(ns, block)[k].name in ns
    decreases |ns|
  {
    if ns != [] {
      var init, last := ns[..|ns| - 1], ns[|ns| - 1];
      BlocksNames(init, block);
      var a, b := Blocks(init, block), block(last);
      assert forall x :: x in init ==> x in ns;
      assert forall k :: 0 <= k < |a + b| ==> (a + b)[k] == if k < |a| then a[k] else b[k - |a|];
    }
  }

  lemma {:induction false} BlocksOfFact(ns: seq<string>, block: string -> seq<Row>, n: string)
    requires StrictlyAscending(ns) && Labelled(block)
    ensures OfFact(Blocks(ns, block), n) == if n in ns then block(n) else []
    decreases |ns|
  {
    if ns != [] {
      var init, last := ns[..|ns| - 1], ns[|ns| - 1];
      AscendingSplit(ns);
      BlocksOfFact(init, block, n);
      assert forall k :: 0 <= k < |block(last)| ==> block(last)[k].name == last;
      OfFactAppend(Blocks(init, block), block(last), n, last);
    }
  }

  lemma {:induction false} BlocksNameSorted(ns: seq<string>, block: string -> seq<Row>)
    requires StrictlyAscending(ns) && Labelled(block)
    ensures NameSorted(Blocks(ns, block))
    decreases |ns|
  {
    if ns != [] {
      var init, last := ns[..|ns| - 1], ns[|ns| - 1];
      BlocksNameSorted(init, block);
      BlocksNames(init, block);
      var a, b := Blocks(init, block), block(last);
      var r := a + b;
      forall i, j | 0 <= i < j < |r|
        ensures StrLe(r[i].name, r[j].name)
      {
        if j >= |a| {
          assert r[j] == b[j - |a|];
          if i < |a| {
            assert r[i] == a[i];
            var p :| 0 <= p < |init| && init[p] == a[i].name;
            assert StrLt(ns[p], ns[|ns| - 1]);
          } else {
            assert r[i] == b[i - |a|];
          }
        } else {
          assert r[i] == a[i] && r[j] == a[j];
        }
      }
    }
  }

  /** The block of each fact is its own series, computed from its rows alone
      in their input order; a fact the input does not have has no rows. */
  lemma RegularizedPerFact(data: seq<Fact>, n: string)
    ensures OfFact(Regularized(data), n) == if n in Names(data) then Series(n, OfFact(data, n)) else []
  {
    SortedNamesSpec(data);
    SeriesLabelled(data);
    BlocksOfFact(SortedNames(data), SeriesOf(data), n);
  }

  /** The output has exactly the input's fact names. */
  lemma RegularizedNames(data: seq<Fact>)
    ensures Names(Regularized(data)) == Names(data)
  {
    var ns := SortedNames(data);
    SortedNamesSpec(data);
    SeriesLabelled(data);
    forall m | m in ns
      ensures SeriesOf(data)(m) != []
    {
      OfFactMembers(data, m);
      SeriesGrid(m, OfFact(data, m));
    }
    BlocksNameSet(ns, SeriesOf(data));
  }

  /** Blocks that are not empty contribute exactly their own names. */
  lemma {:induction false} BlocksNameSet(ns: seq<string>, block: string -> seq<Row>)
    requires Labelled(block)
    requires forall m :: m in ns ==> block(m) != []
    ensures Names(Blocks(ns, block)) == set m | m in ns
    decreases |ns|
  {
    if ns != [] {
      var init, last := ns[..|ns| - 1], ns[|ns| - 1];
      assert ns == init + [last];
      BlocksNameSet(init, block);
      NamesConcat(Blocks(init, block), block(last));
      NamesOfRun(block(last), last);
      assert (set m | m in ns) == (set m | m in init) + {last};
    }
  }

  /** The blocks come in ascending fact-name order, as groupby sorts its keys. */
  lemma RegularizedNameOrder(data: seq<Fact>)
    ensures NameSorted(Regularized(data))
  {
    SortedNamesSpec(data);
    SeriesLabelled(data);
    BlocksNameSorted(SortedNames(data), SeriesOf(data));
  }

  // ---------------------------------------------------------------------
  // The loop of regularize_timeseries
  // ---------------------------------------------------------------------

  /** `regularize_timeseries(data)`. An empty list has no `fact_name` column,
      so the groupby raises a KeyError; otherwise the series of the groups,
      visited in key order, are appended to `out`. */
  method RegularizeTimeseries(data: seq<Fact>) returns (r: Result<seq<Row>, Error>)
    ensures data == [] ==> r == Err(NoSuchColumn("fact_name"))
    ensures data != [] ==> r == Ok(Regularized(data))
  {
    if data == [] {
      return Err(NoSuchColumn("fact_name"));
    }
    var sorted := SortBy(ByName, data);
    SortBySorted(ByName, data);
    SortedByNameSorted(ByName, sorted);
    var out: seq<Row> := [];
    var i := 0;
    while i < |sorted|
      invariant i <= |sorted|
      invariant 0 < i < |sorted| ==> sorted[i - 1].name != sorted[i].name
      invariant out == Blocks(RunNames(sorted[..i]), SeriesOf(data))
    {
      var key := sorted[i].name;
      var j := RunEnd(sorted, i);
      var group := sorted[i..j];
      RunIsOfFact(sorted, i, j, key);
      SortByNameStable(data, key);
      BlocksAppend(RunNames(sorted[..i]), key, SeriesOf(data));
      out := out + Series(key, group);
      i := j;
    }
    assert sorted[..i] == sorted;
    r := Ok(out);
  }
}
