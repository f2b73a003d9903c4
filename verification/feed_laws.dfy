/**
 What handleSnapshotChanges promises about the list it returns, proved about
 the functions of module Feed.
 */
module FeedLaws {
  import opened Wrappers
  import opened Feed

  // ---------------------------------------------------------------------
  // Groups of equal timestamps
  // ---------------------------------------------------------------------

  lemma {:induction false} WithTimeAppend(a: seq<Doc>, b: seq<Doc>, t: int)
    ensures WithTime(a + b, t) == WithTime(a, t) + WithTime(b, t)
  {
    if a != [] {
      assert (a + b)[0] == a[0];
      assert (a + b)[1..] == a[1..] + b;
      WithTimeAppend(a[1..], b, t);
      calc {
        WithTime(a + b, t);
        (if a[0].createdAt == t then [a[0]] else []) + WithTime(a[1..] + b, t);
        (if a[0].createdAt == t then [a[0]] else []) + (WithTime(a[1..], t) + WithTime(b, t));
        ((if a[0].createdAt == t then [a[0]] else []) + WithTime(a[1..], t)) + WithTime(b, t);
        WithTime(a, t) + WithTime(b, t);
      }
    } else {
      assert a + b == b;
    }
  }

  lemma {:induction false} WithTimeMember(s: seq<Doc>, t: int, x: Doc)
    ensures x in WithTime(s, t) <==> x in s && x.createdAt == t
  {
    if s != [] {
      assert s == [s[0]] + s[1..];
      WithTimeMember(s[1..], t, x);
    }
  }

  // ---------------------------------------------------------------------
  // The stable sort
  // ---------------------------------------------------------------------

  lemma {:induction false} InsertKeepsGroups(x: Doc, s: seq<Doc>, t: int)
    ensures WithTime(InsertByKey(x, s), t) == WithTime([x] + s, t)
  {
    if s != [] && SortKey(x) > SortKey(s[0]) {
      var r := InsertByKey(x, s[1..]);
      assert InsertByKey(x, s) == [s[0]] + r;
      assert ([s[0]] + r)[1..] == r;
      InsertKeepsGroups(x, s[1..], t);
      assert ([x] + s[1..])[1..] == s[1..];
      assert ([x] + s)[1..] == s;
      assert s == [s[0]] + s[1..];
      assert WithTime(s, t) == (if s[0].createdAt == t then [s[0]] else []) + WithTime(s[1..], t);
    }
  }

  /** Every entry of `s` was created no later than `t`. */
  ghost predicate NoneNewerThan(s: seq<Doc>, t: int) {
    forall k :: 0 <= k < |s| ==> s[k].createdAt <= t
  }

  lemma {:induction false} InsertKeepsBound(x: Doc, s: seq<Doc>, t: int)
    requires NoneNewerThan(s, t) && x.createdAt <= t
    ensures NoneNewerThan(InsertByKey(x, s), t)
  {
    if s != [] && SortKey(x) > SortKey(s[0]) {
      InsertKeepsBound(x, s[1..], t);
      var r := InsertByKey(x, s[1..]);
      assert InsertByKey(x, s) == [s[0]] + r;
    }
  }

  lemma NewestFirstCons(h: Doc, r: seq<Doc>)
    requires NewestFirst(r) && NoneNewerThan(r, h.createdAt)
    ensures NewestFirst([h] + r)
  {
    forall i, j | 0 <= i < j < |[h] + r| ensures ([h] + r)[i].createdAt >= ([h] + r)[j].createdAt {
      assert ([h] + r)[j] == r[j - 1];
      if i > 0 {
        assert ([h] + r)[i] == r[i - 1];
      }
    }
  }

  lemma {:induction false} InsertKeepsNewestFirst(x: Doc, s: seq<Doc>)
    requires NewestFirst(s)
    ensures NewestFirst(InsertByKey(x, s))
  {
    if s == [] {
    } else if SortKey(x) <= SortKey(s[0]) {
      assert NoneNewerThan(s, x.createdAt);
      NewestFirstCons(x, s);
    } else {
      var r := InsertByKey(x, s[1..]);
      assert NewestFirst(s[1..]);
      InsertKeepsNewestFirst(x, s[1..]);
      assert NoneNewerThan(s[1..], s[0].createdAt);
      InsertKeepsBound(x, s[1..], s[0].createdAt);
      NewestFirstCons(s[0], r);
      assert InsertByKey(x, s) == [s[0]] + r;
    }
  }

  /** lodash `sortBy` is stable: the result is newest first and keeps each
      group of equal timestamps in input order. */
  lemma {:induction false} SortByIsStableSort(s: seq<Doc>)
    ensures IsStableSortOf(SortBy(s), s)
  {
    if s != [] {
      SortByIsStableSort(s[1..]);
      InsertKeepsNewestFirst(s[0], SortBy(s[1..]));
      forall t ensures WithTime(SortBy(s), t) == WithTime(s, t) {
        InsertKeepsGroups(s[0], SortBy(s[1..]), t);
        assert ([s[0]] + SortBy(s[1..]))[1..] == SortBy(s[1..]);
        assert s == [s[0]] + s[1..];
      }
    }
  }

  /** In a newest-first list nothing is newer than the head. */
  lemma HeadIsNewest(s: seq<Doc>, x: Doc)
    requires NewestFirst(s) && x in s
    ensures s[0].createdAt >= x.createdAt
  {
    var i :| 0 <= i < |s| && s[i] == x;
    if i > 0 {
      assert s[0].createdAt >= s[i].createdAt;
    }
  }

  /** Dropping the head of a list drops it from its own group only. */
  lemma WithTimeTail(s: seq<Doc>, t: int)
    requires s != []
    ensures WithTime(s, t) == (if s[0].createdAt == t then [s[0]] else []) + WithTime(s[1..], t)
  {
  }

  /** Sortedness and the timestamp groups determine a list: there is only one
      stable sort of a list. */
  lemma {:induction false} GroupsDetermineSortedList(r1: seq<Doc>, r2: seq<Doc>)
    requires NewestFirst(r1) && NewestFirst(r2)
    requires forall t :: WithTime(r1, t) == WithTime(r2, t)
    ensures r1 == r2
    decreases |r1|
  {
    if r1 == [] && r2 != [] {
      WithTimeMember(r2, r2[0].createdAt, r2[0]);
    } else if r1 != [] && r2 == [] {
      WithTimeMember(r1, r1[0].createdAt, r1[0]);
    } else if r1 != [] {
      var a, b := r1[0], r2[0];
      assert WithTime(r1, b.createdAt) == WithTime(r2, b.createdAt);
      assert WithTime(r1, a.createdAt) == WithTime(r2, a.createdAt);
      WithTimeMember(r2, b.createdAt, b);
      WithTimeMember(r1, b.createdAt, b);
      WithTimeMember(r1, a.createdAt, a);
      WithTimeMember(r2, a.createdAt, a);
      HeadIsNewest(r1, b);
      HeadIsNewest(r2, a);
      var ga := WithTime(r1, a.createdAt);
      WithTimeTail(r1, a.createdAt);
      WithTimeTail(r2, a.createdAt);
      assert ga[0] == a && ga[0] == b;
      forall t ensures WithTime(r1[1..], t) == WithTime(r2[1..], t) {
        WithTimeTail(r1, t);
        WithTimeTail(r2, t);
        var h := if a.createdAt == t then [a] else [];
        assert WithTime(r1, t)[|h|..] == WithTime(r1[1..], t);
        assert WithTime(r2, t)[|h|..] == WithTime(r2[1..], t);
      }
      assert NewestFirst(r1[1..]) && NewestFirst(r2[1..]);
      GroupsDetermineSortedList(r1[1..], r2[1..]);
      assert r1 == [a] + r1[1..] && r2 == [b] + r2[1..];
    }
  }

  lemma StableSortIsUnique(r1: seq<Doc>, r2: seq<Doc>, s: seq<Doc>)
    requires IsStableSortOf(r1, s) && IsStableSortOf(r2, s)
    ensures r1 == r2
  {
    GroupsDetermineSortedList(r1, r2);
  }

  // ---------------------------------------------------------------------
  // `added`
  // ---------------------------------------------------------------------

  /** The number of entries of `s` with id `k`. */
  function IdCount(s: seq<Doc>, k: string): nat {
    if s == [] then 0 else (if s[0].id == k then 1 else 0) + IdCount(s[1..], k)
  }

  lemma {:induction false} InsertCountsIds(x: Doc, s: seq<Doc>, k: string)
    ensures IdCount(InsertByKey(x, s), k) == IdCount(s, k) + (if x.id == k then 1 else 0)
  {
    if s != [] && SortKey(x) > SortKey(s[0]) {
      InsertCountsIds(x, s[1..], k);
      assert ([s[0]] + InsertByKey(x, s[1..]))[1..] == InsertByKey(x, s[1..]);
    } else if s != [] {
      assert ([x] + s)[1..] == s;
    }
  }

  lemma {:induction false} SortByCountsIds(s: seq<Doc>, k: string)
    ensures IdCount(SortBy(s), k) == IdCount(s, k)
  {
    if s != [] {
      SortByCountsIds(s[1..], k);
      InsertCountsIds(s[0], SortBy(s[1..]), k);
    }
  }

  /** An `added` change: one more entry, the new document among them, every
      previous entry kept, the list newest first whatever order it had, and
      among equal timestamps the new document in front of the old entries,
      which keep their order. */
  lemma AddedStep(data: seq<Doc>, s: StoredDoc)
    ensures var d, r := Flatten(s), Step(data, Added(s));
      && |r| == |data| + 1
      && d in r
      && multiset(r) == multiset(data) + multiset{d}
      && NewestFirst(r)
      && WithTime(r, d.createdAt) == [d] + WithTime(data, d.createdAt)
      && (forall t :: t != d.createdAt ==> WithTime(r, t) == WithTime(data, t))
  {
    var d := Flatten(s);
    var r := SortBy([d] + data);
    SortByIsStableSort([d] + data);
    assert d in multiset(r);
    forall t ensures WithTime(r, t) == (if d.createdAt == t then [d] else []) + WithTime(data, t) {
      assert ([d] + data)[1..] == data;
      assert WithTime(r, t) == WithTime([d] + data, t);
    }
  }

  /** The result of `added` is the one stable sort of the new document
      followed by the old list. */
  lemma AddedIsTheStableSort(data: seq<Doc>, s: StoredDoc, r: seq<Doc>)
    requires IsStableSortOf(r, [Flatten(s)] + data)
    ensures Step(data, Added(s)) == r
  {
    SortByIsStableSort([Flatten(s)] + data);
    StableSortIsUnique(r, Step(data, Added(s)), [Flatten(s)] + data);
  }

  /** `added` does not deduplicate: an id already present appears once more. */
  lemma AddedKeepsDuplicates(data: seq<Doc>, s: StoredDoc)
    ensures IdCount(Step(data, Added(s)), Flatten(s).id) == IdCount(data, Flatten(s).id) + 1
  {
    SortByCountsIds([Flatten(s)] + data, Flatten(s).id);
    assert ([Flatten(s)] + data)[1..] == data;
  }

  // ---------------------------------------------------------------------
  // `modified`
  // ---------------------------------------------------------------------

  /** A `modified` change keeps the length and the ids in place, turns every
      entry with the document's id into the document and leaves the others. */
  lemma ModifiedStep(data: seq<Doc>, s: StoredDoc)
    ensures var d, r := Flatten(s), Step(data, Modified(s));
      && Ids(r) == Ids(data)
      && (forall i :: 0 <= i < |r| && data[i].id == d.id ==> r[i] == d)
      && (forall i :: 0 <= i < |r| && data[i].id != d.id ==> r[i] == data[i])
      && (d in r <==> d.id in Ids(data))
  {
    var d := Flatten(s);
    if d.id in Ids(data) {
      var i :| 0 <= i < |data| && Ids(data)[i] == d.id;
      assert Step(data, Modified(s))[i] == d;
    }
  }

  /** `modified` does not re-sort: a sorted list stays sorted when every
      replaced entry keeps its timestamp. */
  lemma ModifiedKeepsOrderIfTimeKept(data: seq<Doc>, s: StoredDoc)
    requires NewestFirst(data)
    requires forall i :: 0 <= i < |data| && data[i].id == Flatten(s).id ==> data[i].createdAt == Flatten(s).createdAt
    ensures NewestFirst(Step(data, Modified(s)))
  {
  }

  /** ... and it can leave the list out of order when a timestamp changes. */
  lemma ModifiedCanBreakOrder()
    ensures var data := [Doc("a", 2, map[]), Doc("b", 1, map[])];
      && NewestFirst(data)
      && !NewestFirst(Step(data, Modified(StoredDoc("a", DocData(0, None, map[])))))
  {
    var data := [Doc("a", 2, map[]), Doc("b", 1, map[])];
    var r := Step(data, Modified(StoredDoc("a", DocData(0, None, map[]))));
    assert r[0].createdAt == 0 && r[1].createdAt == 1;
  }

  // ---------------------------------------------------------------------
  // `removed`
  // ---------------------------------------------------------------------

  /** The positions from `from` on whose entry has an id other than `key`,
      in increasing order. */
  function KeptPositions(s: seq<Doc>, key: string, from: nat): (idx: seq<nat>)
    requires from <= |s|
    ensures forall k :: 0 <= k < |idx| ==> from <= idx[k] < |s|
    decreases |s| - from
  {
    if from == |s| then []
    else (if s[from].id != key then [from] else []) + KeptPositions(s, key, from + 1)
  }

  /** The kept positions are exactly the positions whose id differs from
      the removed key. */
  lemma {:induction false} KeptPositionsAreTheOthers(s: seq<Doc>, key: string, from: nat)
    requires from <= |s|
    ensures var idx := KeptPositions(s, key, from);
      && (forall k :: 0 <= k < |idx| ==> s[idx[k]].id != key)
      && (forall i :: from <= i < |s| && s[i].id != key ==> i in idx)
    decreases |s| - from
  {
    if from < |s| {
      KeptPositionsAreTheOthers(s, key, from + 1);
      var rest := KeptPositions(s, key, from + 1);
      var head := if s[from].id != key then [from] else [];
      var idx := head + rest;
      assert KeptPositions(s, key, from) == idx;
      forall k | 0 <= k < |idx| ensures s[idx[k]].id != key {
        if k >= |head| {
          assert idx[k] == rest[k - |head|];
        }
      }
      forall i | from <= i < |s| && s[i].id != key ensures i in idx {
        if i == from {
          assert idx[0] == from;
        } else {
          assert i in rest;
        }
      }
    }
  }

  /** ... and they come in increasing order. */
  lemma {:induction false} KeptPositionsIncrease(s: seq<Doc>, key: string, from: nat)
    requires from <= |s|
    ensures forall k, l :: 0 <= k < l < |KeptPositions(s, key, from)| ==>
      KeptPositions(s, key, from)[k] < KeptPositions(s, key, from)[l]
    decreases |s| - from
  {
    if from < |s| {
      KeptPositionsIncrease(s, key, from + 1);
      var rest := KeptPositions(s, key, from + 1);
      var head := if s[from].id != key then [from] else [];
      var idx := head + rest;
      assert KeptPositions(s, key, from) == idx;
      forall k, l | 0 <= k < l < |idx| ensures idx[k] < idx[l] {
        assert idx[l] == rest[l - |head|];
        assert rest[l - |head|] >= from + 1;
        if k >= |head| {
          assert idx[k] == rest[k - |head|];
        } else {
          assert idx[k] == from;
        }
      }
    }
  }

  /** A `removed` change keeps exactly the entries with a different id, in
      their original order: the k-th entry of the result is the entry at the
      k-th position whose id differs. */
  lemma RemovedKeepsOrder(data: seq<Doc>, key: string)
    ensures var r, idx := RemoveById(data, key), KeptPositions(data, key, 0);
      |r| == |idx| && forall k :: 0 <= k < |r| ==> r[k] == data[idx[k]]
  {
    RemovedKeepsOrderFrom(data, key, 0);
    assert data[0..] == data;
    assert ReadsAt(RemoveById(data, key), data, KeptPositions(data, key, 0));
  }

  /** `r` reads `data` at the positions `idx`. */
  ghost predicate ReadsAt(r: seq<Doc>, data: seq<Doc>, idx: seq<nat>) {
    |r| == |idx| && forall k :: 0 <= k < |r| ==> idx[k] < |data| && r[k] == data[idx[k]]
  }

  lemma ReadsAtConcat(h: seq<Doc>, hi: seq<nat>, r: seq<Doc>, ri: seq<nat>, data: seq<Doc>)
    requires ReadsAt(h, data, hi) && ReadsAt(r, data, ri)
    ensures ReadsAt(h + r, data, hi + ri)
  {
    forall k | 0 <= k < |h + r| ensures (hi + ri)[k] < |data| && (h + r)[k] == data[(hi + ri)[k]] {
      if k >= |h| {
        assert (h + r)[k] == r[k - |h|] && (hi + ri)[k] == ri[k - |h|];
      }
    }
  }

  lemma {:induction false} RemovedKeepsOrderFrom(data: seq<Doc>, key: string, from: nat)
    requires from <= |data|
    ensures ReadsAt(RemoveById(data[from..], key), data, KeptPositions(data, key, from))
    decreases |data| - from
  {
    if from < |data| {
      RemovedKeepsOrderFrom(data, key, from + 1);
      assert data[from..] == [data[from]] + data[from + 1..];
      var head := if data[from].id != key then [data[from]] else [];
      var headIdx := if data[from].id != key then [from] else [];
      assert RemoveById(data[from..], key) == head + RemoveById(data[from + 1..], key);
      ReadsAtConcat(head, headIdx, RemoveById(data[from + 1..], key), KeptPositions(data, key, from + 1), data);
    }
  }

  /** A `removed` change leaves no entry with that id; entries with other ids
      keep their number of occurrences. */
  lemma {:induction false} RemovedStep(data: seq<Doc>, s: StoredDoc)
    ensures var r := Step(data, Removed(s));
      && s.key !in Ids(r)
      && forall k :: k != s.key ==> IdCount(r, k) == IdCount(data, k)
  {
    var r := Step(data, Removed(s));
    assert forall i :: 0 <= i < |r| ==> r[i] in r;
    forall k | k != s.key ensures IdCount(r, k) == IdCount(data, k) {
      RemovedCountsIds(data, s.key, k);
    }
  }

  lemma {:induction false} RemovedCountsIds(data: seq<Doc>, key: string, k: string)
    requires k != key
    ensures IdCount(RemoveById(data, key), k) == IdCount(data, k)
  {
    if data != [] {
      RemovedCountsIds(data[1..], key, k);
      if data[0].id != key {
        assert ([data[0]] + RemoveById(data[1..], key))[1..] == RemoveById(data[1..], key);
      }
    }
  }

  /** Deleting keeps a newest-first list newest first. */
  lemma RemovedKeepsNewestFirst(data: seq<Doc>, s: StoredDoc)
    requires NewestFirst(data)
    ensures NewestFirst(Step(data, Removed(s)))
  {
    RemovedKeepsOrder(data, s.key);
    KeptPositionsIncrease(data, s.key, 0);
    var r, idx := RemoveById(data, s.key), KeptPositions(data, s.key, 0);
    forall k, l | 0 <= k < l < |r| ensures r[k].createdAt >= r[l].createdAt {
      assert r[k] == data[idx[k]] && r[l] == data[idx[l]] && idx[k] < idx[l];
    }
  }

  /** Removal goes by the snapshot key, while the entry's id may come from a
      stored `id` field: such an entry survives its own removal. */
  lemma RemovedMissesOverriddenId(data: seq<Doc>, s: StoredDoc)
    requires s.data.idField.Some? && s.data.idField.value != s.key
    requires Flatten(s) in data
    ensures Flatten(s) in Step(data, Removed(s))
  {
  }

  // ---------------------------------------------------------------------
  // Changes that touch nothing
  // ---------------------------------------------------------------------

  lemma {:induction false} RemoveAbsentId(data: seq<Doc>, key: string)
    requires key !in Ids(data)
    ensures RemoveById(data, key) == data
  {
    if data != [] {
      assert Ids(data)[0] == data[0].id;
      assert forall i :: 0 <= i < |data| - 1 ==> Ids(data[1..])[i] == Ids(data)[i + 1];
      RemoveAbsentId(data[1..], key);
      assert data == [data[0]] + data[1..];
    }
  }

  /** A `modified` or `removed` change for an id that is not in the list,
      and a change of any other type, return the list unchanged. */
  lemma AbsentChangeIsIgnored(data: seq<Doc>, c: Change)
    requires || (c.Modified? && Flatten(c.doc).id !in Ids(data))
             || (c.Removed? && c.doc.key !in Ids(data))
             || c.Other?
    ensures Step(data, c) == data
  {
    if c.Removed? {
      RemoveAbsentId(data, c.doc.key);
    } else if c.Modified? {
      assert forall i :: 0 <= i < |data| ==> Ids(data)[i] != Flatten(c.doc).id;
    }
  }

  // ---------------------------------------------------------------------
  // Folding over snapshots
  // ---------------------------------------------------------------------

  /** Two batches applied one after the other are one batch of both. */
  lemma {:induction false} ApplyChangesAppend(data: seq<Doc>, a: seq<Change>, b: seq<Change>)
    ensures ApplyChanges(data, a + b) == ApplyChanges(ApplyChanges(data, a), b)
    decreases |b|
  {
    if b == [] {
      assert a + b == a;
    } else {
      assert (a + b)[..|a + b| - 1] == a + b[..|b| - 1];
      assert (a + b)[|a + b| - 1] == b[|b| - 1];
      ApplyChangesAppend(data, a, b[..|b| - 1]);
    }
  }

  /** Without `modified` changes the list never leaves newest-first order. */
  lemma {:induction false} UnmodifiedFeedStaysNewestFirst(data: seq<Doc>, cs: seq<Change>)
    requires NewestFirst(data)
    requires forall i :: 0 <= i < |cs| ==> !cs[i].Modified?
    ensures NewestFirst(ApplyChanges(data, cs))
    decreases |cs|
  {
    if cs != [] {
      var prefix := cs[..|cs| - 1];
      UnmodifiedFeedStaysNewestFirst(data, prefix);
      var before := ApplyChanges(data, prefix);
      match cs[|cs| - 1]
      case Added(s) => AddedStep(before, s);
      case Removed(s) => RemovedKeepsNewestFirst(before, s);
      case Other =>
    }
  }
}
