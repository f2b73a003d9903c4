/**
 Client-side reconciliation of a Firestore change feed on the location page.

 A subscription keeps a list of documents and, on every snapshot, folds the
 snapshot's document changes into it: an added document goes to the front and
 the list is stably re-sorted newest first, a modified document replaces every
 entry with its id, and a removed document is filtered out by id.
 */
module Feed {
  import opened Wrappers

  /** The document fields the page does not interpret. The two it does
      interpret, `id` and `created_at`, have their own places in `DocData`,
      so they cannot appear here as well. */
  type Fields = m: map<string, string> | "id" !in m && "created_at" !in m

  /** What `doc.data()` yields: the creation time (the milliseconds of
      `created_at.toDate()`), a field named `id` if the stored data has one,
      and everything else. */
  datatype DocData = DocData(createdAt: int, idField: Option<string>, fields: Fields)

  /** A document as a snapshot change delivers it: its key and its data. */
  datatype StoredDoc = StoredDoc(key: string, data: DocData)

  /** An entry of the page's list: `{ id, ...data }`. */
  datatype Doc = Doc(id: string, createdAt: int, fields: Fields)

  /** One element of `snapshot.docChanges()`, by its `type`. */
  datatype Change =
    | Added(doc: StoredDoc)
    | Modified(doc: StoredDoc)
    | Removed(doc: StoredDoc)
    | Other

  /** `{ id: change.doc.id, ...change.doc.data() }`: the spread comes after
      `id`, so a stored field named `id` wins over the key. */
  function Flatten(s: StoredDoc): (d: Doc)
    ensures d.createdAt == s.data.createdAt && d.fields == s.data.fields
    ensures s.data.idField.None? ==> d.id == s.key
    ensures s.data.idField.Some? ==> d.id == s.data.idField.value
  {
    var id := match s.data.idField
      case Some(v) => v
      case None => s.key;
    Doc(id, s.data.createdAt, s.data.fields)
  }

  /** The ids of a list, in order. */
  function Ids(s: seq<Doc>): (r: seq<string>)
    ensures |r| == |s| && forall i :: 0 <= i < |s| ==> r[i] == s[i].id
  {
    seq(|s|, i requires 0 <= i < |s| => s[i].id)
  }

  // ---------------------------------------------------------------------
  // Ordering: sortBy(list, d => -d.created_at.toDate())
  // ---------------------------------------------------------------------

  /** The key handed to `sortBy`: the negated creation time. */
  function SortKey(d: Doc): int { -d.createdAt }

  /** Non-increasing creation time: newest first. */
  ghost predicate NewestFirst(s: seq<Doc>) {
    forall i, j :: 0 <= i < j < |s| ==> s[i].createdAt >= s[j].createdAt
  }

  /** The entries of `s` created at time `t`, in their order in `s`. */
  function WithTime(s: seq<Doc>, t: int): (r: seq<Doc>)
    ensures |r| <= |s|
  {
    if s == [] then []
    else (if s[0].createdAt == t then [s[0]] else []) + WithTime(s[1..], t)
  }

  /** `r` is what a stable sort of `s` by creation time, newest first, yields:
      sorted, and every group of equal timestamps in its original order. */
  ghost predicate IsStableSortOf(r: seq<Doc>, s: seq<Doc>) {
    NewestFirst(r) && forall t :: WithTime(r, t) == WithTime(s, t)
  }

  /** Inserts `x` into a list sorted by key, in front of every entry whose
      key is not smaller: an element that came earlier in the input stays
      ahead of later ones with the same key. */
  function InsertByKey(x: Doc, s: seq<Doc>): (r: seq<Doc>)
    ensures multiset(r) == multiset(s) + multiset{x}
    ensures |r| == |s| + 1
  {
    if s == [] then [x]
    else if SortKey(x) <= SortKey(s[0]) then [x] + s
    else
      assert s == [s[0]] + s[1..];
      [s[0]] + InsertByKey(x, s[1..])
  }

  /** lodash `sortBy`: a stable ascending sort on `SortKey`. */
  function SortBy(s: seq<Doc>): (r: seq<Doc>)
    ensures multiset(r) == multiset(s)
    ensures |r| == |s|
  {
    if s == [] then []
    else
      assert s == [s[0]] + s[1..];
      InsertByKey(s[0], SortBy(s[1..]))
  }

  // ---------------------------------------------------------------------
  // The three branches of handleSnapshotChanges
  // ---------------------------------------------------------------------

  /** `added`: `sortBy([doc, ...data], ...)`. */
  function AddDoc(data: seq<Doc>, d: Doc): (r: seq<Doc>)
    ensures multiset(r) == multiset(data) + multiset{d}
  {
    SortBy([d] + data)
  }

  /** `modified`: `data.map(x => x.id === doc.id ? doc : x)`. */
  function ReplaceById(data: seq<Doc>, d: Doc): (r: seq<Doc>)
    ensures |r| == |data|
    ensures forall i :: 0 <= i < |data| ==> r[i] == (if data[i].id == d.id then d else data[i])
  {
    seq(|data|, i requires 0 <= i < |data| => if data[i].id == d.id then d else data[i])
  }

  /** `removed`: `data.filter(x => x.id !== key)`. */
  function RemoveById(data: seq<Doc>, key: string): (r: seq<Doc>)
    ensures |r| <= |data|
    ensures forall x :: x in r <==> x in data && x.id != key
  {
    if data == [] then []
    else if data[0].id != key then [data[0]] + RemoveById(data[1..], key)
    else RemoveById(data[1..], key)
  }

  /** One iteration of the `forEach` over `snapshot.docChanges()`. */
  function Step(data: seq<Doc>, c: Change): seq<Doc> {
    match c
    case Added(s) => AddDoc(data, Flatten(s))
    case Modified(s) => ReplaceById(data, Flatten(s))
    case Removed(s) => RemoveById(data, s.key)
    case Other => data
  }

  /** The left fold of `Step` over a batch of changes, in order. */
  function ApplyChanges(data: seq<Doc>, cs: seq<Change>): seq<Doc>
    decreases |cs|
  {
    if cs == [] then data
    else Step(ApplyChanges(data, cs[..|cs| - 1]), cs[|cs| - 1])
  }

  /** handleSnapshotChanges: walks the changes in order, reassigning the list. */
  method HandleSnapshotChanges(data: seq<Doc>, changes: seq<Change>) returns (r: seq<Doc>)
    ensures r == ApplyChanges(data, changes)
  {
    r := data;
    for i := 0 to |changes|
      invariant r == ApplyChanges(data, changes[..i])
    {
      assert changes[..i + 1][..i] == changes[..i];
      match changes[i]
      case Added(s) =>
        r := SortBy([Flatten(s)] + r);
      case Modified(s) =>
        r := ReplaceById(r, Flatten(s));
      case Removed(s) =>
        r := RemoveById(r, s.key);
      case Other =>
    }
    assert changes[..|changes|] == changes;
  }
}
