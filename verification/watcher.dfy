/**
 The list that each of watchLocationRequests, watchLocationCommitments and
 watchLocationRevisions keeps between snapshots: it starts empty and every
 snapshot is folded into it by handleSnapshotChanges, after which the new
 list is handed to the callback.
 */
module Watching {
  import opened Feed
  import FeedLaws

  class Watcher {
    /** The queried collection: "requests", "commitments" or "revisions". */
    const collection: string
    /** The location whose documents the query selects. */
    const locationId: string

    /** The closure's `let data`. */
    var data: seq<Doc>
    /** Every change delivered so far, snapshot after snapshot. */
    ghost var received: seq<Change>

    /** The list is the fold of everything received over the empty list. */
    ghost predicate Valid()
      reads this
    {
      data == ApplyChanges([], received)
    }

    constructor (collection: string, locationId: string)
      ensures Valid()
      ensures this.collection == collection && this.locationId == locationId
      ensures data == [] && received == []
    {
      this.collection := collection;
      this.locationId := locationId;
      data := [];
      received := [];
    }

    /** The `onSnapshot` callback: `data = handleSnapshotChanges(data, snapshot)`,
        then `callback(data)`. */
    method ApplySnapshot(changes: seq<Change>) returns (delivered: seq<Doc>)
      requires Valid()
      modifies this
      ensures Valid()
      ensures data == ApplyChanges(old(data), changes)
      ensures received == old(received) + changes
      ensures delivered == data
    {
      data := HandleSnapshotChanges(data, changes);
      FeedLaws.ApplyChangesAppend([], received, changes);
      received := received + changes;
      delivered := data;
    }
  }
}
