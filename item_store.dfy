/**
 * The per-item list updates both tools apply through `setItems`: append, update by
 * id, filter by id, and the snapshot `processAll` takes of the items still to do.
 */
module ItemStore {
  import opened Wrappers
  import opened Types
  import opened Seqs

  function Ids(s: seq<FileItem>): (r: seq<string>)
    ensures |r| == |s| && forall k :: 0 <= k < |s| ==> r[k] == s[k].id
  {
    seq(|s|, k requires 0 <= k < |s| => s[k].id)
  }

  /** Ids are drawn at random and assumed never to collide. */
  predicate DistinctIds(s: seq<FileItem>) {
    forall i, j :: 0 <= i < j < |s| ==> s[i].id != s[j].id
  }

  /** `ids` are new: distinct from each other and from every id already in `s`. */
  predicate FreshIds(s: seq<FileItem>, ids: seq<string>) {
    && (forall k :: 0 <= k < |ids| ==> ids[k] !in Ids(s))
    && (forall i, j :: 0 <= i < j < |ids| ==> ids[i] != ids[j])
  }

  /** A freshly added item: `pending`, with no metadata, prompt or error. */
  function NewItem(id: string, file: File, previewUrl: string): (item: FileItem)
    ensures item.id == id && item.file == file && item.previewUrl == previewUrl
    ensures item.status == Pending && item.metadata == None && item.prompt == None && item.error == None
  {
    FileItem(id, file, previewUrl, Pending, None, None, None)
  }

  lemma AppendKeepsDistinct(s: seq<FileItem>, added: seq<FileItem>)
    requires DistinctIds(s) && DistinctIds(added)
    requires forall k :: 0 <= k < |added| ==> added[k].id !in Ids(s)
    ensures DistinctIds(s + added)
  {
    forall i, j | 0 <= i < j < |s + added| ensures (s + added)[i].id != (s + added)[j].id {
      if j >= |s| && i < |s| {
        assert (s + added)[j] == added[j - |s|];
        assert Ids(s)[i] == s[i].id;
      }
    }
  }

  /** `{ ...i, status: 'processing', error: undefined }`: the first update of `processFile`. */
  function MarkProcessing(item: FileItem): (r: FileItem)
    ensures r.status == Processing && r.error == None
    ensures r.(status := item.status, error := item.error) == item
  {
    item.(status := Processing, error := None)
  }

  /** `{ ...i, status: 'error', error: err.message }`: the update when analysis throws. */
  function MarkFailed(item: FileItem, thrown: Thrown): (r: FileItem)
    ensures r.status == Error && r.error == thrown.message
    ensures r.(status := item.status, error := item.error) == item
  {
    item.(status := Error, error := thrown.message)
  }

  /** `prev.map(i => i.id === id ? f(i) : i)`. */
  function UpdateById(s: seq<FileItem>, id: string, f: FileItem -> FileItem): (r: seq<FileItem>)
    ensures |r| == |s|
    ensures forall k :: 0 <= k < |s| && s[k].id != id ==> r[k] == s[k]
    ensures forall k :: 0 <= k < |s| && s[k].id == id ==> r[k] == f(s[k])
    ensures id !in Ids(s) ==> r == s
  {
    seq(|s|, k requires 0 <= k < |s| => if s[k].id == id then f(s[k]) else s[k])
  }

  function HasOtherId(id: string): FileItem -> bool {
    (item: FileItem) => item.id != id
  }

  /** `prev.filter(i => i.id !== id)`. */
  function RemoveId(s: seq<FileItem>, id: string): (r: seq<FileItem>)
    ensures id !in Ids(s) ==> r == s
  {
    if id !in Ids(s) then
      FilterKeepsAll(s, HasOtherId(id));
      Filter(s, HasOtherId(id))
    else Filter(s, HasOtherId(id))
  }

  /** What remains are exactly the items with another id. */
  lemma RemoveMembers(s: seq<FileItem>, id: string)
    ensures forall item :: item in RemoveId(s, id) <==> item in s && item.id != id
  {
    FilterMembers(s, HasOtherId(id));
  }

  /** Removal keeps the relative order of what remains: it distributes over concatenation. */
  lemma RemoveKeepsOrder(a: seq<FileItem>, b: seq<FileItem>, id: string)
    ensures RemoveId(a + b, id) == RemoveId(a, id) + RemoveId(b, id)
  {
    FilterConcat(a, b, HasOtherId(id));
  }

  /** Removing an item keeps the remaining ids distinct. */
  lemma RemoveKeepsDistinct(s: seq<FileItem>, id: string)
    requires DistinctIds(s)
    ensures DistinctIds(RemoveId(s, id))
  {
    var r := Filter(s, HasOtherId(id));
    assert RemoveId(s, id) == r;
    forall i, j | 0 <= i < j < |r| ensures r[i].id != r[j].id {
      var a := FilterOrigin(s, HasOtherId(id), i);
      var b := FilterOrigin(s, HasOtherId(id), j);
      assert r[i] == s[a] && r[j] == s[b];
      assert a != b;
    }
  }

  /** An update for an id that was removed finds nothing to change. */
  lemma UpdateAfterRemove(s: seq<FileItem>, id: string, f: FileItem -> FileItem)
    ensures UpdateById(RemoveId(s, id), id, f) == RemoveId(s, id)
  {
  }

  /** `processAll` selects the items whose status is `pending` or `error`. */
  predicate IsEligible(item: FileItem) {
    item.status == Pending || item.status == Error
  }

  /** The snapshot `items.filter(i => i.status === 'pending' || i.status === 'error')`. */
  function Eligible(s: seq<FileItem>): (r: seq<FileItem>)
    ensures forall k :: 0 <= k < |r| ==> IsEligible(r[k])
  {
    Filter(s, IsEligible)
  }

  /**
   * The snapshot holds exactly the `pending` and `error` items: `completed` and
   * `processing` items are not attempted again.
   */
  lemma EligibleMembers(s: seq<FileItem>)
    ensures forall item :: item in Eligible(s) <==> item in s && (item.status == Pending || item.status == Error)
  {
    FilterMembers(s, IsEligible);
  }

  /** Where item `j` of `s` sits in the snapshot, when it is in it. */
  function SnapshotIndex(s: seq<FileItem>, j: nat): (r: nat)
    requires j < |s|
    ensures IsEligible(s[j]) ==> r < |Eligible(s)| && Eligible(s)[r] == s[j]
  {
    Rank(s, IsEligible, j)
  }

  /**
   * While a batch runs over the snapshot of `s0`, the live list keeps the ids of `s0`
   * position by position; then the snapshot's `k`-th item is found, by id, exactly at
   * the position whose snapshot index is `k`.
   */
  lemma SnapshotTarget(s0: seq<FileItem>, live: seq<FileItem>, k: nat)
    requires DistinctIds(s0)
    requires |live| == |s0| && forall j :: 0 <= j < |s0| ==> live[j].id == s0[j].id
    requires k < |Eligible(s0)|
    ensures forall j :: 0 <= j < |s0| ==>
      (live[j].id == Eligible(s0)[k].id <==> IsEligible(s0[j]) && SnapshotIndex(s0, j) == k)
  {
    var origin := FilterOrigin(s0, IsEligible, k);
    assert Eligible(s0)[k] == s0[origin];
    forall j | 0 <= j < |s0|
      ensures live[j].id == Eligible(s0)[k].id <==> IsEligible(s0[j]) && SnapshotIndex(s0, j) == k
    {
      if live[j].id == Eligible(s0)[k].id {
        assert s0[j].id == s0[origin].id;
        assert j == origin;
      }
    }
  }

  /**
   * The list after the first `k` runs of a batch over the snapshot of `start`: `step`
   * is what one run does to its item, `outcomes[k]` the outcome of the `k`-th run.
   */
  ghost function BatchState<O>(start: seq<FileItem>, outcomes: seq<O>, k: nat, step: (FileItem, O) -> FileItem): seq<FileItem>
    requires |outcomes| == |Eligible(start)| && k <= |outcomes|
  {
    seq(|start|, j requires 0 <= j < |start| =>
      if IsEligible(start[j]) && SnapshotIndex(start, j) < k
      then step(start[j], outcomes[SnapshotIndex(start, j)])
      else start[j])
  }

  /** Before the first run, the batch has changed nothing. */
  lemma BatchStart<O>(start: seq<FileItem>, outcomes: seq<O>, step: (FileItem, O) -> FileItem)
    requires |outcomes| == |Eligible(start)|
    ensures BatchState(start, outcomes, 0, step) == start
  {
    var s0 := BatchState(start, outcomes, 0, step);
    forall j | 0 <= j < |start| ensures s0[j] == start[j] {
      assert !(SnapshotIndex(start, j) < 0);
    }
  }

  /** One more run of the batch updates exactly the item whose snapshot index is `k`. */
  lemma BatchStep<O>(start: seq<FileItem>, outcomes: seq<O>, k: nat, step: (FileItem, O) -> FileItem)
    requires DistinctIds(start) && |outcomes| == |Eligible(start)| && k < |outcomes|
    requires forall item, outcome :: step(item, outcome).id == item.id
    ensures |BatchState(start, outcomes, k, step)| == |start|
    ensures forall j :: 0 <= j < |start| ==>
      BatchState(start, outcomes, k + 1, step)[j]
        == if BatchState(start, outcomes, k, step)[j].id == Eligible(start)[k].id
           then step(BatchState(start, outcomes, k, step)[j], outcomes[k])
           else BatchState(start, outcomes, k, step)[j]
  {
    var before := BatchState(start, outcomes, k, step);
    forall j | 0 <= j < |start| ensures before[j].id == start[j].id {
      if IsEligible(start[j]) && SnapshotIndex(start, j) < k {
        assert before[j] == step(start[j], outcomes[SnapshotIndex(start, j)]);
      }
    }
    SnapshotTarget(start, before, k);
  }
}
