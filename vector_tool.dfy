/**
 * The vector tool's state: the queue of uploaded vectors, the analysis of each into
 * stock metadata, the edits a user makes afterwards, and the package export.
 * The analysis outcomes (encoder plus SDK call, see `Gemini.AnalyzeVector`), the
 * random ids and the object URLs are inputs.
 */
module VectorTool {
  import opened Wrappers
  import opened Types
  import opened Text
  import opened Seqs
  import opened ItemStore
  import opened FileHelpers

  // ------------------------------------------------------------ item updates

  /** `{ ...i, status: 'completed', metadata }`. */
  function MarkAnalyzed(item: FileItem, metadata: VectorMetadata): (r: FileItem)
    ensures r.status == Completed && r.metadata == Some(metadata)
    ensures r.(status := item.status, metadata := item.metadata) == item
  {
    item.(status := Completed, metadata := Some(metadata))
  }

  /** An item after one run of `processFile` with the given analysis outcome. */
  function Processed(item: FileItem, outcome: Result<VectorMetadata, Thrown>): (r: FileItem)
    ensures r.id == item.id && r.file == item.file && r.previewUrl == item.previewUrl && r.prompt == item.prompt
    ensures outcome.Success? ==> r.status == Completed && r.metadata == Some(outcome.value) && r.error == None
    ensures outcome.Failure? ==> r.status == Error && r.metadata == item.metadata && r.error == outcome.error.message
  {
    match outcome
    case Success(metadata) => MarkAnalyzed(MarkProcessing(item), metadata)
    case Failure(thrown) => MarkFailed(MarkProcessing(item), thrown)
  }

  /** A completed item has its metadata and no error; one being processed has no error. */
  predicate ItemOk(item: FileItem) {
    && (item.status == Completed ==> item.error == None && item.metadata.Some?)
    && (item.status == Processing ==> item.error == None)
  }

  /** The state of the queue the tool maintains: distinct ids, every item consistent. */
  predicate WellFormed(items: seq<FileItem>) {
    DistinctIds(items) && forall k :: 0 <= k < |items| ==> ItemOk(items[k])
  }

  /** An update that keeps the target's id and leaves it consistent keeps the queue well formed. */
  lemma UpdateWellFormed(s: seq<FileItem>, id: string, f: FileItem -> FileItem)
    requires WellFormed(s)
    requires forall k :: 0 <= k < |s| && s[k].id == id ==> f(s[k]).id == id && ItemOk(f(s[k]))
    ensures WellFormed(UpdateById(s, id, f))
    ensures Ids(UpdateById(s, id, f)) == Ids(s)
  {
    var r := UpdateById(s, id, f);
    assert forall k :: 0 <= k < |s| ==> r[k].id == s[k].id;
  }

  /** The preview URL of a new item: an object URL for SVG types, none otherwise. */
  function PreviewFor(file: File, url: string): (preview: string)
    ensures Includes(file.mimeType, "svg") ==> preview == url
    ensures !Includes(file.mimeType, "svg") ==> preview == ""
  {
    if Includes(file.mimeType, "svg") then url else ""
  }

  /** The items `handleFileChange` appends, one per file, in order. */
  function NewVectorItems(files: seq<File>, ids: seq<string>, urls: seq<string>): (r: seq<FileItem>)
    requires |ids| == |files| == |urls|
    ensures |r| == |files|
    ensures forall k :: 0 <= k < |r| ==>
      r[k] == NewItem(ids[k], files[k], PreviewFor(files[k], urls[k]))
  {
    seq(|files|, k requires 0 <= k < |files| => NewItem(ids[k], files[k], PreviewFor(files[k], urls[k])))
  }

  /** `{ ...item.metadata!, title }`: only the title changes, whatever its length; without metadata, nothing. */
  function SetTitle(item: FileItem, title: string): (r: FileItem)
    ensures item.metadata.None? ==> r == item
    ensures item.metadata.Some? ==>
      && r.metadata.Some? && r.metadata.value.title == title
      && r.metadata.value.(title := item.metadata.value.title) == item.metadata.value
    ensures r.(metadata := item.metadata) == item
  {
    match item.metadata
    case Some(m) => item.(metadata := Some(m.(title := title)))
    case None => item
  }

  /** `{ ...item.metadata!, description }`: only the description changes. */
  function SetDescription(item: FileItem, description: string): (r: FileItem)
    ensures item.metadata.None? ==> r == item
    ensures item.metadata.Some? ==>
      && r.metadata.Some? && r.metadata.value.description == description
      && r.metadata.value.(description := item.metadata.value.description) == item.metadata.value
    ensures r.(metadata := item.metadata) == item
  {
    match item.metadata
    case Some(m) => item.(metadata := Some(m.(description := description)))
    case None => item
  }

  /** `{ ...item.metadata!, tags: [...tags, ...newTags] }`: the old tags come first, then the new ones. */
  function AppendTags(item: FileItem, tags: seq<string>): (r: FileItem)
    ensures item.metadata.None? ==> r == item
    ensures item.metadata.Some? ==>
      && r.metadata.Some? && |r.metadata.value.tags| == |item.metadata.value.tags| + |tags|
      && r.metadata.value.tags[..|item.metadata.value.tags|] == item.metadata.value.tags
      && r.metadata.value.tags[|item.metadata.value.tags|..] == tags
      && r.metadata.value.(tags := item.metadata.value.tags) == item.metadata.value
    ensures r.(metadata := item.metadata) == item
  {
    match item.metadata
    case Some(m) => item.(metadata := Some(m.(tags := m.tags + tags)))
    case None => item
  }

  predicate NonEmpty(t: string) {
    t != ""
  }

  /** Every piece trimmed, as `.map(t => t.trim())`. */
  function TrimAll(pieces: seq<string>): (r: seq<string>)
    ensures |r| == |pieces| && forall k :: 0 <= k < |r| ==> r[k] == Trim(pieces[k])
  {
    Map(pieces, Trim)
  }

  /** A string is a trimmed piece exactly when it is the trim of some piece. */
  lemma TrimAllMembers(pieces: seq<string>)
    ensures forall t :: t in TrimAll(pieces) <==> exists p :: p in pieces && Trim(p) == t
  {
    var trimmed := TrimAll(pieces);
    forall t ensures t in trimmed <==> exists p :: p in pieces && Trim(p) == t {
      if p :| p in pieces && Trim(p) == t {
        var a :| 0 <= a < |pieces| && pieces[a] == p;
        assert trimmed[a] == t;
      }
      if t in trimmed {
        var a :| 0 <= a < |trimmed| && trimmed[a] == t;
        assert pieces[a] in pieces && Trim(pieces[a]) == t;
      }
    }
  }

  /**
   * `tagStr.split(',').map(t => t.trim()).filter(t => t)`: the tags are exactly the
   * non-empty trimmed comma pieces of the input (their order is `ParseTagsOrder`, and
   * `ParseTagsConcat` with `ParseTagsPiece` say that each piece gives its own tag).
   */
  function ParseTags(input: string): (tags: seq<string>)
    ensures forall k :: 0 <= k < |tags| ==> tags[k] != "" && IsTrimmed(tags[k])
    ensures forall t :: t in tags <==> t != "" && exists p :: p in Split(input, ',') && Trim(p) == t
  {
    var pieces := Split(input, ',');
    var tags := Filter(TrimAll(pieces), NonEmpty);
    NonEmptyPieces(pieces, tags);
    tags
  }

  /** The non-empty trimmed pieces are trimmed, and are exactly the non-empty trims of pieces. */
  lemma NonEmptyPieces(pieces: seq<string>, tags: seq<string>)
    requires tags == Filter(TrimAll(pieces), NonEmpty)
    ensures forall k :: 0 <= k < |tags| ==> tags[k] != "" && IsTrimmed(tags[k])
    ensures forall t :: t in tags <==> t != "" && exists p :: p in pieces && Trim(p) == t
  {
    var trimmed := TrimAll(pieces);
    FilterMembers(trimmed, NonEmpty);
    TrimmedPieces(pieces, tags);
    TrimAllMembers(pieces);
    forall t ensures t in tags <==> t != "" && exists p :: p in pieces && Trim(p) == t {
      assert t in tags <==> t in trimmed && NonEmpty(t);
      assert t in trimmed <==> exists p :: p in pieces && Trim(p) == t;
    }
  }

  /**
   * Parsing text around a comma parses the two sides and keeps every tag of each, in
   * order: nothing is merged or dropped, so `"x,,x"` gives `"x"` twice.
   */
  lemma ParseTagsConcat(a: string, b: string)
    ensures ParseTags(a + "," + b) == ParseTags(a) + ParseTags(b)
  {
    assert a + "," + b == a + [','] + b;
    SplitConcat(a, ',', b);
    TagsOfConcat(Split(a, ','), Split(b, ','));
  }

  /** The tags of two lists of pieces in sequence are the tags of each, in sequence. */
  lemma TagsOfConcat(pa: seq<string>, pb: seq<string>)
    ensures Filter(TrimAll(pa + pb), NonEmpty) == Filter(TrimAll(pa), NonEmpty) + Filter(TrimAll(pb), NonEmpty)
  {
    TrimAllConcat(pa, pb);
    FilterConcat(TrimAll(pa), TrimAll(pb), NonEmpty);
  }

  lemma TrimAllConcat(pa: seq<string>, pb: seq<string>)
    ensures TrimAll(pa + pb) == TrimAll(pa) + TrimAll(pb)
  {
    MapConcat(pa, pb, Trim);
  }

  /** A comma-free piece gives its trim as the one tag, or no tag when that is empty. */
  lemma ParseTagsPiece(p: string)
    requires ',' !in p
    ensures ParseTags(p) == if Trim(p) == "" then [] else [Trim(p)]
  {
    SplitWithout(p, ',');
    var trimmed := TrimAll([p]);
    assert trimmed == [Trim(p)];
    assert trimmed[1..] == [];
  }

  /** Every piece the filter keeps is trimmed. */
  lemma TrimmedPieces(pieces: seq<string>, tags: seq<string>)
    requires tags == Filter(TrimAll(pieces), NonEmpty)
    ensures forall k :: 0 <= k < |tags| ==> IsTrimmed(tags[k])
  {
    var trimmed := TrimAll(pieces);
    FilterMembers(trimmed, NonEmpty);
    forall k | 0 <= k < |tags| ensures IsTrimmed(tags[k]) {
      assert tags[k] in trimmed;
    }
  }

  /**
   * The tags keep the order of the pieces they come from: tag `i` before tag `j` are
   * the trimmed forms of comma pieces `a` before `b`.
   */
  lemma ParseTagsOrder(input: string, i: nat, j: nat) returns (a: nat, b: nat)
    requires i < j < |ParseTags(input)|
    ensures a < b < |Split(input, ',')|
    ensures ParseTags(input)[i] == Trim(Split(input, ',')[a])
    ensures ParseTags(input)[j] == Trim(Split(input, ',')[b])
  {
    var trimmed := TrimAll(Split(input, ','));
    a := FilterOrigin(trimmed, NonEmpty, i);
    b := FilterOrigin(trimmed, NonEmpty, j);
    if b <= a {
      if b < a {
        RankIncreases(trimmed, NonEmpty, b, a);
      }
      assert false;
    }
  }

  /** The pieces `Join(tags, ", ")` splits into at each comma: every tag after the first keeps a leading space. */
  function Spaced(tags: seq<string>): (r: seq<string>)
    requires |tags| > 0
    ensures |r| == |tags| && r[0] == tags[0]
    ensures forall k :: 1 <= k < |tags| ==> r[k] == " " + tags[k]
  {
    [tags[0]] + seq(|tags| - 1, k requires 0 <= k < |tags| - 1 => " " + tags[k + 1])
  }

  lemma SpacedTail(tags: seq<string>)
    requires |tags| > 1
    ensures Spaced(tags)[1..] == [" " + tags[1]] + Spaced(tags[1..])[1..]
  {
  }

  lemma {:induction false} JoinSpaced(tags: seq<string>)
    requires |tags| > 0
    ensures Join(Spaced(tags), ",") == Join(tags, ", ")
    decreases |tags|
  {
    if |tags| > 1 {
      JoinSpaced(tags[1..]);
      var sp, rest := Spaced(tags), Spaced(tags[1..]);
      SpacedTail(tags);
      var tail := sp[1..];
      assert Join(sp, ",") == tags[0] + "," + Join(tail, ",");
      if |tags| == 2 {
        assert Join(tail, ",") == " " + tags[1];
      } else {
        assert tail[1..] == rest[1..];
        assert Join(tail, ",") == " " + tags[1] + "," + Join(rest[1..], ",");
        assert Join(rest, ",") == tags[1] + "," + Join(rest[1..], ",");
      }
      assert Join(tail, ",") == " " + Join(rest, ",");
    }
  }

  /** Every tag the join puts after a comma keeps its leading space, which trimming removes. */
  lemma TrimSpaced(tags: seq<string>)
    requires |tags| > 0
    requires forall k :: 0 <= k < |tags| ==> IsTrimmed(tags[k])
    ensures TrimAll(Spaced(tags)) == tags
  {
    var sp := Spaced(tags);
    forall k | 0 <= k < |sp| ensures Trim(sp[k]) == tags[k] {
      if k > 0 {
        TrimLeadingSpace(tags[k]);
      }
    }
  }

  /**
   * The keywords column of the CSV reads back through "Add Tags": tags that are
   * non-empty, trimmed and comma-free survive `Join(tags, ", ")` and `ParseTags`.
   */
  lemma ParseTagsOfJoin(tags: seq<string>)
    requires |tags| > 0
    requires forall k :: 0 <= k < |tags| ==> tags[k] != "" && IsTrimmed(tags[k]) && ',' !in tags[k]
    ensures ParseTags(Join(tags, ", ")) == tags
  {
    SplitOfJoin(tags);
    TrimSpaced(tags);
    FilterKeepsAll(tags, NonEmpty);
  }

  /** Splitting the joined tags at commas gives the spaced pieces. */
  lemma SplitOfJoin(tags: seq<string>)
    requires |tags| > 0
    requires forall k :: 0 <= k < |tags| ==> ',' !in tags[k]
    ensures Split(Join(tags, ", "), ',') == Spaced(tags)
  {
    var sp := Spaced(tags);
    JoinSpaced(tags);
    forall k | 0 <= k < |sp| ensures ',' !in sp[k] {
      if k > 0 {
        assert sp[k] == " " + tags[k];
      }
    }
    SplitJoin(sp, ',');
  }

  /** `Math.round`: the nearest integer, halves rounded up. */
  function Round(x: real): (n: int)
    ensures x - 0.5 < n as real <= x + 0.5
  {
    (x + 0.5).Floor
  }

  lemma RoundMonotone(x: real, y: real)
    requires x <= y
    ensures Round(x) <= Round(y)
  {
  }

  // ------------------------------------------------------------------ state

  class VectorQueue {
    var items: seq<FileItem>
    var isProcessing: bool
    var isZipping: bool
    var zipProgress: int

    predicate Valid()
      reads this
    {
      WellFormed(items)
    }

    constructor ()
      ensures Valid()
      ensures items == [] && !isProcessing && !isZipping && zipProgress == 0
    {
      items := [];
      isProcessing := false;
      isZipping := false;
      zipProgress := 0;
    }

    /**
     * `handleFileChange`: nothing when the input has no file list; otherwise one
     * `pending` item per file, after the existing ones. `ids` are the random ids drawn
     * and `urls` the object URLs, one per file.
     */
    method HandleFileChange(files: Option<seq<File>>, ids: seq<string>, urls: seq<string>)
      requires Valid()
      requires files.Some? ==> |ids| == |files.value| == |urls| && FreshIds(items, ids)
      modifies this
      ensures Valid()
      ensures files.None? ==> items == old(items)
      ensures files.Some? ==> items == old(items) + NewVectorItems(files.value, ids, urls)
      ensures isProcessing == old(isProcessing) && isZipping == old(isZipping) && zipProgress == old(zipProgress)
    {
      if files.None? {
        return;
      }
      var added := NewVectorItems(files.value, ids, urls);
      assert DistinctIds(added);
      AppendKeepsDistinct(items, added);
      items := items + added;
    }

    /** `processFile`: the target goes to `processing`, then to the outcome of its analysis. */
    method ProcessFile(id: string, outcome: Result<VectorMetadata, Thrown>)
      requires Valid()
      modifies this
      ensures Valid()
      ensures |items| == |old(items)|
      ensures forall k :: 0 <= k < |items| ==>
        items[k] == if old(items)[k].id == id then Processed(old(items)[k], outcome) else old(items)[k]
      ensures isProcessing == old(isProcessing) && isZipping == old(isZipping) && zipProgress == old(zipProgress)
    {
      UpdateWellFormed(items, id, MarkProcessing);
      items := UpdateById(items, id, MarkProcessing);
      match outcome {
        case Success(metadata) =>
          var settle := (item: FileItem) => MarkAnalyzed(item, metadata);
          UpdateWellFormed(items, id, settle);
          items := UpdateById(items, id, settle);
        case Failure(thrown) =>
          var settle := (item: FileItem) => MarkFailed(item, thrown);
          UpdateWellFormed(items, id, settle);
          items := UpdateById(items, id, settle);
      }
    }

    /**
     * `processAll`: the snapshot of the items that are `pending` or `error`, processed
     * one after the other in list order; `outcomes[k]` is the outcome of the `k`-th
     * analysis.
     */
    method ProcessAll(outcomes: seq<Result<VectorMetadata, Thrown>>)
      requires Valid()
      requires |outcomes| == |Eligible(items)|
      modifies this
      ensures Valid()
      ensures |items| == |old(items)|
      ensures forall j :: 0 <= j < |items| ==>
        items[j] == if IsEligible(old(items)[j])
                    then Processed(old(items)[j], outcomes[SnapshotIndex(old(items), j)])
                    else old(items)[j]
      ensures !isProcessing && isZipping == old(isZipping) && zipProgress == old(zipProgress)
    {
      isProcessing := true;
      var pending := Eligible(items);
      ghost var start := items;
      BatchStart(start, outcomes, Processed);
      for k := 0 to |pending|
        invariant Valid() && isProcessing
        invariant isZipping == old(isZipping) && zipProgress == old(zipProgress)
        invariant items == BatchState(start, outcomes, k, Processed)
      {
        BatchStep(start, outcomes, k, Processed);
        ProcessFile(pending[k].id, outcomes[k]);
        assert items == BatchState(start, outcomes, k + 1, Processed);
      }
      isProcessing := false;
    }

    /** `removeItem`: the items with that id leave the list; the rest keep their order. */
    method RemoveItem(id: string)
      requires Valid()
      modifies this
      ensures Valid()
      ensures items == RemoveId(old(items), id)
      ensures isProcessing == old(isProcessing) && isZipping == old(isZipping) && zipProgress == old(zipProgress)
    {
      RemoveKeepsDistinct(items, id);
      RemoveMembers(items, id);
      var rest := RemoveId(items, id);
      assert forall k :: 0 <= k < |rest| ==> ItemOk(rest[k]) by {
        forall k | 0 <= k < |rest| ensures ItemOk(rest[k]) {
          assert rest[k] in items;
        }
      }
      items := rest;
    }

    /** The title field's `onChange`: only the title of the target's metadata changes. */
    method EditTitle(id: string, title: string)
      requires Valid()
      requires forall k :: 0 <= k < |items| && items[k].id == id ==> items[k].metadata.Some?
      modifies this
      ensures Valid()
      ensures |items| == |old(items)|
      ensures forall k :: 0 <= k < |items| ==>
        items[k] == if old(items)[k].id == id
                    then old(items)[k].(metadata := Some(old(items)[k].metadata.value.(title := title)))
                    else old(items)[k]
      ensures isProcessing == old(isProcessing) && isZipping == old(isZipping) && zipProgress == old(zipProgress)
    {
      items := UpdateById(items, id, (item: FileItem) => SetTitle(item, title));
    }

    /** The description field's `onChange`: only the description of the target's metadata changes. */
    method EditDescription(id: string, description: string)
      requires Valid()
      requires forall k :: 0 <= k < |items| && items[k].id == id ==> items[k].metadata.Some?
      modifies this
      ensures Valid()
      ensures |items| == |old(items)|
      ensures forall k :: 0 <= k < |items| ==>
        items[k] == if old(items)[k].id == id
                    then old(items)[k].(metadata := Some(old(items)[k].metadata.value.(description := description)))
                    else old(items)[k]
      ensures isProcessing == old(isProcessing) && isZipping == old(isZipping) && zipProgress == old(zipProgress)
    {
      items := UpdateById(items, id, (item: FileItem) => SetDescription(item, description));
    }

    /**
     * "+ Add Tags": `input` is what `prompt` returned (`None` when cancelled). An empty
     * or cancelled input changes nothing; otherwise the parsed tags go after the
     * target's existing tags, duplicates included.
     */
    method AddTags(id: string, input: Option<string>)
      requires Valid()
      requires forall k :: 0 <= k < |items| && items[k].id == id ==> items[k].metadata.Some?
      modifies this
      ensures Valid()
      ensures (input.None? || input.value == "") ==> items == old(items)
      ensures input.Some? && input.value != "" ==>
        && |items| == |old(items)|
        && forall k :: 0 <= k < |items| ==>
          items[k] == if old(items)[k].id == id
                      then var m := old(items)[k].metadata.value;
                        old(items)[k].(metadata := Some(m.(tags := m.tags + ParseTags(input.value))))
                      else old(items)[k]
      ensures isProcessing == old(isProcessing) && isZipping == old(isZipping) && zipProgress == old(zipProgress)
    {
      if input.Some? && input.value != "" {
        var newTags := ParseTags(input.value);
        items := UpdateById(items, id, (item: FileItem) => AppendTags(item, newTags));
      }
    }

    /** The progress callback `(p) => setZipProgress(Math.round(p))`, called once per report in turn. */
    method ShowProgress(progress: seq<real>) returns (shown: seq<int>)
      modifies this
      ensures items == old(items) && isProcessing == old(isProcessing) && isZipping == old(isZipping)
      ensures |shown| == |progress|
      ensures forall j :: 0 <= j < |shown| ==> shown[j] == Round(progress[j])
      ensures zipProgress == if |shown| == 0 then old(zipProgress) else shown[|shown| - 1]
    {
      shown := [];
      for k := 0 to |progress|
        invariant items == old(items) && isProcessing == old(isProcessing) && isZipping == old(isZipping)
        invariant |shown| == k
        invariant forall j :: 0 <= j < k ==> shown[j] == Round(progress[j])
        invariant zipProgress == if k == 0 then old(zipProgress) else shown[k - 1]
      {
        zipProgress := Round(progress[k]);
        shown := shown + [zipProgress];
      }
    }

    /**
     * `handleFullExport`: with no completed item, nothing happens (`None`). Otherwise
     * the package is built and the progress shown after each item is the rounded
     * report; it ends at 100 and the zipping flag is cleared again.
     */
    method HandleFullExport(rasterize: File -> Option<seq<bv8>>, isoDate: string)
      returns (package: Option<Archive>, fileName: Option<string>, shown: seq<int>)
      requires Valid()
      modifies this
      ensures Valid() && items == old(items) && isProcessing == old(isProcessing)
      ensures CompletedItems(items) == [] ==>
        package.None? && fileName.None? && shown == [] && isZipping == old(isZipping) && zipProgress == old(zipProgress)
      ensures CompletedItems(items) != [] ==>
        && package.Some? && fresh(package.value)
        && package.value.entries == ArchiveEntries(items, rasterize)
        && fileName == Some(PackageFileName(isoDate))
        && |shown| == |CompletedItems(items)|
        && (forall k :: 0 <= k < |shown| ==> shown[k] == Round(Progress(k + 1, |shown|)))
        && zipProgress == 100 && !isZipping
    {
      var completed := CompletedItems(items);
      if |completed| == 0 {
        return None, None, [];
      }
      isZipping := true;
      zipProgress := 0;
      var zip, progress, name := GenerateStockZip(items, rasterize, isoDate);
      shown := ShowProgress(progress);
      ProgressRange(|progress|, |progress|);
      isZipping := false;
      package, fileName := Some(zip), Some(name);
    }
  }

  /** A completed item never carries an error: the error was cleared when processing began. */
  lemma CompletedHasNoError(item: FileItem, outcome: Result<VectorMetadata, Thrown>)
    ensures Processed(item, outcome).status == Completed <==> outcome.Success?
    ensures Processed(item, outcome).status == Completed ==> Processed(item, outcome).error == None
  {
  }

  /** The progress shown never goes down and reaches 100 after the last item. */
  lemma ShownProgress(j: nat, k: nat, total: nat)
    requires 0 < j <= k <= total
    ensures Round(Progress(j, total)) <= Round(Progress(k, total))
    ensures Round(Progress(total, total)) == 100
  {
    if j < k {
      ProgressIncreases(j, k, total);
    }
    RoundMonotone(Progress(j, total), Progress(k, total));
    ProgressRange(total, total);
  }
}
