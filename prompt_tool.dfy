/**
 * The prompt tool's state: the queue of uploaded or pasted images and the text-to-image
 * prompt generated for each. The generation outcomes (encoder plus SDK call, see
 * `Gemini.AnalyzePrompt`), the random ids and the object URLs are inputs.
 */
module PromptTool {
  import opened Wrappers
  import opened Types
  import opened ItemStore

  /** `{ ...i, status: 'completed', prompt }`. */
  function MarkPrompted(item: FileItem, prompt: string): (r: FileItem)
    ensures r.status == Completed && r.prompt == Some(prompt)
    ensures r.(status := item.status, prompt := item.prompt) == item
  {
    item.(status := Completed, prompt := Some(prompt))
  }

  /** An item after one run of `processFile` with the given generation outcome. */
  function Prompted(item: FileItem, outcome: Result<string, Thrown>): (r: FileItem)
    ensures r.id == item.id && r.file == item.file && r.previewUrl == item.previewUrl && r.metadata == item.metadata
    ensures outcome.Success? ==> r.status == Completed && r.prompt == Some(outcome.value) && r.error == None
    ensures outcome.Failure? ==> r.status == Error && r.prompt == item.prompt && r.error == outcome.error.message
  {
    match outcome
    case Success(prompt) => MarkPrompted(MarkProcessing(item), prompt)
    case Failure(thrown) => MarkFailed(MarkProcessing(item), thrown)
  }

  /** A completed item has its prompt and no error; one being processed has no error. */
  predicate ItemOk(item: FileItem) {
    && (item.status == Completed ==> item.error == None && item.prompt.Some?)
    && (item.status == Processing ==> item.error == None)
  }

  predicate WellFormed(items: seq<FileItem>) {
    DistinctIds(items) && forall k :: 0 <= k < |items| ==> ItemOk(items[k])
  }

  lemma UpdateWellFormed(s: seq<FileItem>, id: string, f: FileItem -> FileItem)
    requires WellFormed(s)
    requires forall k :: 0 <= k < |s| && s[k].id == id ==> f(s[k]).id == id && ItemOk(f(s[k]))
    ensures WellFormed(UpdateById(s, id, f))
  {
    var r := UpdateById(s, id, f);
    assert forall k :: 0 <= k < |s| ==> r[k].id == s[k].id;
  }

  /** The items an upload or a paste appends: every preview is the file's object URL. */
  function NewPromptItems(files: seq<File>, ids: seq<string>, urls: seq<string>): (r: seq<FileItem>)
    requires |ids| == |files| == |urls|
    ensures |r| == |files|
    ensures forall k :: 0 <= k < |r| ==> r[k] == NewItem(ids[k], files[k], urls[k])
  {
    seq(|files|, k requires 0 <= k < |files| => NewItem(ids[k], files[k], urls[k]))
  }

  /** A completed item never carries an error: the error was cleared when processing began. */
  lemma CompletedHasNoError(item: FileItem, outcome: Result<string, Thrown>)
    ensures Prompted(item, outcome).status == Completed <==> outcome.Success?
    ensures Prompted(item, outcome).status == Completed ==> Prompted(item, outcome).error == None
  {
  }

  class PromptQueue {
    var items: seq<FileItem>
    var isProcessing: bool

    predicate Valid()
      reads this
    {
      WellFormed(items)
    }

    constructor ()
      ensures Valid()
      ensures items == [] && !isProcessing
    {
      items := [];
      isProcessing := false;
    }

    /** `handleFileChange`: nothing without a file list; otherwise one `pending` item per file, appended. */
    method HandleFileChange(files: Option<seq<File>>, ids: seq<string>, urls: seq<string>)
      requires Valid()
      requires files.Some? ==> |ids| == |files.value| == |urls| && FreshIds(items, ids)
      modifies this
      ensures Valid()
      ensures files.None? ==> items == old(items)
      ensures files.Some? ==> items == old(items) + NewPromptItems(files.value, ids, urls)
      ensures isProcessing == old(isProcessing)
    {
      if files.None? {
        return;
      }
      Append(files.value, ids, urls);
    }

    /** `onPaste`: the clipboard's files are appended only when there is at least one. */
    method OnPaste(files: seq<File>, ids: seq<string>, urls: seq<string>)
      requires Valid()
      requires |ids| == |files| == |urls| && FreshIds(items, ids)
      modifies this
      ensures Valid()
      ensures |files| == 0 ==> items == old(items)
      ensures |files| > 0 ==> items == old(items) + NewPromptItems(files, ids, urls)
      ensures isProcessing == old(isProcessing)
    {
      if |files| > 0 {
        Append(files, ids, urls);
      }
    }

    /** `setItems(prev => [...prev, ...newFiles])`. */
    method Append(files: seq<File>, ids: seq<string>, urls: seq<string>)
      requires Valid()
      requires |ids| == |files| == |urls| && FreshIds(items, ids)
      modifies this
      ensures Valid()
      ensures items == old(items) + NewPromptItems(files, ids, urls)
      ensures isProcessing == old(isProcessing)
    {
      var added := NewPromptItems(files, ids, urls);
      AppendKeepsDistinct(items, added);
      items := items + added;
    }

    /** `processFile`: the target goes to `processing`, then to the outcome of its generation. */
    method ProcessFile(id: string, outcome: Result<string, Thrown>)
      requires Valid()
      modifies this
      ensures Valid()
      ensures |items| == |old(items)|
      ensures forall k :: 0 <= k < |items| ==>
        items[k] == if old(items)[k].id == id then Prompted(old(items)[k], outcome) else old(items)[k]
      ensures isProcessing == old(isProcessing)
    {
      UpdateWellFormed(items, id, MarkProcessing);
      items := UpdateById(items, id, MarkProcessing);
      match outcome {
        case Success(prompt) =>
          var settle := (item: FileItem) => MarkPrompted(item, prompt);
          UpdateWellFormed(items, id, settle);
          items := UpdateById(items, id, settle);
        case Failure(thrown) =>
          var settle := (item: FileItem) => MarkFailed(item, thrown);
          UpdateWellFormed(items, id, settle);
          items := UpdateById(items, id, settle);
      }
    }

    /**
     * `processAll`: the snapshot of the items that are `pending` or `error`, processed
     * one after the other in list order; `outcomes[k]` is the outcome of the `k`-th run.
     */
    method ProcessAll(outcomes: seq<Result<string, Thrown>>)
      requires Valid()
      requires |outcomes| == |Eligible(items)|
      modifies this
      ensures Valid()
      ensures |items| == |old(items)|
      ensures forall j :: 0 <= j < |items| ==>
        items[j] == if IsEligible(old(items)[j])
                    then Prompted(old(items)[j], outcomes[SnapshotIndex(old(items), j)])
                    else old(items)[j]
      ensures !isProcessing
    {
      isProcessing := true;
      var pending := Eligible(items);
      ghost var start := items;
      BatchStart(start, outcomes, Prompted);
      for k := 0 to |pending|
        invariant Valid() && isProcessing
        invariant items == BatchState(start, outcomes, k, Prompted)
      {
        BatchStep(start, outcomes, k, Prompted);
        ProcessFile(pending[k].id, outcomes[k]);
        assert items == BatchState(start, outcomes, k + 1, Prompted);
      }
      isProcessing := false;
    }

    /** `removeItem`: the items with that id leave the list; the rest keep their order. */
    method RemoveItem(id: string)
      requires Valid()
      modifies this
      ensures Valid()
      ensures items == RemoveId(old(items), id)
      ensures isProcessing == old(isProcessing)
    {
      RemoveKeepsDistinct(items, id);
      RemoveMembers(items, id);
      var rest := RemoveId(items, id);
      assert forall k :: 0 <= k < |rest| ==> ItemOk(rest[k]) by {
        forall k | 0 <= k < |rest| ensures ItemOk(rest[k]) {
          assert rest[k] in items;
        }
      }
      items := rest;
    }
  }
}
