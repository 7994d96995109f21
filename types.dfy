/** The records shared by the tools: work items, their status and the vector metadata. */
module Types {
  import opened Wrappers

  /** The four values of a work item's `status`. */
  datatype Status = Pending | Processing | Completed | Error

  /** The string literal TypeScript uses for each status. */
  function StatusName(s: Status): (name: string)
    ensures ParseStatus(name) == Some(s)
  {
    match s
    case Pending => "pending"
    case Processing => "processing"
    case Completed => "completed"
    case Error => "error"
  }

  /** Reads a status literal back; only the four literals of the union are statuses. */
  function ParseStatus(name: string): (s: Option<Status>)
    ensures s.Some? <==> name in ["pending", "processing", "completed", "error"]
  {
    if name == "pending" then Some(Pending)
    else if name == "processing" then Some(Processing)
    else if name == "completed" then Some(Completed)
    else if name == "error" then Some(Error)
    else None
  }

  /** Marketplace metadata produced for a vector: `tags` is ordered and may repeat. */
  datatype VectorMetadata = VectorMetadata(title: string, description: string, tags: seq<string>)

  /** A browser `File`: its name, declared MIME type (`file.type`, possibly "") and bytes. */
  datatype File = File(name: string, mimeType: string, bytes: seq<bv8>)

  /**
   * One queued file. `id`, `file` and `previewUrl` are always present; `metadata`,
   * `prompt` and `error` are optional.
   */
  datatype FileItem = FileItem(
    id: string,
    file: File,
    previewUrl: string,
    status: Status,
    metadata: Option<VectorMetadata>,
    prompt: Option<string>,
    error: Option<string>)

  /**
   * What a rejected promise carries, as far as the tools look at it: `err.message`,
   * which is undefined when the rejection is not an `Error` (a FileReader event).
   */
  datatype Thrown = Thrown(message: Option<string>)

  /** The application's two tabs. */
  datatype AppTab = VectorTab | PromptTab

  /** The string value of each tab of the enum. */
  function TabValue(t: AppTab): (v: string)
    ensures ParseTab(v) == Some(t)
  {
    match t
    case VectorTab => "vector"
    case PromptTab => "prompt"
  }

  function ParseTab(v: string): (t: Option<AppTab>)
    ensures t.Some? <==> v in ["vector", "prompt"]
  {
    if v == "vector" then Some(VectorTab)
    else if v == "prompt" then Some(PromptTab)
    else None
  }
}
