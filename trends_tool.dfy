/**
 * The trends tool: the loading/error/data flags of one fetch of trending categories,
 * and the plain-text export of the categories. The fetch result and the two date
 * renderings the export uses are inputs.
 */
module TrendsTool {
  import opened Wrappers
  import opened Types
  import opened Text

  /** One trending category as the trends service returns it. */
  datatype TrendCategory = TrendCategory(category: string, description: string, keywords: seq<string>)

  /** What the export hands to the download helper. */
  datatype Download = Download(content: string, fileName: string, mimeType: string)

  const DefaultError := "Failed to load trends"
  /** The first line of the export. */
  const ExportTitle: string := "BOLDSTOCK AI - TRENDING KEYWORDS & INSPIRATION"
  const CategoryLabel := "CATEGORY: "

  /** The title is one line and has no colon, so it is never taken for a category line. */
  lemma ExportTitleChars()
    ensures '\n' !in ExportTitle && ':' !in ExportTitle
  {
    forall k | 0 <= k < |ExportTitle| ensures ExportTitle[k] != '\n' && ExportTitle[k] != ':' {
      assert ExportTitle[k] in "BOLDSTCK AI-RENGWY&P";
    }
  }

  /** `err.message || 'Failed to load trends'`: a missing or empty message falls back. */
  function FetchError(thrown: Thrown): (message: string)
    ensures message != ""
    ensures thrown.message.Some? && thrown.message.value != "" ==> message == thrown.message.value
    ensures thrown.message.None? || thrown.message.value == "" ==> message == DefaultError
  {
    match thrown.message
    case Some(m) => if m != "" then m else DefaultError
    case None => DefaultError
  }

  // ----------------------------------------------------------------- export

  /** The title, the date and a rule of 40 `=`, then a blank line. */
  function Header(date: string): string {
    ExportTitle + "\n" + "Date: " + date + "\n" + Repeat('=', 40) + "\n\n"
  }

  function CategoryLine(t: TrendCategory): string {
    CategoryLabel + Upper(t.category) + "\n"
  }

  function WhyLine(t: TrendCategory): string {
    "WHY IT'S TRENDING: " + t.description + "\n"
  }

  function KeywordsLine(t: TrendCategory): string {
    "TARGET KEYWORDS: " + Join(t.keywords, ", ") + "\n"
  }

  function RuleLines(): string {
    Repeat('-', 40) + "\n\n"
  }

  /** The three lines of one category, then a rule of 40 `-` and a blank line. */
  function Block(t: TrendCategory): string {
    CategoryLine(t) + WhyLine(t) + KeywordsLine(t) + RuleLines()
  }

  function Blocks(ts: seq<TrendCategory>): string
    decreases |ts|
  {
    if |ts| == 0 then "" else Blocks(ts[..|ts| - 1]) + Block(ts[|ts| - 1])
  }

  lemma BlocksSnoc(ts: seq<TrendCategory>, k: nat)
    requires k < |ts|
    ensures Blocks(ts[..k + 1]) == Blocks(ts[..k]) + Block(ts[k])
  {
    assert ts[..k + 1][..k] == ts[..k];
  }

  /** Appending the next block to the text so far gives the text one category further. */
  lemma PrefixSnoc(date: string, ts: seq<TrendCategory>, k: nat)
    requires k < |ts|
    ensures Header(date) + Blocks(ts[..k + 1]) == (Header(date) + Blocks(ts[..k])) + Block(ts[k])
  {
    BlocksSnoc(ts, k);
    AppendAssoc(Header(date), Blocks(ts[..k]), Block(ts[k]));
  }

  lemma AppendAssoc(a: string, b: string, c: string)
    ensures a + (b + c) == (a + b) + c
  {
  }

  /** The text `handleExport` builds: it opens with the title line and ends with a blank line. */
  function ExportText(date: string, ts: seq<TrendCategory>): (text: string)
    ensures |text| > |ExportTitle| && text[..|ExportTitle| + 1] == ExportTitle + "\n"
    ensures text[|text| - 2..] == "\n\n"
  {
    var text := Header(date) + Blocks(ts);
    assert Header(date) == (ExportTitle + "\n") + ("Date: " + date + "\n" + Repeat('=', 40) + "\n\n");
    assert text[..|ExportTitle| + 1] == Header(date)[..|ExportTitle| + 1];
    BlocksEndBlank(ts);
    text
  }

  /** The blocks are empty or end with the blank line after a rule. */
  lemma BlocksEndBlank(ts: seq<TrendCategory>)
    ensures |ts| > 0 ==> |Blocks(ts)| >= 2 && Blocks(ts)[|Blocks(ts)| - 2..] == "\n\n"
    ensures |ts| == 0 ==> Blocks(ts) == ""
  {
    if |ts| > 0 {
      var b := Block(ts[|ts| - 1]);
      assert b == (CategoryLine(ts[|ts| - 1]) + WhyLine(ts[|ts| - 1]) + KeywordsLine(ts[|ts| - 1]) + Repeat('-', 40)) + "\n\n";
      assert Blocks(ts) == Blocks(ts[..|ts| - 1]) + b;
    }
  }

  /** `stock_trends_<ISO date up to the 'T'>.txt`. */
  function ExportFileName(isoDate: string): (name: string)
    ensures |name| >= 17 && name[..13] == "stock_trends_" && name[|name| - 4..] == ".txt"
    ensures var day := name[13..|name| - 4];
      && 'T' !in day && |day| <= |isoDate| && isoDate[..|day|] == day
      && (|day| < |isoDate| ==> isoDate[|day|] == 'T')
    ensures 'T' !in isoDate ==> name == "stock_trends_" + isoDate + ".txt"
  {
    var day := FirstPiece(isoDate, 'T');
    var name := "stock_trends_" + day + ".txt";
    assert name[13..|name| - 4] == day;
    name
  }

  // --------------------------------------------------------- line structure

  function HeaderLines(date: string): seq<string> {
    [ExportTitle, "Date: " + date, Repeat('=', 40), ""]
  }

  function BlockLines(t: TrendCategory): seq<string> {
    [CategoryLabel + Upper(t.category), "WHY IT'S TRENDING: " + t.description,
     "TARGET KEYWORDS: " + Join(t.keywords, ", "), Repeat('-', 40), ""]
  }

  function AllBlockLines(ts: seq<TrendCategory>): (r: seq<string>)
    ensures |r| == 5 * |ts|
    decreases |ts|
  {
    if |ts| == 0 then [] else AllBlockLines(ts[..|ts| - 1]) + BlockLines(ts[|ts| - 1])
  }

  /** The lines of the export: the header, five per category, and the empty line after the last break. */
  function ExportLines(date: string, ts: seq<TrendCategory>): seq<string> {
    HeaderLines(date) + AllBlockLines(ts) + [""]
  }

  lemma BlockIsJoin(t: TrendCategory)
    ensures Block(t) == Join(BlockLines(t), "\n") + "\n"
  {
    var b := BlockLines(t);
    assert Join(b[4..], "\n") == "";
    assert Join(b[3..], "\n") == b[3] + "\n" by { assert b[3..][1..] == b[4..]; }
    assert Join(b[2..], "\n") == b[2] + "\n" + b[3] + "\n" by { assert b[2..][1..] == b[3..]; }
    assert Join(b[1..], "\n") == b[1] + "\n" + b[2] + "\n" + b[3] + "\n" by { assert b[1..][1..] == b[2..]; }
    assert Join(b, "\n") == b[0] + "\n" + b[1] + "\n" + b[2] + "\n" + b[3] + "\n";
  }

  lemma HeaderIsJoin(date: string)
    ensures Header(date) == Join(HeaderLines(date), "\n") + "\n"
  {
    var h := HeaderLines(date);
    assert Join(h[3..], "\n") == "";
    assert Join(h[2..], "\n") == h[2] + "\n" by { assert h[2..][1..] == h[3..]; }
    assert Join(h[1..], "\n") == h[1] + "\n" + h[2] + "\n" by { assert h[1..][1..] == h[2..]; }
    assert Join(h, "\n") == h[0] + "\n" + h[1] + "\n" + h[2] + "\n";
  }

  lemma {:induction false} PrefixIsJoin(date: string, ts: seq<TrendCategory>)
    ensures Header(date) + Blocks(ts) == Join(HeaderLines(date) + AllBlockLines(ts), "\n") + "\n"
    decreases |ts|
  {
    if |ts| == 0 {
      HeaderIsJoin(date);
      assert HeaderLines(date) + AllBlockLines(ts) == HeaderLines(date);
    } else {
      var init, last := ts[..|ts| - 1], ts[|ts| - 1];
      var front, back := HeaderLines(date) + AllBlockLines(init), BlockLines(last);
      calc {
        Header(date) + Blocks(ts);
        Header(date) + (Blocks(init) + Block(last));
        { AppendAssoc(Header(date), Blocks(init), Block(last)); }
        (Header(date) + Blocks(init)) + Block(last);
        { PrefixIsJoin(date, init); BlockIsJoin(last); }
        (Join(front, "\n") + "\n") + (Join(back, "\n") + "\n");
        { AppendAssoc(Join(front, "\n") + "\n", Join(back, "\n"), "\n"); }
        (Join(front, "\n") + "\n" + Join(back, "\n")) + "\n";
        { JoinConcat(front, back, "\n"); }
        Join(front + back, "\n") + "\n";
        { assert HeaderLines(date) + AllBlockLines(ts) == front + back; }
        Join(HeaderLines(date) + AllBlockLines(ts), "\n") + "\n";
      }
    }
  }

  /** The export is its lines joined by line breaks. */
  lemma ExportIsJoin(date: string, ts: seq<TrendCategory>)
    ensures ExportText(date, ts) == Join(ExportLines(date, ts), "\n")
  {
    PrefixIsJoin(date, ts);
    JoinConcat(HeaderLines(date) + AllBlockLines(ts), [""], "\n");
  }

  /** The five lines of category `k` sit at `5 * k` among the block lines. */
  lemma {:induction false} AllBlockLinesAt(ts: seq<TrendCategory>, k: nat)
    requires k < |ts|
    ensures AllBlockLines(ts)[5 * k..5 * k + 5] == BlockLines(ts[k])
    decreases |ts|
  {
    var init := ts[..|ts| - 1];
    if k < |ts| - 1 {
      AllBlockLinesAt(init, k);
      assert AllBlockLines(ts)[5 * k..5 * k + 5] == AllBlockLines(init)[5 * k..5 * k + 5];
    }
  }

  /** No field of the export contains a line break of its own. */
  predicate SingleLineFields(date: string, ts: seq<TrendCategory>) {
    && '\n' !in date
    && forall k :: 0 <= k < |ts| ==>
      && '\n' !in ts[k].category && '\n' !in ts[k].description
      && forall j :: 0 <= j < |ts[k].keywords| ==> '\n' !in ts[k].keywords[j]
  }

  lemma HeaderLinesSingle(date: string)
    requires '\n' !in date
    ensures forall i :: 0 <= i < 4 ==> '\n' !in HeaderLines(date)[i]
  {
    var h := HeaderLines(date);
    assert '\n' !in h[0] by { ExportTitleChars(); assert h[0] == ExportTitle; }
  }

  lemma BlockLinesSingle(t: TrendCategory)
    requires '\n' !in t.category && '\n' !in t.description
    requires forall j :: 0 <= j < |t.keywords| ==> '\n' !in t.keywords[j]
    ensures forall i :: 0 <= i < 5 ==> '\n' !in BlockLines(t)[i]
  {
    UpperAvoidsNewline(t.category);
    JoinAvoids(t.keywords, ", ", '\n');
  }

  lemma LinesAreSingle(date: string, ts: seq<TrendCategory>)
    requires SingleLineFields(date, ts)
    ensures forall j :: 0 <= j < |ExportLines(date, ts)| ==> '\n' !in ExportLines(date, ts)[j]
  {
    var lines := ExportLines(date, ts);
    forall j | 0 <= j < |lines| ensures '\n' !in lines[j] {
      if j < 4 {
        HeaderLinesSingle(date);
        assert lines[j] == HeaderLines(date)[j];
      } else if j < 4 + 5 * |ts| {
        var k := (j - 4) / 5;
        var i := j - 4 - 5 * k;
        assert 0 <= i < 5;
        AllBlockLinesAt(ts, k);
        assert lines[j] == AllBlockLines(ts)[5 * k..5 * k + 5][i];
        BlockLinesSingle(ts[k]);
      } else {
        assert lines[j] == "";
      }
    }
  }

  /**
   * Read back line by line, the export is the title, the date line, a rule of 40 `=`
   * and a blank line, then the five lines of each category in list order, and a final
   * empty piece after the last line break.
   */
  lemma ExportShape(date: string, ts: seq<TrendCategory>)
    requires SingleLineFields(date, ts)
    ensures Split(ExportText(date, ts), '\n') == ExportLines(date, ts)
    ensures |ExportLines(date, ts)| == 5 * |ts| + 5
    ensures ExportLines(date, ts)[..4] == [ExportTitle, "Date: " + date, Repeat('=', 40), ""]
    ensures forall k :: 0 <= k < |ts| ==>
      ExportLines(date, ts)[4 + 5 * k..9 + 5 * k] ==
        [CategoryLabel + Upper(ts[k].category), "WHY IT'S TRENDING: " + ts[k].description,
         "TARGET KEYWORDS: " + Join(ts[k].keywords, ", "), Repeat('-', 40), ""]
  {
    var lines := ExportLines(date, ts);
    ExportIsJoin(date, ts);
    LinesAreSingle(date, ts);
    SplitJoin(lines, '\n');
    ExportBlockSlices(date, ts);
  }

  lemma ExportBlockSlices(date: string, ts: seq<TrendCategory>)
    ensures forall k :: 0 <= k < |ts| ==> ExportLines(date, ts)[4 + 5 * k..9 + 5 * k] == BlockLines(ts[k])
  {
    var lines := ExportLines(date, ts);
    forall k | 0 <= k < |ts|
      ensures lines[4 + 5 * k..9 + 5 * k] == BlockLines(ts[k])
    {
      AllBlockLinesAt(ts, k);
      assert lines[4 + 5 * k..9 + 5 * k] == AllBlockLines(ts)[5 * k..5 * k + 5];
    }
  }

  predicate IsCategoryLine(line: string) {
    |CategoryLabel| <= |line| && line[..|CategoryLabel|] == CategoryLabel
  }

  function CountCategoryLines(lines: seq<string>): nat
    decreases |lines|
  {
    if |lines| == 0 then 0
    else CountCategoryLines(lines[..|lines| - 1]) + (if IsCategoryLine(lines[|lines| - 1]) then 1 else 0)
  }

  lemma {:induction false} CountConcat(a: seq<string>, b: seq<string>)
    ensures CountCategoryLines(a + b) == CountCategoryLines(a) + CountCategoryLines(b)
    decreases |b|
  {
    if |b| == 0 {
      assert a + b == a;
    } else {
      CountConcat(a, b[..|b| - 1]);
      assert (a + b)[..|a + b| - 1] == a + b[..|b| - 1];
    }
  }

  lemma BlockHasOneCategoryLine(t: TrendCategory)
    ensures CountCategoryLines(BlockLines(t)) == 1
  {
    var b := BlockLines(t);
    assert IsCategoryLine(b[0]) by { assert b[0][..|CategoryLabel|] == CategoryLabel; }
    assert !IsCategoryLine(b[1]) by { assert b[1][0] == 'W'; }
    assert !IsCategoryLine(b[2]) by { assert b[2][0] == 'T'; }
    assert !IsCategoryLine(b[3]) by { assert b[3][0] == '-'; }
    assert !IsCategoryLine(b[4]);
    assert CountCategoryLines(b[..1]) == 1 by { assert b[..1][..0] == []; }
    assert CountCategoryLines(b[..2]) == 1 by { assert b[..2][..1] == b[..1]; }
    assert CountCategoryLines(b[..3]) == 1 by { assert b[..3][..2] == b[..2]; }
    assert CountCategoryLines(b[..4]) == 1 by { assert b[..4][..3] == b[..3]; }
    assert b[..5][..4] == b[..4] && b[..5] == b;
  }

  lemma {:induction false} BlocksCategoryLines(ts: seq<TrendCategory>)
    ensures CountCategoryLines(AllBlockLines(ts)) == |ts|
    decreases |ts|
  {
    if |ts| > 0 {
      BlocksCategoryLines(ts[..|ts| - 1]);
      CountConcat(AllBlockLines(ts[..|ts| - 1]), BlockLines(ts[|ts| - 1]));
      BlockHasOneCategoryLine(ts[|ts| - 1]);
    }
  }

  /**
   * The downloaded text, read back line by line, has exactly one `CATEGORY:` line per
   * trending category when no field holds a line break.
   */
  lemma DownloadedCategoryLines(date: string, ts: seq<TrendCategory>)
    requires SingleLineFields(date, ts)
    ensures CountCategoryLines(Split(ExportText(date, ts), '\n')) == |ts|
  {
    ExportShape(date, ts);
    CategoryLineCount(date, ts);
  }

  /** The export has exactly one `CATEGORY:` line per trending category. */
  lemma CategoryLineCount(date: string, ts: seq<TrendCategory>)
    ensures CountCategoryLines(ExportLines(date, ts)) == |ts|
  {
    var h := HeaderLines(date);
    assert CountCategoryLines(h) == 0 by {
      assert CategoryLabel[0] == 'C';
      assert !IsCategoryLine(h[0]) by {
        ExportTitleChars();
        assert h[0] == ExportTitle && CategoryLabel[8] == ':';
      }
      assert !IsCategoryLine(h[1]) by { assert h[1][0] == 'D'; }
      assert !IsCategoryLine(h[2]) by { assert h[2][0] == '='; }
      assert !IsCategoryLine(h[3]);
      assert CountCategoryLines(h[..1]) == 0 by { assert h[..1][..0] == []; }
      assert CountCategoryLines(h[..2]) == 0 by { assert h[..2][..1] == h[..1]; }
      assert CountCategoryLines(h[..3]) == 0 by { assert h[..3][..2] == h[..2]; }
      assert h[..4][..3] == h[..3] && h[..4] == h;
    }
    assert CountCategoryLines([""]) == 0 by {
      assert [""][..0] == [];
    }
    BlocksCategoryLines(ts);
    CountConcat(h, AllBlockLines(ts));
    CountConcat(h + AllBlockLines(ts), [""]);
  }

  // ------------------------------------------------------------------ state

  class TrendsState {
    var trends: seq<TrendCategory>
    var isLoading: bool
    var error: Option<string>

    /** Initial state before the fetch on mount. */
    constructor ()
      ensures trends == [] && !isLoading && error == None
    {
      trends := [];
      isLoading := false;
      error := None;
    }

    /** The start of `fetchTrends`: loading on, error cleared, trends kept. */
    method StartFetch()
      modifies this
      ensures isLoading && error == None && trends == old(trends)
    {
      isLoading := true;
      error := None;
    }

    /** The end of `fetchTrends`: the data replaces the trends, or the error is set; loading off. */
    method FinishFetch(outcome: Result<seq<TrendCategory>, Thrown>)
      modifies this
      ensures !isLoading
      ensures outcome.Success? ==> trends == outcome.value && error == old(error)
      ensures outcome.Failure? ==> trends == old(trends) && error == Some(FetchError(outcome.error))
    {
      match outcome {
        case Success(data) =>
          trends := data;
        case Failure(thrown) =>
          error := Some(FetchError(thrown));
      }
      isLoading := false;
    }

    /**
     * `fetchTrends` with the service's outcome: after it, nothing is loading; on
     * success the trends are replaced wholesale and there is no error; on failure
     * the previous trends stay and the error holds a non-empty message.
     */
    method FetchTrends(outcome: Result<seq<TrendCategory>, Thrown>)
      modifies this
      ensures !isLoading
      ensures outcome.Success? ==> trends == outcome.value && error == None
      ensures outcome.Failure? ==> trends == old(trends) && error.Some? && error.value != ""
      ensures outcome.Failure? ==> error == Some(FetchError(outcome.error))
    {
      StartFetch();
      FinishFetch(outcome);
    }

    /**
     * `handleExport`: nothing with no trends; otherwise the text built line by line,
     * under the file name derived from the ISO date. `date` is the locale rendering
     * of the day.
     */
    method HandleExport(date: string, isoDate: string) returns (download: Option<Download>)
      ensures trends == [] <==> download.None?
      ensures trends != [] ==>
        download == Some(Download(ExportText(date, trends), ExportFileName(isoDate), "text/plain"))
    {
      if |trends| == 0 {
        return None;
      }
      var content := ExportTitle + "\n";
      content := content + "Date: " + date + "\n";
      content := content + Repeat('=', 40) + "\n\n";
      assert content == Header(date) + Blocks(trends[..0]);
      for k := 0 to |trends|
        invariant content == Header(date) + Blocks(trends[..k])
      {
        content := AppendBlock(content, trends[k]);
        PrefixSnoc(date, trends, k);
      }
      assert trends[..|trends|] == trends;
      download := Some(Download(content, ExportFileName(isoDate), "text/plain"));
    }
  }

  /** The loop body of `handleExport`: the four pieces of one category, appended in order. */
  method AppendBlock(content: string, item: TrendCategory) returns (r: string)
    ensures r == content + Block(item)
  {
    r := content + CategoryLine(item);
    r := r + WhyLine(item);
    r := r + KeywordsLine(item);
    r := r + RuleLines();
  }
}
