/**
 * The export serialisers of `utils/fileHelpers.ts`: the Adobe Stock CSV, the
 * structured ZIP package built item by item, and the preview size rule.
 */
module FileHelpers {
  import opened Wrappers
  import opened Types
  import opened Text
  import opened Seqs
  import opened CsvFormat
  import opened Imaging

  // ---------------------------------------------------------------- file names

  /**
   * The regular expression `/\.[^/.]+$/` matches at `i`: a dot, then at least one
   * character, and neither a dot nor a slash up to the end of the name.
   */
  predicate ExtensionAt(name: string, i: int) {
    && 0 <= i < |name| - 1
    && name[i] == '.'
    && forall j :: i < j < |name| ==> name[j] != '.' && name[j] != '/'
  }

  /** Looks for the extension's dot at `k` or before; nothing after `k` is a dot or a slash. */
  function StripFrom(name: string, k: nat): (base: string)
    requires k < |name|
    requires forall j :: k < j < |name| ==> name[j] != '.' && name[j] != '/'
    ensures |base| <= |name| && base == name[..|base|]
    ensures |base| < |name| ==> ExtensionAt(name, |base|)
    ensures |base| == |name| ==> forall i :: 0 <= i <= k ==> !ExtensionAt(name, i)
    decreases k
  {
    if name[k] == '/' then name
    else if name[k] == '.' then (if k < |name| - 1 then name[..k] else name)
    else if k == 0 then name
    else StripFrom(name, k - 1)
  }

  /**
   * `name.replace(/\.[^/.]+$/, "")`: the name without its final extension. What is
   * cut is exactly a match of the expression, and nothing is cut when none matches.
   */
  function StripExtension(name: string): (base: string)
    ensures |base| <= |name| && base == name[..|base|]
    ensures |base| < |name| ==> ExtensionAt(name, |base|)
    ensures |base| == |name| ==> forall i :: !ExtensionAt(name, i)
  {
    if |name| == 0 then name else StripFrom(name, |name| - 1)
  }

  /** The `.eps` name a source file is exported under. */
  function EpsName(name: string): (r: string)
    ensures r == StripExtension(name) + ".eps"
    ensures EndsWith(r, ".eps")
    ensures forall ch :: ch in r ==> ch in name || ch in ".eps"
  {
    var base := StripExtension(name);
    assert forall ch :: ch in base ==> ch in name;
    base + ".eps"
  }

  /** The expression matches at one position at most: no dot follows the matched one. */
  lemma ExtensionAtUnique(name: string, i: int, j: int)
    requires ExtensionAt(name, i) && ExtensionAt(name, j)
    ensures i == j
  {
  }

  /**
   * A name with a real extension (a dot, then at least one character that is neither a
   * dot nor a slash) has exactly that extension replaced by `.eps`: "x.svg" gives "x.eps".
   */
  lemma EpsNameReplacesExtension(base: string, ext: string)
    requires |ext| > 0
    requires forall k :: 0 <= k < |ext| ==> ext[k] != '.' && ext[k] != '/'
    ensures StripExtension(base + "." + ext) == base
    ensures EpsName(base + "." + ext) == base + ".eps"
  {
    var name := base + "." + ext;
    var stripped := StripExtension(name);
    assert ExtensionAt(name, |base|) by {
      forall j | |base| < j < |name| ensures name[j] != '.' && name[j] != '/' {
        assert name[j] == ext[j - |base| - 1];
      }
    }
    ExtensionAtUnique(name, |stripped|, |base|);
    assert stripped == name[..|base|] == base;
  }

  /** A name without an extension is kept whole: "README" gives "README.eps". */
  lemma EpsNameWithoutExtension(name: string)
    requires forall i :: !ExtensionAt(name, i)
    ensures EpsName(name) == name + ".eps"
  {
    assert |StripExtension(name)| == |name|;
  }

  // ---------------------------------------------------------------------- CSV

  const CsvHeader: string := "Filename,Title,Keywords,Category,Releases"

  /** Rows are written for completed items that carry metadata. */
  predicate IsExportable(item: FileItem) {
    item.status == Completed && item.metadata.Some?
  }

  function Exportable(items: seq<FileItem>): (r: seq<FileItem>)
    ensures forall k :: 0 <= k < |r| ==> IsExportable(r[k])
  {
    Filter(items, IsExportable)
  }

  /** Rows are written for exactly the completed items with metadata. */
  lemma ExportableMembers(items: seq<FileItem>)
    ensures forall item :: item in Exportable(items) <==>
      item in items && item.status == Completed && item.metadata.Some?
  {
    FilterMembers(items, IsExportable);
  }

  /**
   * One row, the template `"${filename}","${title}","${keywords}","",""`: five
   * quoted fields separated by commas. The `.eps` name is quoted but not escaped;
   * the title and the `", "`-joined tags have their quotes doubled; the last two are empty.
   */
  function CsvRow(item: FileItem): string
    requires item.metadata.Some?
  {
    Join(RowFields(item), ",")
  }

  /** The five quoted fields of a row, before they are joined by commas. */
  function RowFields(item: FileItem): seq<string>
    requires item.metadata.Some?
  {
    var m := item.metadata.value;
    ["\"" + EpsName(item.file.name) + "\"", QuoteField(m.title), QuoteField(Join(m.tags, ", ")), "\"\"", "\"\""]
  }

  /** A row ends with the closing quote of its last, empty, field. */
  lemma CsvRowEndsWithQuote(item: FileItem)
    requires item.metadata.Some?
    ensures |CsvRow(item)| > 0 && CsvRow(item)[|CsvRow(item)| - 1] == '"'
  {
    var fields := RowFields(item);
    JoinEndsWithLast(fields, ",");
    var row := CsvRow(item);
    assert row[|row| - 2..] == "\"\"";
    assert row[|row| - 1] == row[|row| - 2..][1];
  }

  function CsvRows(items: seq<FileItem>): (rows: seq<string>)
    ensures |rows| == |Exportable(items)|
    ensures forall k :: 0 <= k < |rows| ==> rows[k] == CsvRow(Exportable(items)[k])
  {
    RowsOf(Exportable(items))
  }

  /** The row of each item of `ex`, in order. */
  function RowsOf(ex: seq<FileItem>): seq<string>
    requires forall k :: 0 <= k < |ex| ==> ex[k].metadata.Some?
  {
    seq(|ex|, k requires 0 <= k < |ex| => CsvRow(ex[k]))
  }

  /**
   * `generateAdobeStockCSV`: the header line, then one row per exportable item,
   * joined by line feeds with no line feed at the end.
   */
  function GenerateCsv(items: seq<FileItem>): (csv: string)
    ensures |csv| >= |CsvHeader| && csv[..|CsvHeader|] == CsvHeader
    ensures Exportable(items) == [] ==> csv == CsvHeader
    ensures csv[|csv| - 1] != '\n'
  {
    var lines := [CsvHeader] + CsvRows(items);
    JoinStartsWithFirst(lines, "\n");
    CsvLastLine(items);
    JoinLastChar(lines, "\n");
    Join(lines, "\n")
  }

  /** The last line of the CSV, header or row, ends with a character other than a line feed. */
  lemma CsvLastLine(items: seq<FileItem>)
    ensures var lines := [CsvHeader] + CsvRows(items);
      |lines[|lines| - 1]| > 0 && lines[|lines| - 1][|lines[|lines| - 1]| - 1] != '\n'
  {
    var rows := CsvRows(items);
    var lines := [CsvHeader] + rows;
    if |rows| > 0 {
      var ex := Exportable(items);
      RowsOfLast(ex);
      assert lines[|lines| - 1] == rows[|rows| - 1];
    } else {
      assert lines == [CsvHeader];
      assert CsvHeader[|CsvHeader| - 1] == 's';
    }
  }

  /** The last of a non-empty list of rows ends with a quote. */
  lemma RowsOfLast(ex: seq<FileItem>)
    requires forall k :: 0 <= k < |ex| ==> ex[k].metadata.Some?
    requires |ex| > 0
    ensures var rows := RowsOf(ex); |rows[|rows| - 1]| > 0 && rows[|rows| - 1][|rows[|rows| - 1]| - 1] == '"'
  {
    CsvRowEndsWithQuote(ex[|ex| - 1]);
  }

  /** The values a row stands for: the `.eps` name, title, joined tags and two empty columns. */
  function RowValues(item: FileItem): seq<string>
    requires item.metadata.Some?
  {
    [EpsName(item.file.name), item.metadata.value.title, Join(item.metadata.value.tags, ", "), "", ""]
  }

  /**
   * When the file name holds no double quote, a row reads back, by the RFC 4180
   * reader, as its five values: the doubled quotes in title and tags come undone.
   */
  lemma CsvRowReadsBack(item: FileItem)
    requires item.metadata.Some?
    requires '"' !in item.file.name
    ensures ParseRecord(CsvRow(item)) == Some(RowValues(item))
  {
    CsvRowIsRecord(item);
    ParseEncodeRecord(RowValues(item));
  }

  /** Without a quote in the file name, a row is the RFC 4180 record of its values. */
  lemma CsvRowIsRecord(item: FileItem)
    requires item.metadata.Some?
    requires '"' !in item.file.name
    ensures CsvRow(item) == EncodeRecord(RowValues(item))
  {
    var values := RowValues(item);
    var fields, expected := QuoteAll(values), RowFields(item);
    assert fields[0] == expected[0] by { EscapeWithoutQuotes(values[0]); }
    assert fields[1] == expected[1] && fields[2] == expected[2];
    assert fields[3] == expected[3] == fields[4] == expected[4] by {
      assert EscapeQuotes("") == "";
    }
    assert fields == expected;
  }

  /**
   * The file name is written unescaped, so a quote in it ends the field early: the
   * row for `a"b.svg` is not a valid record, whatever the metadata.
   */
  lemma QuoteInFileNameBreaksRow(item: FileItem)
    requires item.metadata.Some? && item.file.name == "a\"b.svg"
    ensures ParseRecord(CsvRow(item)) == None
  {
    assert ExtensionAt(item.file.name, 3);
    assert EpsName(item.file.name) == "a\"b.eps";
    var fields := RowFields(item);
    var tail := ".eps\"" + "," + Join(fields[1..], ",");
    assert fields[0] == "\"a\"b" + ".eps\"";
    assert CsvRow(item) == fields[0] + "," + Join(fields[1..], ",");
    assert CsvRow(item) == "\"a\"b" + tail;
    StrayQuoteBreaksRecord(tail);
  }

  /** Rows keep the order of the items: the rows of a concatenation are concatenated rows. */
  lemma CsvRowsAppend(a: seq<FileItem>, b: seq<FileItem>)
    ensures CsvRows(a + b) == CsvRows(a) + CsvRows(b)
  {
    FilterConcat(a, b, IsExportable);
    var ea, eb := Exportable(a), Exportable(b);
    assert Exportable(a + b) == ea + eb;
    RowsOfConcat(ea, eb);
  }

  lemma RowsOfConcat(x: seq<FileItem>, y: seq<FileItem>)
    requires forall k :: 0 <= k < |x| ==> x[k].metadata.Some?
    requires forall k :: 0 <= k < |y| ==> y[k].metadata.Some?
    ensures RowsOf(x + y) == RowsOf(x) + RowsOf(y)
  {
    var lhs, rhs := RowsOf(x + y), RowsOf(x) + RowsOf(y);
    forall k | 0 <= k < |lhs| ensures lhs[k] == rhs[k] {
      if k < |x| {
        assert lhs[k] == CsvRow(x[k]);
      } else {
        assert lhs[k] == CsvRow(y[k - |x|]);
      }
    }
  }

  /** Nothing in a row is a line feed when the name, title and tags hold none. */
  lemma CsvRowSingleLine(item: FileItem)
    requires item.metadata.Some?
    requires '\n' !in item.file.name && '\n' !in item.metadata.value.title
    requires forall k :: 0 <= k < |item.metadata.value.tags| ==> '\n' !in item.metadata.value.tags[k]
    ensures '\n' !in CsvRow(item)
  {
    var m := item.metadata.value;
    JoinAvoids(m.tags, ", ", '\n');
    var fields := RowFields(item);
    assert '\n' !in EpsName(item.file.name);
    EscapeKeepsChars(m.title, '\n');
    EscapeKeepsChars(Join(m.tags, ", "), '\n');
    forall k | 0 <= k < |fields| ensures '\n' !in fields[k] {
    }
    JoinAvoids(fields, ",", '\n');
  }

  /** No exportable item has a line feed in its name, title or tags. */
  predicate SingleLineFields(items: seq<FileItem>) {
    forall k :: 0 <= k < |items| && IsExportable(items[k]) ==>
      && '\n' !in items[k].file.name
      && '\n' !in items[k].metadata.value.title
      && forall t :: 0 <= t < |items[k].metadata.value.tags| ==> '\n' !in items[k].metadata.value.tags[t]
  }

  /**
   * Read back line by line, the CSV is the header and then exactly one row per
   * exportable item, in input order: 1 + that count lines.
   */
  lemma CsvLines(items: seq<FileItem>)
    requires SingleLineFields(items)
    ensures Split(GenerateCsv(items), '\n') == [CsvHeader] + CsvRows(items)
    ensures |Split(GenerateCsv(items), '\n')| == 1 + |Exportable(items)|
  {
    var rows := CsvRows(items);
    RowsSingleLine(items);
    var lines := [CsvHeader] + rows;
    forall k | 0 <= k < |lines| ensures '\n' !in lines[k] {
      if k > 0 {
        assert lines[k] == rows[k - 1];
      }
    }
    SplitJoin(lines, '\n');
  }

  /** No row holds a line feed when no exportable item has one in its fields. */
  lemma RowsSingleLine(items: seq<FileItem>)
    requires SingleLineFields(items)
    ensures forall k :: 0 <= k < |CsvRows(items)| ==> '\n' !in CsvRows(items)[k]
  {
    var rows := CsvRows(items);
    var ex := Exportable(items);
    ExportableMembers(items);
    forall k | 0 <= k < |rows| ensures '\n' !in rows[k] {
      assert ex[k] in items;
      var j :| 0 <= j < |items| && items[j] == ex[k];
      CsvRowSingleLine(ex[k]);
    }
  }

  predicate IsCompleted(item: FileItem) {
    item.status == Completed
  }

  /** `items.filter(item => item.status === 'completed')`. */
  function CompletedItems(items: seq<FileItem>): (r: seq<FileItem>)
    ensures forall k :: 0 <= k < |r| ==> r[k].status == Completed
  {
    Filter(items, IsCompleted)
  }

  lemma CompletedMembers(items: seq<FileItem>)
    ensures forall item :: item in CompletedItems(items) <==> item in items && item.status == Completed
  {
    FilterMembers(items, IsCompleted);
  }

  /** The package's CSV, built from the completed items only, is the CSV of the whole list. */
  lemma CsvOfCompleted(items: seq<FileItem>)
    ensures GenerateCsv(CompletedItems(items)) == GenerateCsv(items)
  {
    FilterOfFilter(items, IsCompleted, IsExportable);
  }

  // ---------------------------------------------------------------------- ZIP

  /** What an archive path holds: text, a source file, JPEG bytes, or a folder. */
  datatype Entry = TextFile(text: string) | SourceFile(file: File) | JpegFile(bytes: seq<bv8>) | Folder

  /** A ZIP archive under construction: paths mapped to what they hold. */
  class Archive {
    var entries: map<string, Entry>

    constructor ()
      ensures entries == map[]
    {
      entries := map[];
    }

    /** `zip.file(path, content)`: adds the entry, replacing one at the same path. */
    method AddFile(path: string, content: Entry)
      modifies this
      ensures entries == old(entries)[path := content]
    {
      entries := entries[path := content];
    }

    /** `zip.folder(name)`: adds the folder entry; files added through it go under the returned prefix. */
    method AddFolder(name: string) returns (prefix: string)
      modifies this
      ensures prefix == name + "/"
      ensures entries == old(entries)[prefix := Folder]
    {
      prefix := name + "/";
      entries := entries[prefix := Folder];
    }
  }

  const ManifestPath: string := "metadata.csv"

  function EpsPath(item: FileItem): string {
    "eps/" + StripExtension(item.file.name) + ".eps"
  }

  function PinPath(item: FileItem): string {
    "pin/" + StripExtension(item.file.name) + ".jpg"
  }

  /** The archive before the loop: the manifest and the two empty folders. */
  function InitialEntries(completed: seq<FileItem>): map<string, Entry> {
    map[ManifestPath := TextFile(GenerateCsv(completed))]["eps/" := Folder]["pin/" := Folder]
  }

  /** One loop step: the source under `eps/`, then the preview under `pin/` if rasterizing succeeded. */
  function PackItem(entries: map<string, Entry>, item: FileItem, rasterize: File -> Option<seq<bv8>>): map<string, Entry> {
    var withSource := entries[EpsPath(item) := SourceFile(item.file)];
    match rasterize(item.file)
    case Some(jpeg) => withSource[PinPath(item) := JpegFile(jpeg)]
    case None => withSource
  }

  /** The loop over the first `count` of `items`, in order. */
  function PackItems(entries: map<string, Entry>, items: seq<FileItem>, count: nat, rasterize: File -> Option<seq<bv8>>): map<string, Entry>
    requires count <= |items|
  {
    if count == 0 then entries
    else PackItem(PackItems(entries, items, count - 1, rasterize), items[count - 1], rasterize)
  }

  /** The start of `generateStockZip`: a new archive with the manifest and the two folders. */
  method StartArchive(completed: seq<FileItem>) returns (zip: Archive, epsFolder: string, pinFolder: string)
    ensures fresh(zip)
    ensures zip.entries == InitialEntries(completed)
    ensures epsFolder == "eps/" && pinFolder == "pin/"
  {
    zip := new Archive();
    zip.AddFile(ManifestPath, TextFile(GenerateCsv(completed)));
    epsFolder := zip.AddFolder("eps");
    pinFolder := zip.AddFolder("pin");
    assert epsFolder == "eps/" && pinFolder == "pin/";
  }

  /** The loop body of `generateStockZip` for one item. */
  method AddItemFiles(zip: Archive, epsFolder: string, pinFolder: string, item: FileItem, rasterize: File -> Option<seq<bv8>>)
    requires epsFolder == "eps/" && pinFolder == "pin/"
    modifies zip
    ensures zip.entries == PackItem(old(zip.entries), item, rasterize)
  {
    var baseName := StripExtension(item.file.name);
    zip.AddFile(epsFolder + baseName + ".eps", SourceFile(item.file));
    match rasterize(item.file) {
      case Some(jpeg) =>
        zip.AddFile(pinFolder + baseName + ".jpg", JpegFile(jpeg));
      case None =>
    }
  }

  /** The archive `generateStockZip` builds for `items`. */
  function ArchiveEntries(items: seq<FileItem>, rasterize: File -> Option<seq<bv8>>): map<string, Entry> {
    var completed := CompletedItems(items);
    PackItems(InitialEntries(completed), completed, |completed|, rasterize)
  }

  /** `(processed / total) * 100`. */
  function Progress(processed: nat, total: nat): (percent: real)
    requires total > 0
    ensures processed <= total ==> percent <= 100.0
    ensures processed == total ==> percent == 100.0
    ensures processed > 0 ==> percent > 0.0
  {
    (processed as real / total as real) * 100.0
  }

  /** The values reported after each of the first `count` of `total` items. */
  function Reports(count: nat, total: nat): (r: seq<real>)
    requires count <= total
    ensures |r| == count
    ensures forall j :: 0 <= j < count ==> r[j] == Progress(j + 1, total)
  {
    if count == 0 then [] else Reports(count - 1, total) + [Progress(count, total)]
  }

  /**
   * `generateStockZip`: the archive it fills, the values it reports through
   * `onProgress` (one after each completed item) and the name the package is
   * downloaded under; `isoDate` is `new Date().toISOString()`.
   */
  method GenerateStockZip(items: seq<FileItem>, rasterize: File -> Option<seq<bv8>>, isoDate: string)
    returns (zip: Archive, progress: seq<real>, fileName: string)
    ensures fresh(zip)
    ensures fileName == PackageFileName(isoDate)
    ensures zip.entries == ArchiveEntries(items, rasterize)
    ensures |progress| == |CompletedItems(items)|
    ensures forall k :: 0 <= k < |progress| ==> progress[k] == Progress(k + 1, |progress|)
  {
    var completedItems := CompletedItems(items);
    var epsFolder, pinFolder;
    zip, epsFolder, pinFolder := StartArchive(completedItems);
    progress := AddAllItems(zip, epsFolder, pinFolder, completedItems, rasterize);
    fileName := PackageFileName(isoDate);
  }

  /** The item loop of `generateStockZip`, reporting progress after each item. */
  method AddAllItems(zip: Archive, epsFolder: string, pinFolder: string, completedItems: seq<FileItem>, rasterize: File -> Option<seq<bv8>>)
    returns (progress: seq<real>)
    requires epsFolder == "eps/" && pinFolder == "pin/"
    modifies zip
    ensures zip.entries == PackItems(old(zip.entries), completedItems, |completedItems|, rasterize)
    ensures progress == Reports(|completedItems|, |completedItems|)
  {
    ghost var initial := zip.entries;
    var processed := 0;
    progress := [];
    for k := 0 to |completedItems|
      invariant processed == k == |progress|
      invariant zip.entries == PackItems(initial, completedItems, k, rasterize)
      invariant progress == Reports(k, |completedItems|)
    {
      var item := completedItems[k];
      AddItemFiles(zip, epsFolder, pinFolder, item, rasterize);
      processed := processed + 1;
      progress := progress + [Progress(processed, |completedItems|)];
    }
  }

  /** The download name of the package: `adobe_stock_package_<ISO date up to the 'T'>.zip`. */
  function PackageFileName(isoDate: string): (name: string)
    ensures |name| >= 24 && name[..20] == "adobe_stock_package_" && name[|name| - 4..] == ".zip"
    ensures var day := name[20..|name| - 4];
      && 'T' !in day && |day| <= |isoDate| && isoDate[..|day|] == day
      && (|day| < |isoDate| ==> isoDate[|day|] == 'T')
    ensures 'T' !in isoDate ==> name == "adobe_stock_package_" + isoDate + ".zip"
  {
    var day := FirstPiece(isoDate, 'T');
    var name := "adobe_stock_package_" + day + ".zip";
    assert name[20..|name| - 4] == day;
    name
  }

  // ------------------------------------------------------- what the archive holds

  /** Paths the item loop writes: under `eps/` or `pin/`, with a name after the slash. */
  predicate IsItemPath(key: string) {
    |key| > 4 && (key[..4] == "eps/" || key[..4] == "pin/")
  }

  lemma ItemPathsDiffer(item: FileItem, other: FileItem)
    ensures IsItemPath(EpsPath(item)) && IsItemPath(PinPath(item))
    ensures EpsPath(item)[..4] == "eps/" && PinPath(item)[..4] == "pin/"
    ensures EpsPath(item) != PinPath(other)
  {
    assert EpsPath(item)[..4] == "eps/";
    assert PinPath(item)[..4] == "pin/";
    assert EpsPath(item)[0] == 'e' && PinPath(other)[0] == 'p';
  }

  /** Two items share an `eps/` path exactly when their base names agree; likewise under `pin/`. */
  lemma ItemPathsInjective(a: FileItem, b: FileItem)
    ensures EpsPath(a) == EpsPath(b) <==> StripExtension(a.file.name) == StripExtension(b.file.name)
    ensures PinPath(a) == PinPath(b) <==> StripExtension(a.file.name) == StripExtension(b.file.name)
  {
    var x, y := StripExtension(a.file.name), StripExtension(b.file.name);
    if EpsPath(a) == EpsPath(b) {
      var p := EpsPath(a);
      assert |x| == |y|;
      assert x == p[4..4 + |x|] && y == p[4..4 + |y|];
    }
    if PinPath(a) == PinPath(b) {
      var p := PinPath(a);
      assert |x| == |y|;
      assert x == p[4..4 + |x|] && y == p[4..4 + |y|];
    }
  }

  lemma InitialHasNoItemPaths(completed: seq<FileItem>)
    ensures forall key :: key in InitialEntries(completed) ==> !IsItemPath(key)
  {
    forall key | key in InitialEntries(completed) ensures !IsItemPath(key) {
      assert key == ManifestPath || key == "eps/" || key == "pin/";
      if key == ManifestPath {
        assert key[..4] == "meta";
      }
    }
  }

  /** The loop leaves every path outside `eps/` and `pin/` as it found it. */
  lemma {:induction false} PackItemsKeepsOthers(entries: map<string, Entry>, items: seq<FileItem>, count: nat, rasterize: File -> Option<seq<bv8>>, key: string)
    requires count <= |items| && !IsItemPath(key)
    ensures key in PackItems(entries, items, count, rasterize) <==> key in entries
    ensures key in entries ==> PackItems(entries, items, count, rasterize)[key] == entries[key]
  {
    if count > 0 {
      PackItemsKeepsOthers(entries, items, count - 1, rasterize, key);
      ItemPathsDiffer(items[count - 1], items[count - 1]);
    }
  }

  /** The loop writes the `eps/` path of each item, and its `pin/` path when rasterizing succeeds. */
  lemma {:induction false} PackItemsWritesItem(entries: map<string, Entry>, items: seq<FileItem>, count: nat, rasterize: File -> Option<seq<bv8>>, i: nat)
    requires i < count <= |items|
    ensures EpsPath(items[i]) in PackItems(entries, items, count, rasterize)
    ensures rasterize(items[i].file).Some? ==> PinPath(items[i]) in PackItems(entries, items, count, rasterize)
  {
    var prev := PackItems(entries, items, count - 1, rasterize);
    PackItemKeys(prev, items[count - 1], rasterize);
    if i < count - 1 {
      PackItemsWritesItem(entries, items, count - 1, rasterize, i);
    }
  }

  /** One step keeps every key and adds the item's own paths. */
  lemma PackItemKeys(entries: map<string, Entry>, item: FileItem, rasterize: File -> Option<seq<bv8>>)
    ensures entries.Keys <= PackItem(entries, item, rasterize).Keys
    ensures EpsPath(item) in PackItem(entries, item, rasterize)
    ensures rasterize(item.file).Some? ==> PinPath(item) in PackItem(entries, item, rasterize)
  {
  }

  /** The loop writes nothing but the paths of the items. */
  lemma {:induction false} PackItemsWritesOnly(entries: map<string, Entry>, items: seq<FileItem>, count: nat, rasterize: File -> Option<seq<bv8>>, key: string)
    returns (i: nat)
    requires count <= |items|
    requires key in PackItems(entries, items, count, rasterize) && key !in entries
    ensures i < count && (key == EpsPath(items[i]) || key == PinPath(items[i]))
  {
    var last := items[count - 1];
    if key == EpsPath(last) || key == PinPath(last) {
      i := count - 1;
    } else {
      i := PackItemsWritesOnly(entries, items, count - 1, rasterize, key);
    }
  }

  /** Items whose base names agree are the same item. */
  predicate DistinctBaseNames(items: seq<FileItem>) {
    forall i, j :: 0 <= i < |items| && 0 <= j < |items| ==>
      (StripExtension(items[i].file.name) == StripExtension(items[j].file.name) ==> items[i] == items[j])
  }

  /**
   * When no two different items share a base name and the starting archive holds no
   * item path, an item's entries are its own: its source under `eps/`, and a preview
   * under `pin/` exactly when rasterizing it succeeded.
   */
  lemma {:induction false} PackItemsExact(entries: map<string, Entry>, items: seq<FileItem>, count: nat, rasterize: File -> Option<seq<bv8>>, i: nat)
    requires i < count <= |items|
    requires DistinctBaseNames(items)
    requires forall key :: key in entries ==> !IsItemPath(key)
    ensures EpsPath(items[i]) in PackItems(entries, items, count, rasterize)
    ensures PackItems(entries, items, count, rasterize)[EpsPath(items[i])] == SourceFile(items[i].file)
    ensures PinPath(items[i]) in PackItems(entries, items, count, rasterize) <==> rasterize(items[i].file).Some?
    ensures rasterize(items[i].file).Some? ==>
      PackItems(entries, items, count, rasterize)[PinPath(items[i])] == JpegFile(rasterize(items[i].file).value)
  {
    PackItemsSource(entries, items, count, rasterize, i);
    PackItemsPreview(entries, items, count, rasterize, i);
  }

  /** The `eps/` half of `PackItemsExact`. */
  lemma {:induction false} PackItemsSource(entries: map<string, Entry>, items: seq<FileItem>, count: nat, rasterize: File -> Option<seq<bv8>>, i: nat)
    requires i < count <= |items|
    requires DistinctBaseNames(items)
    ensures EpsPath(items[i]) in PackItems(entries, items, count, rasterize)
    ensures PackItems(entries, items, count, rasterize)[EpsPath(items[i])] == SourceFile(items[i].file)
  {
    var item, last := items[i], items[count - 1];
    var prev := PackItems(entries, items, count - 1, rasterize);
    if StripExtension(item.file.name) == StripExtension(last.file.name) {
      assert item == last;
      PackItemWritesSource(prev, item, rasterize);
    } else {
      PackItemsSource(entries, items, count - 1, rasterize, i);
      PackItemOther(prev, item, last, rasterize);
    }
  }

  /** The `pin/` half of `PackItemsExact`. */
  lemma {:induction false} PackItemsPreview(entries: map<string, Entry>, items: seq<FileItem>, count: nat, rasterize: File -> Option<seq<bv8>>, i: nat)
    requires i < count <= |items|
    requires DistinctBaseNames(items)
    requires forall key :: key in entries ==> !IsItemPath(key)
    ensures PinPath(items[i]) in PackItems(entries, items, count, rasterize) <==> rasterize(items[i].file).Some?
    ensures rasterize(items[i].file).Some? ==>
      PackItems(entries, items, count, rasterize)[PinPath(items[i])] == JpegFile(rasterize(items[i].file).value)
  {
    var item, last := items[i], items[count - 1];
    var prev := PackItems(entries, items, count - 1, rasterize);
    if StripExtension(item.file.name) == StripExtension(last.file.name) {
      assert item == last;
      PackItemsPreviewLast(entries, items, count, rasterize);
    } else {
      PackItemsPreview(entries, items, count - 1, rasterize, i);
      PackItemOther(prev, item, last, rasterize);
    }
  }

  /** The `pin/` entry of the item written last: no earlier item can have written its path. */
  lemma PackItemsPreviewLast(entries: map<string, Entry>, items: seq<FileItem>, count: nat, rasterize: File -> Option<seq<bv8>>)
    requires 0 < count <= |items|
    requires DistinctBaseNames(items)
    requires forall key :: key in entries ==> !IsItemPath(key)
    ensures PinPath(items[count - 1]) in PackItems(entries, items, count, rasterize) <==> rasterize(items[count - 1].file).Some?
    ensures rasterize(items[count - 1].file).Some? ==>
      PackItems(entries, items, count, rasterize)[PinPath(items[count - 1])] == JpegFile(rasterize(items[count - 1].file).value)
  {
    var last := items[count - 1];
    var prev := PackItems(entries, items, count - 1, rasterize);
    if PinPath(last) in prev {
      var j := PackItemsPinOrigin(entries, items, count - 1, rasterize, PinPath(last));
      ItemPathsInjective(items[j], last);
    }
    PackItemSelf(prev, last, rasterize);
  }

  /** One loop step writes the item's own source under `eps/`. */
  lemma PackItemWritesSource(entries: map<string, Entry>, item: FileItem, rasterize: File -> Option<seq<bv8>>)
    ensures EpsPath(item) in PackItem(entries, item, rasterize)
    ensures PackItem(entries, item, rasterize)[EpsPath(item)] == SourceFile(item.file)
  {
    ItemPathsDiffer(item, item);
  }

  /** One loop step writes the item's own source, and its preview exactly when rasterizing succeeds. */
  lemma PackItemSelf(entries: map<string, Entry>, item: FileItem, rasterize: File -> Option<seq<bv8>>)
    requires rasterize(item.file).None? ==> PinPath(item) !in entries
    ensures EpsPath(item) in PackItem(entries, item, rasterize)
    ensures PackItem(entries, item, rasterize)[EpsPath(item)] == SourceFile(item.file)
    ensures PinPath(item) in PackItem(entries, item, rasterize) <==> rasterize(item.file).Some?
    ensures rasterize(item.file).Some? ==>
      PackItem(entries, item, rasterize)[PinPath(item)] == JpegFile(rasterize(item.file).value)
  {
    ItemPathsDiffer(item, item);
  }

  /** One loop step for an item with another base name leaves this item's two paths alone. */
  lemma PackItemOther(entries: map<string, Entry>, item: FileItem, other: FileItem, rasterize: File -> Option<seq<bv8>>)
    requires StripExtension(item.file.name) != StripExtension(other.file.name)
    ensures EpsPath(item) in PackItem(entries, other, rasterize) <==> EpsPath(item) in entries
    ensures PinPath(item) in PackItem(entries, other, rasterize) <==> PinPath(item) in entries
    ensures EpsPath(item) in entries ==> PackItem(entries, other, rasterize)[EpsPath(item)] == entries[EpsPath(item)]
    ensures PinPath(item) in entries ==> PackItem(entries, other, rasterize)[PinPath(item)] == entries[PinPath(item)]
  {
    ItemPathsInjective(item, other);
    ItemPathsDiffer(item, other);
    ItemPathsDiffer(other, item);
  }

  /** A `pin/` entry the loop holds comes from an item whose rasterizing succeeded, when the start held none. */
  lemma {:induction false} PackItemsPinOrigin(entries: map<string, Entry>, items: seq<FileItem>, count: nat, rasterize: File -> Option<seq<bv8>>, key: string)
    returns (j: nat)
    requires count <= |items|
    requires forall k :: k in entries ==> !IsItemPath(k)
    requires key in PackItems(entries, items, count, rasterize) && |key| > 4 && key[..4] == "pin/"
    ensures j < count && key == PinPath(items[j]) && rasterize(items[j].file).Some?
  {
    if count == 0 {
      assert false;
    }
    var last := items[count - 1];
    if key == PinPath(last) && rasterize(last.file).Some? {
      j := count - 1;
    } else {
      PackItemOtherKey(PackItems(entries, items, count - 1, rasterize), last, rasterize, key);
      j := PackItemsPinOrigin(entries, items, count - 1, rasterize, key);
    }
  }

  /** A `pin/` key that one step did not write as the item's preview was there before the step. */
  lemma PackItemOtherKey(entries: map<string, Entry>, item: FileItem, rasterize: File -> Option<seq<bv8>>, key: string)
    requires key in PackItem(entries, item, rasterize) && |key| > 4 && key[..4] == "pin/"
    requires !(key == PinPath(item) && rasterize(item.file).Some?)
    ensures key in entries
  {
    ItemPathsDiffer(item, item);
    assert key != EpsPath(item) by {
      assert key[..4][0] != EpsPath(item)[..4][0];
    }
  }

  /** The archive's manifest is the CSV of the whole list; both folders are present. */
  lemma ArchiveManifest(items: seq<FileItem>, rasterize: File -> Option<seq<bv8>>)
    ensures ManifestPath in ArchiveEntries(items, rasterize)
    ensures ArchiveEntries(items, rasterize)[ManifestPath] == TextFile(GenerateCsv(items))
    ensures "eps/" in ArchiveEntries(items, rasterize) && ArchiveEntries(items, rasterize)["eps/"] == Folder
    ensures "pin/" in ArchiveEntries(items, rasterize) && ArchiveEntries(items, rasterize)["pin/"] == Folder
  {
    var completed := CompletedItems(items);
    var initial := InitialEntries(completed);
    assert ManifestPath[..4] == "meta";
    PackItemsKeepsOthers(initial, completed, |completed|, rasterize, ManifestPath);
    PackItemsKeepsOthers(initial, completed, |completed|, rasterize, "eps/");
    PackItemsKeepsOthers(initial, completed, |completed|, rasterize, "pin/");
    CsvOfCompleted(items);
  }

  /**
   * Every completed item has its `eps/` entry, and its `pin/` entry when rasterizing
   * succeeds; besides the manifest and the two folders nothing else is in the archive.
   */
  lemma ArchiveHoldsCompleted(items: seq<FileItem>, rasterize: File -> Option<seq<bv8>>)
    ensures forall item :: item in items && item.status == Completed ==>
      && EpsPath(item) in ArchiveEntries(items, rasterize)
      && (rasterize(item.file).Some? ==> PinPath(item) in ArchiveEntries(items, rasterize))
    ensures forall key :: key in ArchiveEntries(items, rasterize) ==>
      || key == ManifestPath || key == "eps/" || key == "pin/"
      || exists item :: item in items && item.status == Completed && (key == EpsPath(item) || key == PinPath(item))
  {
    var completed := CompletedItems(items);
    var initial := InitialEntries(completed);
    CompletedMembers(items);
    forall item | item in items && item.status == Completed
      ensures EpsPath(item) in ArchiveEntries(items, rasterize)
      ensures rasterize(item.file).Some? ==> PinPath(item) in ArchiveEntries(items, rasterize)
    {
      assert item in completed;
      var i :| 0 <= i < |completed| && completed[i] == item;
      PackItemsWritesItem(initial, completed, |completed|, rasterize, i);
    }
    forall key | key in ArchiveEntries(items, rasterize) && key !in initial
      ensures exists item :: item in items && item.status == Completed && (key == EpsPath(item) || key == PinPath(item))
    {
      var i := PackItemsWritesOnly(initial, completed, |completed|, rasterize, key);
      assert completed[i] in completed;
    }
  }

  /**
   * With no two different completed items sharing a base name, every completed item's
   * source is under `eps/`, and its preview is under `pin/` exactly when rasterizing succeeded.
   */
  lemma ArchiveExact(items: seq<FileItem>, rasterize: File -> Option<seq<bv8>>, item: FileItem)
    requires DistinctBaseNames(CompletedItems(items))
    requires item in items && item.status == Completed
    ensures EpsPath(item) in ArchiveEntries(items, rasterize)
    ensures ArchiveEntries(items, rasterize)[EpsPath(item)] == SourceFile(item.file)
    ensures PinPath(item) in ArchiveEntries(items, rasterize) <==> rasterize(item.file).Some?
    ensures rasterize(item.file).Some? ==>
      ArchiveEntries(items, rasterize)[PinPath(item)] == JpegFile(rasterize(item.file).value)
  {
    var completed := CompletedItems(items);
    InitialHasNoItemPaths(completed);
    CompletedMembers(items);
    assert item in completed;
    var i :| 0 <= i < |completed| && completed[i] == item;
    PackItemsExact(InitialEntries(completed), completed, |completed|, rasterize, i);
  }

  // ------------------------------------------------------------------ progress

  /** Each report is above 0 and at most 100, and the report after the last item is 100. */
  lemma ProgressRange(processed: nat, total: nat)
    requires 0 < processed <= total
    ensures 0.0 < Progress(processed, total) <= 100.0
    ensures processed == total ==> Progress(processed, total) == 100.0
  {
    var p, t := processed as real, total as real;
    var q := p / t;
    assert q > 0.0;
    assert q <= 1.0 by {
      assert p <= t;
      assert p / t <= t / t;
    }
  }

  /** The reports strictly increase. */
  lemma ProgressIncreases(earlier: nat, later: nat, total: nat)
    requires 0 < earlier < later <= total
    ensures Progress(earlier, total) < Progress(later, total)
  {
    var e, l, t := earlier as real, later as real, total as real;
    assert e / t < l / t;
  }

  // ------------------------------------------------------------------- preview

  /** `maxDim / Math.max(width, height)` for the 3000-pixel preview. */
  function PreviewScale(width: nat, height: nat): (scale: real)
    requires LongestEdge(width, height) > 0
    ensures scale > 0.0
    ensures LongestEdge(width, height) < 3000 ==> scale > 1.0
  {
    3000.0 / LongestEdge(width, height) as real
  }

  /**
   * The canvas size `rasterizeSVG` draws on: each dimension (natural size, declared
   * size, or 1000) times the scale. The canvas's truncation to whole pixels is not modelled.
   */
  function PreviewCanvas(naturalWidth: nat, width: nat, naturalHeight: nat, height: nat): (canvas: (real, real))
  {
    var w := Dimension(naturalWidth, width, 1000);
    var h := Dimension(naturalHeight, height, 1000);
    var scale := PreviewScale(w, h);
    (Scaled(w, scale), Scaled(h, scale))
  }

  /** An edge of at most `longest` pixels, scaled so that `longest` becomes 3000. */
  lemma GrownEdge(edge: nat, longest: nat)
    requires 0 < edge <= longest
    ensures 0.0 < Scaled(edge, 3000.0 / longest as real) <= 3000.0
    ensures edge == longest ==> Scaled(edge, 3000.0 / longest as real) == 3000.0
  {
    var e, l := edge as real, longest as real;
    var scale := 3000.0 / l;
    assert l * scale == 3000.0;
    assert scale > 0.0;
    assert Scaled(edge, scale) == e * scale;
    assert e * scale > 0.0;
    assert (l - e) * scale >= 0.0;
  }

  /**
   * The preview's long edge is exactly 3000 pixels, whatever the source size (it is
   * scaled up as well as down); the other edge is at most that.
   */
  lemma PreviewLongEdge(naturalWidth: nat, width: nat, naturalHeight: nat, height: nat)
    ensures var canvas := PreviewCanvas(naturalWidth, width, naturalHeight, height);
      && 0.0 < canvas.0 <= 3000.0 && 0.0 < canvas.1 <= 3000.0
      && (canvas.0 == 3000.0 || canvas.1 == 3000.0)
  {
    var w := Dimension(naturalWidth, width, 1000);
    var h := Dimension(naturalHeight, height, 1000);
    var m := LongestEdge(w, h);
    GrownEdge(w, m);
    GrownEdge(h, m);
  }
}
