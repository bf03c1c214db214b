/** `utils/fileHandler.ts`: which files are accepted for reading, by the
    plain reader and by the drop handler, the download name, and the two
    quick estimates of a document's size. The browser's reading of the
    file is a parameter: its text, or the reason it failed. */
module Files {
  import opened Wrappers
  import opened Chars
  import opened JsonValue
  import Metrics

  /** 10 MiB. */
  const MaxFileSize: int := 10 * 1024 * 1024

  const AllowedTypes: seq<string> := ["application/json", "text/plain"]
  const AllowedExtensions: seq<string> := [".json", ".txt"]

  /** The parts of a `File` the checks look at. */
  datatype File = File(name: string, size: int, mimeType: string)

  /** Why a file was refused. `TooLarge` carries the limit the message
      reports. */
  datatype FileError =
    | TooLarge(limit: int)
    | InvalidType
    | ReadFailed(reason: string)

  /** A MIME type of the list or a name with one of the extensions. */
  predicate AcceptedType(f: File) {
    f.mimeType in AllowedTypes || exists e :: e in AllowedExtensions && EndsWith(f.name, e)
  }

  /** `readFile`: the size check first, then the type check, then the
      outcome of reading. */
  function ReadFile(f: File, read: Result<string, string>): (r: Result<string, FileError>)
    ensures f.size > MaxFileSize ==> r == Err(TooLarge(MaxFileSize))
    ensures f.size <= MaxFileSize && !AcceptedType(f) ==> r == Err(InvalidType)
    ensures f.size <= MaxFileSize && AcceptedType(f) ==>
      (read.Ok? ==> r == Ok(read.value)) && (read.Err? ==> r == Err(ReadFailed(read.error)))
  {
    if f.size > MaxFileSize then Err(TooLarge(MaxFileSize))
    else if !AcceptedType(f) then Err(InvalidType)
    else match read
      case Ok(text) => Ok(text)
      case Err(reason) => Err(ReadFailed(reason))
  }

  /** Rejected for type exactly when neither the MIME type nor the name
      qualifies; 10 MiB itself is still accepted, one byte more is not,
      and a file both too large and of the wrong type is reported as too
      large. */
  lemma ReadFileBoundaries(name: string, mimeType: string, read: Result<string, string>)
    ensures var f := File(name, MaxFileSize, mimeType);
      ReadFile(f, read) == Err(InvalidType) <==>
        (mimeType != "application/json" && mimeType != "text/plain"
         && !EndsWith(name, ".json") && !EndsWith(name, ".txt"))
    ensures ReadFile(File(name, MaxFileSize + 1, mimeType), read) == Err(TooLarge(MaxFileSize))
    ensures ReadFile(File("data.json", MaxFileSize, ""), Ok("{}")) == Ok("{}")
  {
    var f := File(name, MaxFileSize, mimeType);
    if EndsWith(name, ".json") {
      assert AllowedExtensions[0] == ".json";
    } else if EndsWith(name, ".txt") {
      assert AllowedExtensions[1] == ".txt";
    }
    assert EndsWith("data.json", AllowedExtensions[0]);
  }

  // ---------------------------------------------------------------------
  // downloadJSON

  /** The name the download gets: ".json" is added unless already there. */
  function DownloadName(filename: string): (r: string)
    ensures EndsWith(r, ".json")
    ensures EndsWith(filename, ".json") ==> r == filename
    ensures !EndsWith(filename, ".json") ==> r == filename + ".json"
  {
    if EndsWith(filename, ".json") then filename
    else
      assert (filename + ".json")[|filename|..] == ".json";
      filename + ".json"
  }

  /** A name with ".json" keeps it: "formatted.json" stays. */
  lemma DownloadNameKeeps(base: string)
    ensures DownloadName(base + ".json") == base + ".json"
  {
    assert (base + ".json")[|base|..] == ".json";
  }

  /** A name with another extension gets ".json" after it: "data.txt"
      becomes "data.txt.json". */
  lemma DownloadNameAppends(base: string)
    ensures DownloadName(base + ".txt") == base + ".txt" + ".json"
  {
    var n := base + ".txt";
    assert n[|n| - 1] == 't';
    assert |n| >= 5 ==> n[|n| - 5..][4] == 't';
  }

  // ---------------------------------------------------------------------
  // createFileDropHandler

  /** The optional settings; `None` is an absent option. */
  datatype DropOptions = DropOptions(maxSize: Option<int>, allowedTypes: Option<seq<string>>)

  datatype DropOutcome =
    | NoFile
    | Loaded(file: File, content: string)
    | Failed(error: FileError)

  /** A limit is applied only when it is given and not zero. */
  predicate LimitApplies(opts: DropOptions) {
    opts.maxSize.Some? && opts.maxSize.value != 0
  }

  /** `handleDrop`: the first dropped file, checked against the options
      (the MIME type only), then read as `readFile` reads. It accepts no
      file `readFile` refuses, and with neither option (a zero limit
      counting as none) it accepts exactly what `readFile` accepts. An
      array of allowed types counts as given even when it is empty, and
      then refuses every file. */
  function HandleDrop(files: seq<File>, opts: DropOptions, read: Result<string, string>): (r: DropOutcome)
    ensures |files| == 0 <==> r == NoFile
    ensures |files| > 0 && LimitApplies(opts) && files[0].size > opts.maxSize.value ==> r == Failed(TooLarge(opts.maxSize.value))
    ensures |files| > 0 && r.Loaded? ==> r.file == files[0] && ReadFile(files[0], read) == Ok(r.content)
    ensures |files| > 0 && r.Loaded? && opts.allowedTypes.Some? ==> files[0].mimeType in opts.allowedTypes.value
    ensures |files| > 0 && ReadFile(files[0], read).Err? ==> r.Failed?
    ensures |files| > 0 && !LimitApplies(opts) && opts.allowedTypes.None? ==> (r.Loaded? <==> ReadFile(files[0], read).Ok?)
    ensures opts.allowedTypes == Some([]) ==> !r.Loaded?
  {
    if |files| == 0 then NoFile
    else
      var f := files[0];
      if LimitApplies(opts) && f.size > opts.maxSize.value then Failed(TooLarge(opts.maxSize.value))
      else if opts.allowedTypes.Some? && f.mimeType !in opts.allowedTypes.value then Failed(InvalidType)
      else match ReadFile(f, read)
        case Ok(text) => Loaded(f, text)
        case Err(e) => Failed(e)
  }

  /** The allowed types have no name fallback: a ".json" file with no
      MIME type is read by `readFile` but refused by a drop handler that
      allows only JSON. */
  lemma DropIgnoresExtension()
    ensures ReadFile(File("a.json", 2, ""), Ok("{}")).Ok?
    ensures HandleDrop([File("a.json", 2, "")], DropOptions(None, Some(["application/json"])), Ok("{}")) == Failed(InvalidType)
  {
    assert EndsWith("a.json", AllowedExtensions[0]);
  }

  // ---------------------------------------------------------------------
  // formatFileSize, estimateJSONLineCount, estimateJSONKeyCount

  /** `formatFileSize`: zero is "0 Bytes"; other sizes go through floating
      point logarithms, given here as `scaled`. */
  function FormatFileSize(bytes: int, scaled: int -> string): (r: string)
    ensures bytes == 0 ==> r == "0 Bytes"
    ensures bytes != 0 ==> r == scaled(bytes)
  {
    if bytes == 0 then "0 Bytes" else scaled(bytes)
  }

  /** `split('\n').length`. */
  function EstimateLineCount(text: string): (r: nat)
    ensures r >= 1
    ensures r == Count(text, '\n') + 1
  {
    SplitPieces(text, '\n');
    |Split(text, '\n')|
  }

  /** The number of `"…"\s*:` matches. */
  function EstimateKeyCount(text: string): nat {
    Metrics.KeyPatternCount(text, 0)
  }

  /** Both estimates are what the statistics report for text that does
      not parse: the same line count, and the same key count. Text
      without a double quote has no keys, and each member written out
      adds one. */
  lemma EstimatesAgree(input: string, output: string, time: real, parse: NativeParse,
                       name: string, gap: string, rest: string)
    ensures EstimateLineCount(output) == Metrics.CalculateStatistics(input, output, time, parse).lineCount
    ensures parse(output).Err? ==> EstimateKeyCount(output) == Metrics.CalculateStatistics(input, output, time, parse).keyCount
    ensures '"' !in output ==> EstimateKeyCount(output) == 0
    ensures '"' !in name && AllSpace(gap) ==>
      EstimateKeyCount(['"'] + name + ['"'] + gap + [':'] + rest) == 1 + EstimateKeyCount(rest)
  {
    if '"' !in output {
      Metrics.KeyPatternNone(output, 0);
    }
    if '"' !in name && AllSpace(gap) {
      Metrics.KeyPatternMember(name, gap, rest);
    }
  }

  // ---------------------------------------------------------------------
  // The dragging flag

  datatype DragEvent = DragOver | DragLeave | Drop

  /** What one handler does to the local `isDragging` flag: a drag-over
      sets it, a drag-leave and a drop clear it. */
  function DragStep(flag: bool, e: DragEvent): bool {
    match e
    case DragOver => true
    case DragLeave => false
    case Drop => false
  }

  /** The local flag after the handlers ran on `events` in order, starting
      from `flag`. */
  function DragRun(flag: bool, events: seq<DragEvent>): bool
    decreases |events|
  {
    if |events| == 0 then flag else DragRun(DragStep(flag, events[0]), events[1..])
  }

  /** Each handler overwrites the flag, so after any event the flag depends
      on the latest event alone. */
  lemma {:induction false} DragRunIsLast(flag: bool, events: seq<DragEvent>)
    ensures DragRun(flag, events) == if |events| == 0 then flag else events[|events| - 1] == DragOver
    decreases |events|
  {
    if |events| > 0 {
      DragRunIsLast(DragStep(flag, events[0]), events[1..]);
    }
  }

  /** The handler's local flag after a run of events, from its initial
      `false`. */
  function Dragging(events: seq<DragEvent>): bool {
    DragRun(false, events)
  }

  /** As written: the returned record copies the flag when the handler
      is created, before any event, so it reads `false` whatever events
      follow. */
  function ExposedDragging(events: seq<DragEvent>): bool {
    Dragging([])
  }

  lemma ExposedDraggingStale()
    ensures Dragging([DragOver]) && !ExposedDragging([DragOver])
  {
  }

  /** As intended: the record shows the current flag, so it reads `true`
      exactly while a drag-over is the latest event. */
  function ExposedDraggingFixed(events: seq<DragEvent>): (r: bool)
    ensures r <==> |events| > 0 && events[|events| - 1] == DragOver
  {
    DragRunIsLast(false, events);
    Dragging(events)
  }
}
