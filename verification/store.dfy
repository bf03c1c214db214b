/** `store/useJsonStore.ts`: the application state as a record, each
    action as a pure update of it, the derived selectors, and the part of
    the state that is persisted. */
module Store {
  import opened Wrappers
  import opened Chars
  import opened JsonValue
  import opened Types
  import TreeView
  import Serializer

  datatype ActiveView = InputView | OutputView | TreeTab

  datatype JsonState = JsonState(
    inputJson: string,
    outputJson: string,
    isValid: bool,
    validationErrors: seq<ValidationError>,
    formattingOptions: FormattingOptions,
    processingState: ProcessingState,
    statistics: Statistics,
    treeViewData: seq<TreeView.TreeNode>,
    activeView: ActiveView,
    showKeyboardShortcuts: bool,
    showErrorPanel: bool,
    lastFileName: string,
    originalFileSize: int)

  const InitialProcessing := ProcessingState(false, 0, "", None)

  /** The state before any action. */
  const Initial := JsonState("", "", true, [], DefaultFormattingOptions, InitialProcessing,
    DefaultStatistics, [], InputView, false, false, "", 0)

  // ---------------------------------------------------------------------
  // Partial records: a field left out keeps its value in a spread merge

  datatype FormattingPatch = FormattingPatch(
    indentSize: Option<IndentSize>,
    useTabs: Option<bool>,
    json5Mode: Option<bool>,
    lineWidth: Option<int>)

  const NoFormattingChange := FormattingPatch(None, None, None, None)

  function Pick<T>(p: Option<T>, current: T): T {
    if p.Some? then p.value else current
  }

  /** `{ ...o, ...p }`. */
  function MergeFormatting(o: FormattingOptions, p: FormattingPatch): (r: FormattingOptions)
    ensures p.indentSize.None? ==> r.indentSize == o.indentSize
    ensures p.useTabs.None? ==> r.useTabs == o.useTabs
    ensures p.json5Mode.None? ==> r.json5Mode == o.json5Mode
    ensures p.lineWidth.None? ==> r.lineWidth == o.lineWidth
    ensures p.indentSize.Some? ==> r.indentSize == p.indentSize.value
    ensures p.useTabs.Some? ==> r.useTabs == p.useTabs.value
    ensures p.json5Mode.Some? ==> r.json5Mode == p.json5Mode.value
    ensures p.lineWidth.Some? ==> r.lineWidth == p.lineWidth.value
  {
    FormattingOptions(
      Pick(p.indentSize, o.indentSize), Pick(p.useTabs, o.useTabs),
      Pick(p.json5Mode, o.json5Mode), Pick(p.lineWidth, o.lineWidth))
  }

  /** `{ ...p, ...q }`: the later patch wins field by field. */
  function CombineFormatting(p: FormattingPatch, q: FormattingPatch): FormattingPatch {
    FormattingPatch(
      if q.indentSize.Some? then q.indentSize else p.indentSize,
      if q.useTabs.Some? then q.useTabs else p.useTabs,
      if q.json5Mode.Some? then q.json5Mode else p.json5Mode,
      if q.lineWidth.Some? then q.lineWidth else p.lineWidth)
  }

  /** Two merges in a row are one merge of the combined patch, and the
      empty patch changes nothing. */
  lemma MergeFormattingCompose(o: FormattingOptions, p: FormattingPatch, q: FormattingPatch)
    ensures MergeFormatting(MergeFormatting(o, p), q) == MergeFormatting(o, CombineFormatting(p, q))
    ensures MergeFormatting(o, NoFormattingChange) == o
  {
  }

  datatype ProcessingPatch = ProcessingPatch(
    isProcessing: Option<bool>,
    progress: Option<int>,
    message: Option<string>,
    startTime: Option<Option<real>>)

  function MergeProcessing(o: ProcessingState, p: ProcessingPatch): (r: ProcessingState)
    ensures p.isProcessing.None? ==> r.isProcessing == o.isProcessing
    ensures p.progress.None? ==> r.progress == o.progress
    ensures p.message.None? ==> r.message == o.message
    ensures p.startTime.None? ==> r.startTime == o.startTime
    ensures p.isProcessing.Some? ==> r.isProcessing == p.isProcessing.value
    ensures p.progress.Some? ==> r.progress == p.progress.value
    ensures p.message.Some? ==> r.message == p.message.value
    ensures p.startTime.Some? ==> r.startTime == p.startTime.value
  {
    ProcessingState(
      Pick(p.isProcessing, o.isProcessing), Pick(p.progress, o.progress),
      Pick(p.message, o.message), Pick(p.startTime, o.startTime))
  }

  datatype StatisticsPatch = StatisticsPatch(
    inputSize: Option<int>,
    outputSize: Option<int>,
    lineCount: Option<int>,
    keyCount: Option<int>,
    depthLevel: Option<int>,
    processingTime: Option<real>,
    compressionRatio: Option<real>)

  function MergeStatistics(o: Statistics, p: StatisticsPatch): (r: Statistics)
    ensures p.inputSize.None? ==> r.inputSize == o.inputSize
    ensures p.outputSize.None? ==> r.outputSize == o.outputSize
    ensures p.lineCount.None? ==> r.lineCount == o.lineCount
    ensures p.keyCount.None? ==> r.keyCount == o.keyCount
    ensures p.depthLevel.None? ==> r.depthLevel == o.depthLevel
    ensures p.processingTime.None? ==> r.processingTime == o.processingTime
    ensures p.compressionRatio.None? ==> r.compressionRatio == o.compressionRatio
    ensures p.inputSize.Some? ==> r.inputSize == p.inputSize.value
    ensures p.outputSize.Some? ==> r.outputSize == p.outputSize.value
    ensures p.lineCount.Some? ==> r.lineCount == p.lineCount.value
    ensures p.keyCount.Some? ==> r.keyCount == p.keyCount.value
    ensures p.depthLevel.Some? ==> r.depthLevel == p.depthLevel.value
    ensures p.processingTime.Some? ==> r.processingTime == p.processingTime.value
    ensures p.compressionRatio.Some? ==> r.compressionRatio == p.compressionRatio.value
  {
    Statistics(
      Pick(p.inputSize, o.inputSize), Pick(p.outputSize, o.outputSize),
      Pick(p.lineCount, o.lineCount), Pick(p.keyCount, o.keyCount),
      Pick(p.depthLevel, o.depthLevel), Pick(p.processingTime, o.processingTime),
      Pick(p.compressionRatio, o.compressionRatio))
  }

  // ---------------------------------------------------------------------
  // Actions

  /** `setInputJson`: the text is stored and taken as valid until checked;
      processing stops, its other fields stay. */
  function SetInputJson(s: JsonState, json: string): (r: JsonState)
    ensures r.inputJson == json && r.isValid && r.validationErrors == []
    ensures !r.processingState.isProcessing
    ensures r.processingState.(isProcessing := s.processingState.isProcessing) == s.processingState
    ensures r.(inputJson := s.inputJson, isValid := s.isValid, validationErrors := s.validationErrors,
               processingState := s.processingState) == s
  {
    s.(inputJson := json, isValid := true, validationErrors := [],
       processingState := s.processingState.(isProcessing := false))
  }

  function SetOutputJson(s: JsonState, json: string): (r: JsonState)
    ensures r.outputJson == json && r.(outputJson := s.outputJson) == s
  {
    s.(outputJson := json)
  }

  /** `setValidationResult`: validity and errors are copied; the output
      is the parsed value written with the current indent, or empty when
      there is no value or it is falsy; the error panel opens exactly for
      an invalid result that has errors. */
  function SetValidationResult(s: JsonState, result: ValidationResult): (r: JsonState)
    ensures r.isValid == result.isValid && r.validationErrors == result.errors
    ensures r.showErrorPanel <==> !result.isValid && |result.errors| > 0
    ensures r.outputJson == "" <==> !(result.data.Some? && Truthy(result.data.value))
    ensures result.data.Some? && Truthy(result.data.value) ==>
      r.outputJson == Serializer.Stringify(result.data.value, Serializer.SpaceCount(s.formattingOptions.indentSize))
    ensures r.(isValid := s.isValid, validationErrors := s.validationErrors,
               outputJson := s.outputJson, showErrorPanel := s.showErrorPanel) == s
  {
    var output :=
      if result.data.Some? && Truthy(result.data.value)
      then Serializer.Stringify(result.data.value, Serializer.SpaceCount(s.formattingOptions.indentSize))
      else "";
    s.(isValid := result.isValid, validationErrors := result.errors, outputJson := output,
       showErrorPanel := !result.isValid && |result.errors| > 0)
  }

  function SetFormattingOptions(s: JsonState, p: FormattingPatch): (r: JsonState)
    ensures r.formattingOptions == MergeFormatting(s.formattingOptions, p)
    ensures r.(formattingOptions := s.formattingOptions) == s
  {
    s.(formattingOptions := MergeFormatting(s.formattingOptions, p))
  }

  function SetProcessingState(s: JsonState, p: ProcessingPatch): (r: JsonState)
    ensures r.processingState == MergeProcessing(s.processingState, p)
    ensures r.(processingState := s.processingState) == s
  {
    s.(processingState := MergeProcessing(s.processingState, p))
  }

  function SetStatistics(s: JsonState, p: StatisticsPatch): (r: JsonState)
    ensures r.statistics == MergeStatistics(s.statistics, p)
    ensures r.(statistics := s.statistics) == s
  {
    s.(statistics := MergeStatistics(s.statistics, p))
  }

  function ToggleKeyboardShortcuts(s: JsonState): (r: JsonState)
    ensures r.showKeyboardShortcuts != s.showKeyboardShortcuts
    ensures r.(showKeyboardShortcuts := s.showKeyboardShortcuts) == s
  {
    s.(showKeyboardShortcuts := !s.showKeyboardShortcuts)
  }

  function ToggleErrorPanel(s: JsonState): (r: JsonState)
    ensures r.showErrorPanel != s.showErrorPanel
    ensures r.(showErrorPanel := s.showErrorPanel) == s
  {
    s.(showErrorPanel := !s.showErrorPanel)
  }

  /** Both toggles are involutions. */
  lemma TogglesInvolutive(s: JsonState)
    ensures ToggleKeyboardShortcuts(ToggleKeyboardShortcuts(s)) == s
    ensures ToggleErrorPanel(ToggleErrorPanel(s)) == s
  {
  }

  /** `clearAll`: the document, its results, the file info and the error
      panel go back to their initial values; the options, the view, the
      shortcuts panel and the processing state stay. */
  function ClearAll(s: JsonState): (r: JsonState)
    ensures r.formattingOptions == s.formattingOptions && r.activeView == s.activeView
    ensures r.showKeyboardShortcuts == s.showKeyboardShortcuts && r.processingState == s.processingState
    ensures r.(formattingOptions := Initial.formattingOptions, activeView := Initial.activeView,
               showKeyboardShortcuts := Initial.showKeyboardShortcuts,
               processingState := Initial.processingState) == Initial
  {
    s.(inputJson := "", outputJson := "", isValid := true, validationErrors := [],
       treeViewData := [], statistics := DefaultStatistics, lastFileName := "",
       originalFileSize := 0, showErrorPanel := false)
  }

  /** Whatever the state, clearing gives the initial state except for the
      four fields `clearAll` keeps; clearing twice is clearing once. */
  lemma ClearAllIsInitial(s: JsonState)
    ensures ClearAll(s) == Initial.(formattingOptions := s.formattingOptions, activeView := s.activeView,
      showKeyboardShortcuts := s.showKeyboardShortcuts, processingState := s.processingState)
    ensures ClearAll(ClearAll(s)) == ClearAll(s)
  {
  }

  /** `loadFile`: the content becomes the input, taken as valid; the name
      and size are remembered; the output is left as it was. */
  function LoadFile(s: JsonState, fileName: string, content: string, size: int): (r: JsonState)
    ensures r.inputJson == content && r.lastFileName == fileName && r.originalFileSize == size
    ensures r.isValid && r.validationErrors == []
    ensures r.outputJson == s.outputJson
    ensures r.(inputJson := s.inputJson, lastFileName := s.lastFileName, originalFileSize := s.originalFileSize,
               isValid := s.isValid, validationErrors := s.validationErrors) == s
  {
    s.(inputJson := content, lastFileName := fileName, originalFileSize := size,
       isValid := true, validationErrors := [])
  }

  function ResetFormattingOptions(s: JsonState): (r: JsonState)
    ensures r.formattingOptions == DefaultFormattingOptions
    ensures r.(formattingOptions := s.formattingOptions) == s
  {
    s.(formattingOptions := DefaultFormattingOptions)
  }

  datatype Action =
    | SetInput(json: string)
    | SetOutput(json: string)
    | SetValidation(result: ValidationResult)
    | SetFormatting(formatting: FormattingPatch)
    | SetProcessing(processing: ProcessingPatch)
    | SetStats(stats: StatisticsPatch)
    | SetTree(nodes: seq<TreeView.TreeNode>)
    | SetView(view: ActiveView)
    | ToggleShortcuts
    | ToggleErrors
    | Clear
    | Load(fileName: string, content: string, size: int)
    | ResetFormatting

  /** One action applied to the state. The saved part changes only
      through the formatting actions, `clearAll` and `loadFile`; only
      `setInputJson`, `clearAll` and `loadFile` touch the input. */
  function Dispatch(s: JsonState, a: Action): (r: JsonState)
    ensures !a.SetFormatting? && !a.ResetFormatting? && !a.Clear? && !a.Load? ==> Partialize(r) == Partialize(s)
    ensures !a.SetInput? && !a.Clear? && !a.Load? ==> r.inputJson == s.inputJson
    ensures a.SetInput? || a.Clear? || a.Load? ==> r.isValid && r.validationErrors == []
  {
    match a
    case SetInput(json) => SetInputJson(s, json)
    case SetOutput(json) => SetOutputJson(s, json)
    case SetValidation(result) => SetValidationResult(s, result)
    case SetFormatting(p) => SetFormattingOptions(s, p)
    case SetProcessing(p) => SetProcessingState(s, p)
    case SetStats(p) => SetStatistics(s, p)
    case SetTree(nodes) => s.(treeViewData := nodes)
    case SetView(view) => s.(activeView := view)
    case ToggleShortcuts => ToggleKeyboardShortcuts(s)
    case ToggleErrors => ToggleErrorPanel(s)
    case Clear => ClearAll(s)
    case Load(name, content, size) => LoadFile(s, name, content, size)
    case ResetFormatting => ResetFormattingOptions(s)
  }

  // ---------------------------------------------------------------------
  // partialize

  datatype Persisted = Persisted(formattingOptions: FormattingOptions, lastFileName: string)

  /** `partialize`: only the options and the last file name are saved. */
  function Partialize(s: JsonState): Persisted {
    Persisted(s.formattingOptions, s.lastFileName)
  }

  /** Restoring saved fields over a state. */
  function Rehydrate(s: JsonState, p: Persisted): (r: JsonState)
    ensures Partialize(r) == p
  {
    s.(formattingOptions := p.formattingOptions, lastFileName := p.lastFileName)
  }

  /** Saving then restoring over the same state gives that state back. */
  lemma RehydrateSaved(s: JsonState)
    ensures Rehydrate(s, Partialize(s)) == s
  {
  }

  // ---------------------------------------------------------------------
  // useJsonStoreSelectors

  datatype Selection = Selection(
    isEmpty: bool,
    hasErrors: bool,
    errorCount: nat,
    formattedSize: nat,
    compressionRatio: real,
    canFormat: bool,
    canMinify: bool,
    canCopy: bool)

  /** The derived values; sizes are UTF-8 byte lengths. */
  function Select(s: JsonState): (r: Selection)
    ensures r.canMinify ==> r.canFormat
    ensures r.isEmpty <==> s.inputJson == ""
    ensures r.hasErrors <==> r.errorCount > 0
    ensures r.canCopy <==> s.outputJson != ""
    ensures r.canFormat <==> s.inputJson != "" && !s.processingState.isProcessing
    ensures r.canMinify <==> r.canFormat && s.isValid
    ensures s.originalFileSize <= 0 ==> r.compressionRatio == 0.0
  {
    var size := Utf8Length(s.outputJson);
    Selection(
      |s.inputJson| == 0,
      |s.validationErrors| > 0,
      |s.validationErrors|,
      size,
      if s.originalFileSize > 0 then (s.originalFileSize - size) as real / s.originalFileSize as real * 100.0 else 0.0,
      |s.inputJson| > 0 && !s.processingState.isProcessing,
      |s.inputJson| > 0 && s.isValid && !s.processingState.isProcessing,
      |s.outputJson| > 0)
  }

  /** After `clearAll` there is nothing to format, copy or report. */
  lemma ClearedSelection(s: JsonState)
    ensures var r := Select(ClearAll(s));
      r.isEmpty && !r.hasErrors && !r.canFormat && !r.canMinify && !r.canCopy && r.compressionRatio == 0.0
  {
  }

  /** An invalid result with errors opens the error panel and is reported
      by the selectors; a valid one with a truthy value can be copied. */
  lemma ValidationSelection(s: JsonState, result: ValidationResult)
    ensures var t := SetValidationResult(s, result);
      (!result.isValid && |result.errors| > 0 ==> t.showErrorPanel && Select(t).hasErrors)
      && (result.data.Some? && Truthy(result.data.value) ==> Select(t).canCopy)
  {
  }
}
