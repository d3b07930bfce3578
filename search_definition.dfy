/** The shape check a loaded search-definition module must pass before a search
    runs (`validateAndGetSearchDefinition` in src/commands/search.ts).

    The module itself comes from transpiling and `require`-ing the text in the
    active editor; here it is an input, described export by export by what
    `typeof` says about it and what calling it does. */
module SearchDefinition {
  import opened Js

  /** `fileName`/`filePath` metadata handed to the line predicate. */
  datatype LineMetadata = LineMetadata(filePath: string, fileName: string)

  /** `fileName`/`filePath`/`lines` metadata handed to the file predicate. */
  datatype FileMetadata = FileMetadata(filePath: string, fileName: string, lines: seq<string>)

  /** `doesFileMatchSearch(fileContents, metadata)`. */
  type FileMatcher = (string, FileMetadata) -> bool
  /** `doesLineMatchSearch(line, metadata)`. */
  type LineMatcher = (string, LineMetadata) -> bool

  /** The settings object `getSettings()` returns. Absent boolean flags read as
      `false`; `maxFileSizeInKB` is `None` when it is not of type number. */
  datatype Settings = Settings(
    includeFilePatterns: Option<seq<string>>,
    excludeFilePatterns: Option<seq<string>>,
    includeNodeModules: bool,
    maxFileSizeInKB: Option<int>,
    onlyTestLinesInMatchingFiles: bool)

  /** The object `searchByFile()` returns. */
  datatype FileSearchOptions = FileSearchOptions(doesFileMatchSearch: Option<FileMatcher>)
  /** The object `searchByLine()` returns. */
  datatype LineSearchOptions = LineSearchOptions(doesLineMatchSearch: Option<LineMatcher>)

  /** A validated definition: the three objects the exports returned. */
  datatype Definition = Definition(
    settings: Settings,
    searchByFile: FileSearchOptions,
    searchByLine: LineSearchOptions)

  /** What a JavaScript value returned by an export is, as far as `typeof` can tell:
      an object of the expected shape, `null` (whose `typeof` is also "object"), or
      anything else. */
  datatype JsValue<+T> = Object(obj: T) | Null | NotObject

  /** What calling an export does. */
  datatype Call<+T> = Throws | Returns(value: JsValue<T>)

  /** One export of the loaded module: missing, present but not a function, or a
      function with the given behaviour when called with no arguments. */
  datatype Export<+T> = Missing | NotFunction | Function(call: Call<T>)

  /** The loaded module, one entry per export the extension looks for. */
  datatype Module = Module(
    getSettings: Export<Settings>,
    searchByFile: Export<FileSearchOptions>,
    searchByLine: Export<LineSearchOptions>)

  datatype ExportName = GetSettings | SearchByFile | SearchByLine

  /** The order in which exports are checked and then called. */
  const Order: seq<ExportName> := [GetSettings, SearchByFile, SearchByLine]

  /** Why a module was refused; each reason has its own error message. */
  datatype LoadError =
    | NotAFunction(name: ExportName)   // "Could not find the ... function export in this file."
    | Threw(name: ExportName)          // "An error was thrown by ..."
    | NotAnObject(name: ExportName)    // "... must return an object."

  datatype Result<+T> = Ok(value: T) | Err(error: LoadError)

  /** The outcome of validation, and the exports that were called to reach it. */
  datatype Validation = Validation(result: Result<Definition>, called: seq<ExportName>)

  predicate IsFunction<T>(e: Export<T>) {
    e.Function?
  }

  /** The export was called and returned an object. */
  predicate Delivers<T>(e: Export<T>) {
    e.Function? && e.call.Returns? && e.call.value.Object?
  }

  /** The named export is a function whose call throws. */
  predicate CallThrows(m: Module, name: ExportName) {
    match name
    case GetSettings => m.getSettings.Function? && m.getSettings.call.Throws?
    case SearchByFile => m.searchByFile.Function? && m.searchByFile.call.Throws?
    case SearchByLine => m.searchByLine.Function? && m.searchByLine.call.Throws?
  }

  /** A call that throws or yields something other than an object. */
  function CallError<T>(name: ExportName, c: Call<T>): LoadError
    requires !(c.Returns? && c.value.Object?)
  {
    if c.Throws? then Threw(name) else NotAnObject(name)
  }

  /** `validateAndGetSearchDefinition`: three `typeof ... === "function"` checks,
      then three calls in the same order, stopping at the first throw or
      non-object result. */
  function Validate(m: Module): (v: Validation)
    // accepted exactly when every export is a function that returns an object
    ensures v.result.Ok? <==>
      Delivers(m.getSettings) && Delivers(m.searchByFile) && Delivers(m.searchByLine)
    ensures v.result.Ok? ==>
      v.result.value == Definition(m.getSettings.call.value.obj,
                                   m.searchByFile.call.value.obj,
                                   m.searchByLine.call.value.obj)
    // the exports called are a prefix of the fixed order, and none is called
    // unless all three are functions
    ensures |v.called| <= 3 && v.called == Order[..|v.called|]
    ensures |v.called| > 0 ==>
      IsFunction(m.getSettings) && IsFunction(m.searchByFile) && IsFunction(m.searchByLine)
    ensures v.result.Ok? ==> v.called == Order
    // a refusal names the first export that failed; later ones are never called
    ensures v.result.Err? && v.result.error.NotAFunction? ==> v.called == []
    ensures v.result.Err? && !v.result.error.NotAFunction? ==>
      |v.called| > 0 && v.result.error.name == v.called[|v.called| - 1]
    // "An error was thrown by ..." exactly when that call threw; otherwise
    // "... must return an object."
    ensures v.result.Err? && !v.result.error.NotAFunction? ==>
      (v.result.error.Threw? <==> CallThrows(m, v.result.error.name))
    ensures v.result == Err(NotAFunction(GetSettings)) <==> !IsFunction(m.getSettings)
    ensures v.result == Err(NotAFunction(SearchByFile)) <==>
      IsFunction(m.getSettings) && !IsFunction(m.searchByFile)
    ensures v.result == Err(NotAFunction(SearchByLine)) <==>
      IsFunction(m.getSettings) && IsFunction(m.searchByFile) && !IsFunction(m.searchByLine)
    ensures SearchByFile in v.called <==>
      IsFunction(m.searchByLine) && IsFunction(m.searchByFile) && Delivers(m.getSettings)
    ensures SearchByLine in v.called <==>
      IsFunction(m.searchByLine) && Delivers(m.getSettings) && Delivers(m.searchByFile)
  {
    if !m.getSettings.Function? then Validation(Err(NotAFunction(GetSettings)), [])
    else if !m.searchByFile.Function? then Validation(Err(NotAFunction(SearchByFile)), [])
    else if !m.searchByLine.Function? then Validation(Err(NotAFunction(SearchByLine)), [])
    else
      var s, f, l := m.getSettings.call, m.searchByFile.call, m.searchByLine.call;
      if !(s.Returns? && s.value.Object?) then
        Validation(Err(CallError(GetSettings, s)), [GetSettings])
      else if !(f.Returns? && f.value.Object?) then
        Validation(Err(CallError(SearchByFile, f)), [GetSettings, SearchByFile])
      else if !(l.Returns? && l.value.Object?) then
        Validation(Err(CallError(SearchByLine, l)), Order)
      else
        Validation(Ok(Definition(s.value.obj, f.value.obj, l.value.obj)), Order)
  }

  // ---------------------------------------------------------------------------
  // The check as written: `typeof x !== "object"` lets `null` through.

  /** JavaScript's `typeof v === "object"`, which holds of `null` too. */
  predicate TypeofIsObject<T>(v: JsValue<T>) {
    v.Object? || v.Null?
  }

  predicate ReturnsNull<T>(e: Export<T>) {
    e.Function? && e.call.Returns? && e.call.value.Null?
  }

  /** Which exports pass each of the source's `typeof` checks, as the source
      performs them: the verdict and the exports called. */
  function ValidateAsWritten(m: Module): (v: (bool, seq<ExportName>))
    ensures v.0 ==> v.1 == Order
  {
    if !m.getSettings.Function? || !m.searchByFile.Function? || !m.searchByLine.Function? then
      (false, [])
    else
      var s, f, l := m.getSettings.call, m.searchByFile.call, m.searchByLine.call;
      if !(s.Returns? && TypeofIsObject(s.value)) then (false, [GetSettings])
      else if !(f.Returns? && TypeofIsObject(f.value)) then (false, [GetSettings, SearchByFile])
      else if !(l.Returns? && TypeofIsObject(l.value)) then (false, Order)
      else (true, Order)
  }

  /** A module whose `getSettings` returns `null` passes the check as written,
      although the search then reads `settings.includeFilePatterns` from it;
      `Validate` refuses it with "getSettings must return an object.". */
  lemma NullSettingsAcceptedAsWritten(f: FileSearchOptions, l: LineSearchOptions)
    ensures var m := Module(Function(Returns(Null)),
                            Function(Returns(Object(f))),
                            Function(Returns(Object(l))));
            ValidateAsWritten(m).0 && Validate(m).result == Err(NotAnObject(GetSettings))
  {
  }

  /** Likewise a `searchByFile` or a `searchByLine` that returns `null` passes the
      check as written, although the search then reads `doesFileMatchSearch` or
      `doesLineMatchSearch` from it; `Validate` refuses it with "... must return an
      object.". */
  lemma NullOptionsAcceptedAsWritten(s: Settings, f: FileSearchOptions, l: LineSearchOptions)
    ensures var m := Module(Function(Returns(Object(s))),
                            Function(Returns(Null)),
                            Function(Returns(Object(l))));
            ValidateAsWritten(m).0 && Validate(m).result == Err(NotAnObject(SearchByFile))
    ensures var m := Module(Function(Returns(Object(s))),
                            Function(Returns(Object(f))),
                            Function(Returns(Null)));
            ValidateAsWritten(m).0 && Validate(m).result == Err(NotAnObject(SearchByLine))
  {
  }

  /** The two checks agree on every module none of whose exports returns `null`. */
  lemma AsWrittenAgreesWithoutNull(m: Module)
    requires !ReturnsNull(m.getSettings) && !ReturnsNull(m.searchByFile) && !ReturnsNull(m.searchByLine)
    ensures ValidateAsWritten(m).0 == Validate(m).result.Ok?
    ensures ValidateAsWritten(m).1 == Validate(m).called
  {
  }
}
