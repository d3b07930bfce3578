/** The search run of src/commands/search.ts (`executeSearch`): glob assembly,
    the size and cancellation gate, the whole-file end-of-line policy, the
    per-file file and line matching, the shared progress counter and the
    final filter.

    The editor, the file system and the user are inputs: the loaded module,
    the number of open workspace folders, a `findFiles` function from glob
    arguments to candidate files (each with its size and decoded content),
    the answer to the confirmation prompt, and whether cancellation has been
    requested when each file reaches the gate. Files are processed one after
    another in the order `findFiles` returns them. */
module Search {
  import opened Js
  import opened SearchDefinition

  // ---------------------------------------------------------------------------
  // Glob assembly

  /** Searched when no include pattern is given. */
  const DefaultInclude: string := "**/*"
  /** Excluded unless `includeNodeModules` is set. */
  const NodeModulesExclude: string := "**/node_modules/**"

  /** The include patterns handed to `findFiles`. */
  function IncludeGlobs(s: Settings): (globs: seq<string>)
    ensures |globs| >= 1
    ensures s.includeFilePatterns.None? || s.includeFilePatterns.value == [] ==> globs == [DefaultInclude]
    ensures s.includeFilePatterns.Some? && s.includeFilePatterns.value != [] ==>
      globs == s.includeFilePatterns.value
  {
    var given := if s.includeFilePatterns.Some? then s.includeFilePatterns.value else [];
    if given == [] then [DefaultInclude] else given
  }

  /** The exclude patterns handed to `findFiles`: the given ones, then the
      node_modules exclusion unless `includeNodeModules` is set. */
  function ExcludeGlobs(s: Settings): (globs: seq<string>)
    ensures var given := if s.excludeFilePatterns.Some? then s.excludeFilePatterns.value else [];
      && |globs| == |given| + (if s.includeNodeModules then 0 else 1)
      && globs[..|given|] == given
      && (!s.includeNodeModules ==> globs[|given|] == NodeModulesExclude)
  {
    var given := if s.excludeFilePatterns.Some? then s.excludeFilePatterns.value else [];
    if s.includeNodeModules then given else given + [NodeModulesExclude]
  }

  /** `` `{${globs.join(",")}}` ``: one brace glob standing for all the patterns. */
  function BraceGlob(globs: seq<string>): string {
    "{" + Join(globs, ",") + "}"
  }

  /** The exclude argument of `findFiles`: `null` when there is nothing to exclude. */
  function ExcludeArgument(globs: seq<string>): (arg: Option<string>)
    ensures arg.None? <==> |globs| == 0
    ensures arg.Some? ==> arg.value == BraceGlob(globs)
  {
    if |globs| > 0 then Some(BraceGlob(globs)) else None
  }

  /** The candidate files: `findFiles` applied to the assembled glob arguments. */
  function Candidates(s: Settings, findFiles: (string, Option<string>) -> seq<WorkspaceFile>): seq<WorkspaceFile> {
    findFiles(BraceGlob(IncludeGlobs(s)), ExcludeArgument(ExcludeGlobs(s)))
  }

  /** The brace glob lists exactly the patterns it was built from, when none of
      them holds a comma. */
  lemma {:induction false} BraceGlobLists(globs: seq<string>)
    requires |globs| >= 1
    requires forall k :: 0 <= k < |globs| ==> ',' !in globs[k]
    ensures var g := BraceGlob(globs);
      |g| >= 2 && g[0] == '{' && g[|g| - 1] == '}' && Split(g[1..|g| - 1], ",") == globs
  {
    var g := BraceGlob(globs);
    assert g[1..|g| - 1] == Join(globs, ",");
    SplitJoin(globs, ",");
  }

  /** The exclude argument is `null` exactly when node_modules are searched and
      no exclude pattern is given. */
  lemma ExcludeArgumentNull(s: Settings)
    ensures ExcludeArgument(ExcludeGlobs(s)).None? <==>
      s.includeNodeModules && (s.excludeFilePatterns.None? || s.excludeFilePatterns.value == [])
  {
  }

  // ---------------------------------------------------------------------------
  // Files and the size gate

  /** A candidate file: its path, its size in bytes and its content decoded as UTF-8. */
  datatype WorkspaceFile = WorkspaceFile(path: string, size: nat, content: string)

  /** The cap used when `maxFileSizeInKB` is not a number. */
  const DefaultMaxFileSizeInKB: int := 1000

  /** The constants the run reads from the definition once, before the first file. */
  datatype RunConfig = RunConfig(
    maxFileSizeInKB: int,
    fileMatcher: Option<FileMatcher>,
    lineMatcher: Option<LineMatcher>,
    onlyTestLinesInMatchingFiles: bool)

  function ConfigOf(d: Definition): (c: RunConfig)
    ensures d.settings.maxFileSizeInKB.None? ==> c.maxFileSizeInKB == DefaultMaxFileSizeInKB
    ensures d.settings.maxFileSizeInKB.Some? ==> c.maxFileSizeInKB == d.settings.maxFileSizeInKB.value
  {
    RunConfig(
      if d.settings.maxFileSizeInKB.Some? then d.settings.maxFileSizeInKB.value else DefaultMaxFileSizeInKB,
      d.searchByFile.doesFileMatchSearch,
      d.searchByLine.doesLineMatchSearch,
      d.settings.onlyTestLinesInMatchingFiles)
  }

  /** `maxFileSizeInKB && stat.size / 1000 > maxFileSizeInKB`, stated without
      division, which is exact: a cap of 0 disables the test. */
  predicate ExceedsMaxSize(size: nat, maxFileSizeInKB: int)
    ensures ExceedsMaxSize(size, maxFileSizeInKB) <==>
      maxFileSizeInKB != 0 && (size as real) / 1000.0 > maxFileSizeInKB as real
  {
    maxFileSizeInKB != 0 && size > maxFileSizeInKB * 1000
  }

  /** The gate: a file is skipped, unread, when cancellation was requested or it is too big. */
  predicate Skipped(f: WorkspaceFile, c: RunConfig, cancelled: bool)
    // cancellation skips every file; without it, only files over a non-zero cap
    ensures cancelled ==> Skipped(f, c, cancelled)
    ensures c.maxFileSizeInKB == 0 ==> (Skipped(f, c, cancelled) <==> cancelled)
    ensures f.size <= c.maxFileSizeInKB * 1000 ==> (Skipped(f, c, cancelled) <==> cancelled)
    ensures 0 < c.maxFileSizeInKB * 1000 < f.size ==> Skipped(f, c, cancelled)
  {
    cancelled || ExceedsMaxSize(f.size, c.maxFileSizeInKB)
  }

  // ---------------------------------------------------------------------------
  // Line splitting

  const CRLF: string := "\r\n"
  const LF: string := "\n"

  /** The whole-file end-of-line policy: CRLF if the content holds one anywhere, else LF. */
  function LineDelimiter(content: string): (d: string)
    ensures d == CRLF || d == LF
    ensures d == CRLF <==> Includes(content, CRLF)
  {
    if Includes(content, CRLF) then CRLF else LF
  }

  /** The lines of a file. */
  function SplitByLine(content: string): (lines: seq<string>)
    ensures |lines| >= 1
  {
    Split(content, LineDelimiter(content))
  }

  /** The lines join back into the content, no line holds the delimiter, and the
      delimiter is CRLF exactly when the content holds a CRLF. */
  lemma SplitByLineRoundTrip(content: string)
    ensures LineDelimiter(content) == CRLF <==> Includes(content, CRLF)
    ensures Join(SplitByLine(content), LineDelimiter(content)) == content
    ensures forall k :: 0 <= k < |SplitByLine(content)| ==>
      !Includes(SplitByLine(content)[k], LineDelimiter(content))
  {
    JoinSplit(content, LineDelimiter(content));
    SplitPiecesFree(content, LineDelimiter(content));
  }

  /** The lines expected by the test suite for both of its sample files. */
  const SampleLines: seq<string> :=
    ["bob", "bob", "\\n", "\\\\n", "\\\\\\n", "\\r\\n", "\\\\r\\\\n", "bob", "alice", "", "bob"]

  lemma SampleLinesHaveNoBreaks()
    ensures forall k :: 0 <= k < |SampleLines| ==> '\r' !in SampleLines[k] && '\n' !in SampleLines[k]
  {
  }

  /** The test suite's two sample files are these lines joined by CRLF and by LF;
      both split back into the same lines, each under its own delimiter. */
  lemma SplitByLineSamples()
    ensures LineDelimiter(Join(SampleLines, CRLF)) == CRLF
    ensures LineDelimiter(Join(SampleLines, LF)) == LF
    ensures SplitByLine(Join(SampleLines, CRLF)) == SampleLines
    ensures SplitByLine(Join(SampleLines, LF)) == SampleLines
  {
    SampleLinesHaveNoBreaks();
    var crlf := Join(SampleLines, CRLF);
    IndexOfAfterPiece(SampleLines[0], CRLF, Join(SampleLines[1..], CRLF));
    assert IndexOf(crlf, CRLF) >= 0;
    SplitJoin(SampleLines, CRLF);
    JoinFree(SampleLines, LF, '\r');
    NoOccurrenceWithoutFirstChar(Join(SampleLines, LF), CRLF);
    SplitJoin(SampleLines, LF);
  }

  // ---------------------------------------------------------------------------
  // Matching

  /** The indices `i < n` with `p(xs[i])`, in increasing order. */
  function MatchingIndices<T>(xs: seq<T>, p: T -> bool, n: nat): seq<nat>
    requires n <= |xs|
  {
    if n == 0 then []
    else MatchingIndices(xs, p, n - 1) + (if p(xs[n - 1]) then [n - 1] else [])
  }

  predicate StrictlyAscending(s: seq<nat>) {
    forall i, j :: 0 <= i < j < |s| ==> s[i] < s[j]
  }

  /** `MatchingIndices` holds exactly the indices below `n` whose element satisfies
      `p`, strictly ascending. */
  lemma {:induction false} MatchingIndicesSpec<T>(xs: seq<T>, p: T -> bool, n: nat)
    requires n <= |xs|
    ensures StrictlyAscending(MatchingIndices(xs, p, n))
    ensures forall i :: i in MatchingIndices(xs, p, n) <==> 0 <= i < n && p(xs[i])
  {
    if n > 0 {
      var prev := MatchingIndices(xs, p, n - 1);
      MatchingIndicesSpec(xs, p, n - 1);
      assert forall k :: 0 <= k < |prev| ==> prev[k] in prev;
    }
  }

  /** The line predicate with the file's metadata bound. */
  function LinePredicate(lineMatcher: LineMatcher, meta: LineMetadata): string -> bool {
    line => lineMatcher(line, meta)
  }

  /** The indices of the lines the line predicate accepts, in increasing order. */
  function LineMatches(lines: seq<string>, lineMatcher: LineMatcher, meta: LineMetadata): (m: seq<nat>)
    ensures StrictlyAscending(m)
    ensures forall i :: i in m ==> i < |lines| && lineMatcher(lines[i], meta)
    ensures forall i :: 0 <= i < |lines| && lineMatcher(lines[i], meta) ==> i in m
  {
    MatchingIndicesSpec(lines, LinePredicate(lineMatcher, meta), |lines|);
    MatchingIndices(lines, LinePredicate(lineMatcher, meta), |lines|)
  }

  /** The line loop: every line is tested in order and the index of each match is pushed. */
  method CollectLineMatches(lines: seq<string>, lineMatcher: LineMatcher, meta: LineMetadata)
    returns (matches: seq<nat>)
    ensures matches == LineMatches(lines, lineMatcher, meta)
    ensures StrictlyAscending(matches)
    ensures forall i :: i in matches ==> i < |lines| && lineMatcher(lines[i], meta)
    ensures forall i :: 0 <= i < |lines| && lineMatcher(lines[i], meta) ==> i in matches
  {
    matches := [];
    for lineIx := 0 to |lines|
      invariant matches == MatchingIndices(lines, LinePredicate(lineMatcher, meta), lineIx)
    {
      if lineMatcher(lines[lineIx], meta) {
        matches := matches + [lineIx];
      }
    }
  }

  /** What the run records for one file; `matchesByLine` is `None` for `undefined`. */
  datatype FileResult = FileResult(file: string, matchesByFile: bool, matchesByLine: Option<seq<nat>>)

  function LineMetadataOf(path: string): LineMetadata {
    LineMetadata(path, Basename(path))
  }

  /** The file predicate's verdict on an admitted file: false without a predicate. */
  predicate FileMatches(f: WorkspaceFile, c: RunConfig) {
    c.fileMatcher.Some? &&
    c.fileMatcher.value(f.content, FileMetadata(f.path, Basename(f.path), SplitByLine(f.content)))
  }

  /** The result one file yields. */
  function FileOutcome(f: WorkspaceFile, c: RunConfig, cancelled: bool): (r: FileResult)
    ensures r.file == f.path
    // the gate: a skipped file matches nothing, whatever its content
    ensures Skipped(f, c, cancelled) ==> !r.matchesByFile && r.matchesByLine.None?
    // the file predicate sees the whole content and its lines
    ensures !Skipped(f, c, cancelled) ==>
      r.matchesByFile == (c.fileMatcher.Some? &&
        c.fileMatcher.value(f.content, FileMetadata(f.path, Basename(f.path), SplitByLine(f.content))))
    // lines are tested only with a line predicate, and, if so configured, only in matching files
    ensures r.matchesByLine.Some? <==>
      !Skipped(f, c, cancelled) && c.lineMatcher.Some? &&
      (!c.onlyTestLinesInMatchingFiles || r.matchesByFile)
    // the matching lines, in increasing order
    ensures r.matchesByLine.Some? ==>
      r.matchesByLine.value == LineMatches(SplitByLine(f.content), c.lineMatcher.value, LineMetadataOf(f.path))
  {
    if Skipped(f, c, cancelled) then FileResult(f.path, false, None)
    else
      var byFile := FileMatches(f, c);
      var byLine := if c.lineMatcher.Some? && (!c.onlyTestLinesInMatchingFiles || byFile)
        then Some(LineMatches(SplitByLine(f.content), c.lineMatcher.value, LineMetadataOf(f.path)))
        else None;
      FileResult(f.path, byFile, byLine)
  }

  /** A skipped file's content is never looked at. */
  lemma SkippedIgnoresContent(f: WorkspaceFile, content: string, c: RunConfig, cancelled: bool)
    requires Skipped(f, c, cancelled)
    ensures FileOutcome(f, c, cancelled) == FileOutcome(f.(content := content), c, cancelled)
  {
  }

  // ---------------------------------------------------------------------------
  // Progress

  /** `Math.floor(n / 25) || 1`. */
  function ProgressStep(n: nat): (step: nat)
    ensures step >= 1
    ensures n >= 25 ==> step == n / 25
    ensures n < 25 ==> step == 1
  {
    if n / 25 == 0 then 1 else n / 25
  }

  /** The completion counts at which progress is reported, after `n` completions. */
  function ProgressReports(n: nat, step: nat): (reports: seq<nat>)
    requires step >= 1
    ensures |reports| <= n
    ensures forall i :: 0 <= i < |reports| ==> 1 <= reports[i] <= n && reports[i] % step == 0
  {
    if n == 0 then []
    else ProgressReports(n - 1, step) + (if n % step == 0 then [n] else [])
  }

  /** A report fires exactly at the counts that are multiples of the step, once each, in order. */
  lemma {:induction false} ProgressReportsSpec(n: nat, step: nat)
    requires step >= 1
    ensures StrictlyAscending(ProgressReports(n, step))
    ensures forall k :: k in ProgressReports(n, step) <==> 1 <= k <= n && k % step == 0
  {
    if n > 0 {
      var prev := ProgressReports(n - 1, step);
      ProgressReportsSpec(n - 1, step);
      assert forall k :: 0 <= k < |prev| ==> prev[k] in prev;
    }
  }

  lemma DivStep(n: nat, step: nat)
    requires step >= 1 && n >= 1
    ensures n / step == (n - 1) / step + (if n % step == 0 then 1 else 0)
  {
    var q, r := (n - 1) / step, (n - 1) % step;
    assert n - 1 == q * step + r && 0 <= r < step;
    if r + 1 == step {
      assert n == (q + 1) * step;
      DivModUnique(n, step, q + 1, 0);
    } else {
      assert n == q * step + (r + 1);
      DivModUnique(n, step, q, r + 1);
    }
  }

  lemma DivModUnique(n: nat, step: nat, q: int, r: int)
    requires step >= 1 && n == q * step + r && 0 <= r < step
    ensures n / step == q && n % step == r
  {
    var q', r' := n / step, n % step;
    assert n == q' * step + r' && 0 <= r' < step;
    if q' > q {
      assert q' * step >= (q + 1) * step by { MulMonotone(q + 1, q', step); }
    } else if q' < q {
      assert q * step >= (q' + 1) * step by { MulMonotone(q' + 1, q, step); }
    }
  }

  lemma MulMonotone(a: int, b: int, c: nat)
    requires a <= b
    ensures a * c <= b * c
  {
  }

  /** There are `n / step` reports after `n` completions. */
  lemma {:induction false} ProgressReportCount(n: nat, step: nat)
    requires step >= 1
    ensures |ProgressReports(n, step)| == n / step
  {
    if n > 0 {
      ProgressReportCount(n - 1, step);
      DivStep(n, step);
    }
  }

  /** With a step of `n / 25`, the number of whole steps in `n` is between 25 and 49. */
  lemma QuotientBounds(n: nat, step: nat)
    requires n >= 25 && step == n / 25
    ensures step >= 1 && 25 <= n / step < 50
  {
    DivModUnique(n, 25, step, n % 25);
    assert 25 * step <= n < 25 * step + 25;
    var q := n / step;
    assert q * step <= n < q * step + step;
    if q < 25 {
      MulMonotone(q + 1, 25, step);
    }
    if q >= 50 {
      MulMonotone(50, q, step);
    }
  }

  /** Progress is reported about 25 times: at every completion for fewer than 25
      files, otherwise between 25 and 49 times. */
  lemma ProgressAboutTwentyFiveTimes(n: nat)
    ensures n < 25 ==> ProgressReports(n, ProgressStep(n)) == ProgressReports(n, 1) &&
                       |ProgressReports(n, ProgressStep(n))| == n
    ensures n >= 25 ==> 25 <= |ProgressReports(n, ProgressStep(n))| < 50
  {
    var step := ProgressStep(n);
    ProgressReportCount(n, step);
    if n >= 25 {
      QuotientBounds(n, step);
    }
  }

  /** The counter the source bumps once per file, on the skip path and on the match path alike. */
  class ProgressTracker {
    const total: nat
    const step: nat
    var completed: nat
    var reports: seq<nat>

    ghost predicate Valid()
      reads this
    {
      step >= 1 && step == ProgressStep(total) && reports == ProgressReports(completed, step)
    }

    constructor(total: nat)
      ensures Valid() && this.total == total && completed == 0 && reports == []
    {
      this.total := total;
      step := ProgressStep(total);
      completed := 0;
      reports := [];
    }

    /** `incrementCompletedFiles`: count one more file and report when the count is a multiple of the step. */
    method Increment()
      requires Valid()
      modifies this
      ensures Valid()
      ensures completed == old(completed) + 1
      ensures reports == old(reports) + (if completed % step == 0 then [completed] else [])
    {
      completed := completed + 1;
      if completed % step == 0 {
        reports := reports + [completed];
      }
    }
  }

  /** One file's promise: the gate, then (only if admitted) the content read, the
      split, the file predicate and the line loop; the counter is bumped on both paths. */
  method EvaluateFile(f: WorkspaceFile, c: RunConfig, cancelled: bool, progress: ProgressTracker)
    returns (result: FileResult, contentRead: bool)
    requires progress.Valid()
    modifies progress
    ensures progress.Valid() && progress.completed == old(progress.completed) + 1
    ensures result == FileOutcome(f, c, cancelled)
    ensures contentRead <==> !Skipped(f, c, cancelled)
  {
    var exceedsMaxSize := c.maxFileSizeInKB != 0 && f.size > c.maxFileSizeInKB * 1000;
    if cancelled || exceedsMaxSize {
      progress.Increment();
      return FileResult(f.path, false, None), false;
    }
    contentRead := true;
    var content := f.content;
    var lines := if Includes(content, CRLF) then Split(content, CRLF) else Split(content, LF);
    var meta := LineMetadataOf(f.path);
    var matchesByFile := false;
    if c.fileMatcher.Some? {
      matchesByFile := c.fileMatcher.value(content, FileMetadata(meta.filePath, meta.fileName, lines));
    }
    var matchesByLine: Option<seq<nat>> := None;
    if c.lineMatcher.Some? && (if c.onlyTestLinesInMatchingFiles then matchesByFile else true) {
      var found := CollectLineMatches(lines, c.lineMatcher.value, meta);
      matchesByLine := Some(found);
    }
    progress.Increment();
    result := FileResult(f.path, matchesByFile, matchesByLine);
  }

  /** The result of every file, in file order. */
  function Outcomes(files: seq<WorkspaceFile>, c: RunConfig, cancelled: nat -> bool): seq<FileResult> {
    seq(|files|, i requires 0 <= i < |files| => FileOutcome(files[i], c, cancelled(i)))
  }

  /** The fan-out over all files, run one file after another, with the shared counter. */
  method RunMatches(files: seq<WorkspaceFile>, c: RunConfig, cancelled: nat -> bool)
    returns (results: seq<FileResult>, completed: nat, reports: seq<nat>)
    ensures results == Outcomes(files, c, cancelled)
    ensures completed == |files|
    ensures reports == ProgressReports(|files|, ProgressStep(|files|))
  {
    var progress := new ProgressTracker(|files|);
    results := [];
    for fileIx := 0 to |files|
      invariant progress.Valid() && progress.total == |files|
      invariant progress.completed == fileIx
      invariant |results| == fileIx
      invariant forall i :: 0 <= i < fileIx ==> results[i] == FileOutcome(files[i], c, cancelled(i))
    {
      var result, _ := EvaluateFile(files[fileIx], c, cancelled(fileIx), progress);
      results := results + [result];
    }
    completed, reports := progress.completed, progress.reports;
  }

  // ---------------------------------------------------------------------------
  // Filtering

  /** A result is kept when the file matched or at least one line did. */
  predicate IsReportable(r: FileResult) {
    r.matchesByFile || (r.matchesByLine.Some? && |r.matchesByLine.value| > 0)
  }

  /** `matches.filter(m => m.matchesByFile || (m.matchesByLine && m.matchesByLine.length))`. */
  function FilterMatches(results: seq<FileResult>): (kept: seq<FileResult>)
    ensures |kept| <= |results|
    ensures forall r :: r in kept ==> r in results && IsReportable(r)
  {
    if |results| == 0 then []
    else
      var last := results[|results| - 1];
      FilterMatches(results[..|results| - 1]) + (if IsReportable(last) then [last] else [])
  }

  /** The filter keeps the reportable results and only those, in their original
      order: the k-th kept result is the result at the k-th reportable index. */
  lemma {:induction false} FilterMatchesSpec(results: seq<FileResult>)
    ensures var kept, idx := FilterMatches(results), MatchingIndices(results, IsReportable, |results|);
      && |kept| == |idx|
      && (forall k :: 0 <= k < |idx| ==> idx[k] < |results| && kept[k] == results[idx[k]])
      && (forall r :: r in kept <==> r in results && IsReportable(r))
  {
    if |results| > 0 {
      var init := results[..|results| - 1];
      FilterMatchesSpec(init);
      assert MatchingIndices(results, IsReportable, |results| - 1) == MatchingIndices(init, IsReportable, |init|) by {
        MatchingIndicesPrefix(results, IsReportable, |init|);
      }
      MatchingIndicesSpec(init, IsReportable, |init|);
      assert results == init + [results[|results| - 1]];
    }
  }

  /** The indices below `n` do not depend on the elements from `n` on. */
  lemma {:induction false} MatchingIndicesPrefix<T>(xs: seq<T>, p: T -> bool, n: nat)
    requires n <= |xs|
    ensures MatchingIndices(xs, p, n) == MatchingIndices(xs[..n], p, n)
    decreases n
  {
    if n > 0 {
      MatchingIndicesPrefix(xs, p, n - 1);
      MatchingIndicesPrefix(xs[..n], p, n - 1);
      assert xs[..n][..n - 1] == xs[..n - 1];
    }
  }

  // ---------------------------------------------------------------------------
  // The whole command

  /** What the extension had to work with before validation: the active editor's
      text, transpiled and loaded as a module. */
  datatype LoadedSource = NoActiveEditor | TranspileFailed | LinkFailed | Linked(loaded: Module)

  /** Why a search ended before searching; each has its own message (or none, for
      a declined confirmation). */
  datatype Stop =
    | NoEditor
    | Untranspilable
    | Unlinkable
    | InvalidDefinition(error: LoadError)
    | NoWorkspaceFolder
    | LargeSearchDeclined

  /** A finished search: whether the "no files matched" message was shown, the
      kept results and the progress reports. */
  datatype SearchRun =
    | Stopped(reason: Stop)
    | Searched(noFilesMessage: bool, matches: seq<FileResult>, progressReports: seq<nat>)

  /** Above this many candidate files the user must confirm the search. */
  const ConfirmAbove: nat := 200

  /** `executeSearch`. */
  method ExecuteSearch(
    source: LoadedSource,
    workspaceFolders: nat,
    findFiles: (string, Option<string>) -> seq<WorkspaceFile>,
    confirmSearch: bool,
    cancelled: nat -> bool)
    returns (run: SearchRun)
    ensures source.NoActiveEditor? <==> run == Stopped(NoEditor)
    ensures source.TranspileFailed? <==> run == Stopped(Untranspilable)
    ensures source.LinkFailed? <==> run == Stopped(Unlinkable)
    ensures source.Linked? && Validate(source.loaded).result.Err? <==>
      run.Stopped? && run.reason.InvalidDefinition?
    ensures run.Stopped? && run.reason.InvalidDefinition? ==>
      run.reason.error == Validate(source.loaded).result.error
    ensures source.Linked? && Validate(source.loaded).result.Ok? ==>
      var d := Validate(source.loaded).result.value;
      var files := Candidates(d.settings, findFiles);
      && (workspaceFolders == 0 <==> run == Stopped(NoWorkspaceFolder))
      && (workspaceFolders > 0 && |files| > ConfirmAbove && !confirmSearch <==> run == Stopped(LargeSearchDeclined))
      && (run.Searched? ==>
            && run.noFilesMessage == (|files| == 0)
            && run.matches == FilterMatches(Outcomes(files, ConfigOf(d), cancelled))
            && run.progressReports == ProgressReports(|files|, ProgressStep(|files|)))
    ensures run.Searched? ==> source.Linked? && Validate(source.loaded).result.Ok? && workspaceFolders > 0
  {
    if source.NoActiveEditor? { return Stopped(NoEditor); }
    if source.TranspileFailed? { return Stopped(Untranspilable); }
    if source.LinkFailed? { return Stopped(Unlinkable); }
    var validation := Validate(source.loaded);
    if validation.result.Err? {
      return Stopped(InvalidDefinition(validation.result.error));
    }
    var definition := validation.result.value;
    if workspaceFolders == 0 {
      return Stopped(NoWorkspaceFolder);
    }

    var settings := definition.settings;
    var includeGlobs := if settings.includeFilePatterns.Some? then settings.includeFilePatterns.value else [];
    if |includeGlobs| == 0 {
      includeGlobs := includeGlobs + [DefaultInclude];
    }
    var excludeGlobs := if settings.excludeFilePatterns.Some? then settings.excludeFilePatterns.value else [];
    if !settings.includeNodeModules {
      excludeGlobs := excludeGlobs + [NodeModulesExclude];
    }
    var files := findFiles(BraceGlob(includeGlobs), if |excludeGlobs| > 0 then Some(BraceGlob(excludeGlobs)) else None);
    assert files == Candidates(settings, findFiles);

    // the message is shown, but the search goes on with no files
    var noFilesMessage := |files| == 0;
    if |files| > ConfirmAbove && !confirmSearch {
      return Stopped(LargeSearchDeclined);
    }

    var config := ConfigOf(definition);
    var matches, _, reports := RunMatches(files, config, cancelled);
    run := Searched(noFilesMessage, FilterMatches(matches), reports);
  }
}
