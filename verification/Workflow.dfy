/** src/replay.js, src/compare.js:77-149, src/assert.js: the commands as steps over a bundle directory. */
module Workflow {
  import opened JsText
  import opened Integrity
  import opened Bundle
  import opened Splitting
  import Compare
  import Json
  import Lcs
  import opened Records

  /** The typed readings of the JSON files, and the texts the commands write. */
  datatype Tool = Tool(
    host: Host,
    expected: seq<Byte> -> Compare.Expected,
    original: seq<Byte> -> Compare.Original,
    replay: seq<Byte> -> Option<Compare.Replay>,
    refusal: Json.Json -> seq<Byte>,
    report: (Json.Json, Compare.Expected, Compare.Original, Compare.Replay) -> seq<Byte>)

  predicate IsManifest(host: Host, bytes: seq<Byte>) {
    host.parse(bytes).Some? && Json.Property(host.parse(bytes).value, "schemaVersion") == Some(Json.Str("0.1"))
  }

  /**
   A refusal reads back as one, no replay lists more log lines than it has bytes, parsed objects do
   not repeat keys, and neither a refusal nor a comparison carries a schema version.
   */
  ghost predicate ToolWorks(tool: Tool) {
    && (forall m ::
         tool.replay(tool.refusal(m)).Some? && tool.replay(tool.refusal(m)).value.status == Some("UNSUPPORTED"))
    && (forall b :: tool.replay(b).Some? ==> |Compare.Lines(tool.replay(b).value.logs)| <= |b|)
    && (forall b, c :: tool.replay(c).Some? ==> Compare.WellFormedSides(tool.expected(b), tool.replay(c).value))
    && (forall m :: !IsManifest(tool.host, tool.refusal(m)))
    && (forall m, e, o, r :: !IsManifest(tool.host, tool.report(m, e, o, r)))
  }

  const MAX_REPLAY_BYTES := 10 * 1024 * 1024

  /** A path below the bundle directory, after path.resolve. */
  type Path = parts: seq<string> | forall p :: p in parts ==> ValidName(p) witness []

  /** Where a command writes: its default file in the bundle, any path of the caller's inside it, or outside. */
  datatype Output = InBundle | Inside(path: Path) | Elsewhere(writable: bool)

  /** The replay file to judge: the bundle's, or what another path names, if anything. */
  datatype Source = Bundled | Other(entry: Option<Node>)

  /**
   What the backend process does. A failed one may have left something in its output file; one that
   exits with success may have written nothing, and may have printed something that is not JSON.
   */
  datatype Backend = NotBuilt | Failed(partial: Option<seq<Byte>>) | Finished(written: Option<seq<Byte>>, printed: bool)

  function TextOf(v: Option<Json.Json>): string { if v.Some? && v.value.Str? then v.value.s else "" }

  function EligibilityOf(manifest: Json.Json): string { TextOf(Json.Property(manifest, "eligibility")) }

  /** Where inside the bundle an output lies. */
  function Target(output: Output, name: string): Option<seq<string>> {
    match output
    case InBundle => Some([name])
    case Inside(path) => Some(path)
    case Elsewhere(_) => None
  }

  /** writeJson, which creates missing directories; None where it throws. */
  function Write(tree: Node, output: Output, name: string, bytes: seq<Byte>): (r: Option<Node>)
    requires tree.Dir?
    ensures r.Some? ==> r.value.Dir?
  {
    match Target(output, name)
    case Some(parts) => WriteAt(tree, parts, bytes)
    case None => if output.writable then Some(tree) else None
  }

  /** The runner's own write, which does not create directories. */
  function BackendWrite(tree: Node, output: Output, bytes: seq<Byte>): (r: Option<Node>)
    requires tree.Dir?
    ensures r.Some? ==> r.value.Dir? && Write(tree, output, "replay.json", bytes) == r
  {
    match Target(output, "replay.json")
    case Some(parts) =>
      if parts == [] || NodeAt(tree, parts[..|parts| - 1]).None? || !NodeAt(tree, parts[..|parts| - 1]).value.Dir?
        then None
      else WriteAt(tree, parts, bytes)
    case None => if output.writable then Some(tree) else None
  }

  function Fallback(written: Option<Node>, tree: Node): Node { if written.Some? then written.value else tree }

  // ---------------------------------------------------------------------------------------
  // replayBundle, src/replay.js:8-41

  datatype ReplayOutcome = Rejected(rejection: Rejection) | Refused | Ran | BackendError | WriteError

  datatype ReplayResult = ReplayResult(tree: Node, outcome: ReplayOutcome)

  ghost function ReplayStep(tool: Tool, tree: Node, output: Output, backend: Backend): (r: ReplayResult)
    requires tree.Dir?
    ensures r.tree.Dir?
  {
    var validated := Validation(tool.host, tree, false);
    if validated.Err? then ReplayResult(tree, Rejected(validated.error))
    else if !RuntimePinned(validated.value) || EligibilityOf(validated.value) == "UNSUPPORTED" then
      var written := Write(tree, output, "replay.json", tool.refusal(validated.value));
      ReplayResult(Fallback(written, tree), if written.None? then WriteError else Refused)
    else
      match backend
      case NotBuilt => ReplayResult(tree, BackendError)
      case Failed(partial) =>
        var written := if partial.None? then None else BackendWrite(tree, output, partial.value);
        ReplayResult(Fallback(written, tree), BackendError)
      case Finished(None, printed) => ReplayResult(tree, if printed then Ran else BackendError)
      case Finished(Some(bytes), printed) =>
        var written := BackendWrite(tree, output, bytes);
        ReplayResult(Fallback(written, tree), if written.Some? && printed then Ran else BackendError)
  }

  /** The backend process came to its end and printed a result. */
  predicate PrintsResult(backend: Backend) { backend.Finished? && backend.printed }

  /** What the process leaves in its output file, if anything. */
  function Leaves(backend: Backend): Option<seq<Byte>> {
    match backend
    case NotBuilt => None
    case Failed(partial) => partial
    case Finished(written, _) => written
  }

  /**
   The outcomes of a replay, and what each leaves behind. A result needs a backend that finished, wrote
   what it had and printed JSON; a missing, failed or silent one is an error, and none of them leaves more
   than its output file.
   */
  lemma ReplayOutcomeExactly(tool: Tool, tree: Node, output: Output, backend: Backend)
    requires tree.Dir?
    ensures var step, validated := ReplayStep(tool, tree, output, backend), Validation(tool.host, tree, false);
      var refused := validated.Ok? && !Launchable(tool.host, tree);
      && (step.outcome.Rejected? <==> validated.Err?)
      && (step.outcome == Refused <==>
          refused && Write(tree, output, "replay.json", tool.refusal(validated.value)).Some?)
      && (step.outcome == WriteError <==>
          refused && Write(tree, output, "replay.json", tool.refusal(validated.value)).None?)
      && (step.outcome == Ran <==>
          Launchable(tool.host, tree) && PrintsResult(backend) &&
          (Leaves(backend).Some? ==> BackendWrite(tree, output, Leaves(backend).value).Some?))
      && (step.outcome == BackendError <==> Launchable(tool.host, tree) && step.outcome != Ran)
      && (Launchable(tool.host, tree) ==>
            step.tree == if Leaves(backend).None? then tree
              else Fallback(BackendWrite(tree, output, Leaves(backend).value), tree))
      && (refused ==> step.tree == Fallback(Write(tree, output, "replay.json", tool.refusal(validated.value)), tree))
      && (validated.Err? ==> step.tree == tree)
  {
    hide Validation, RuntimePinned, EligibilityOf, Write, BackendWrite;
  }

  // ---------------------------------------------------------------------------------------
  // compareReplay and assertBundle

  function ReplayBytes(tree: Node, source: Source): Option<seq<Byte>>
    requires tree.Dir?
  {
    match source
    case Bundled => FileAt(tree, "replay.json")
    case Other(Some(File(bytes))) => Some(bytes)
    case Other(_) => None
  }

  datatype CompareOutcome = Compared(status: Compare.Fidelity) | CompareError

  datatype CompareResult = CompareResult(tree: Node, outcome: CompareOutcome)

  /** readJsonLimited on a replay file. */
  function Reading(tool: Tool, bytes: seq<Byte>): Option<Compare.Replay> {
    if |bytes| > MAX_REPLAY_BYTES then None else tool.replay(bytes)
  }

  /** The judged replay, as far as it can be read. */
  function JudgedReplay(tool: Tool, tree: Node, source: Source): Option<Compare.Replay>
    requires tree.Dir?
  {
    var bytes := ReplayBytes(tree, source);
    if bytes.None? then None else Reading(tool, bytes.value)
  }

  /** The bytes a replay source names: the bundle's replay.json, or another file that is there. */
  predicate Names(tree: Node, source: Source, bytes: seq<Byte>)
    requires tree.Dir?
  {
    match source
    case Bundled => Child(tree.children, "replay.json") == Some(File(bytes))
    case Other(entry) => entry == Some(File(bytes))
  }

  /** A replay is judged when its source names a file of at most 10 MiB that reads as one. */
  lemma JudgedExactly(tool: Tool, tree: Node, source: Source, replay: Compare.Replay)
    requires tree.Dir?
    ensures JudgedReplay(tool, tree, source) == Some(replay) <==>
      exists bytes :: Names(tree, source, bytes) && |bytes| <= 10485760 && tool.replay(bytes) == Some(replay)
  {
    var bytes := ReplayBytes(tree, source);
    if bytes.Some? { assert Names(tree, source, bytes.value); }
  }

  function ExpectedAt(tool: Tool, tree: Node): Compare.Expected
    requires tree.Dir? && FileAt(tree, "expected.json").Some?
  {
    tool.expected(FileAt(tree, "expected.json").value)
  }

  function OriginalAt(tool: Tool, tree: Node): Compare.Original
    requires tree.Dir? && FileAt(tree, "original-execution.json").Some?
  {
    tool.original(FileAt(tree, "original-execution.json").value)
  }

  /** Both sides of a comparison can be read. */
  predicate Readable(tool: Tool, tree: Node, source: Source)
    requires tree.Dir?
  {
    FileAt(tree, "expected.json").Some? && FileAt(tree, "original-execution.json").Some? &&
      JudgedReplay(tool, tree, source).Some?
  }

  ghost function CompareStep(tool: Tool, tree: Node, source: Source, output: Output): (r: CompareResult)
    requires tree.Dir?
    ensures r.tree.Dir?
  {
    var validated := Validation(tool.host, tree, false);
    if validated.Err? || !Readable(tool, tree, source) then CompareResult(tree, CompareError)
    else
      var expected, original, replay :=
        ExpectedAt(tool, tree), OriginalAt(tool, tree), JudgedReplay(tool, tree, source).value;
      var verdict := Compare.Verdict(expected, original, replay, EligibilityOf(validated.value));
      if verdict.Err? then CompareResult(tree, CompareError)
      else
        var written := Write(tree, output, "comparison.json", tool.report(validated.value, expected, original, replay));
        if written.None? then CompareResult(tree, CompareError)
          else CompareResult(written.value, Compared(verdict.value))
  }

  function StatusText(status: Compare.Fidelity): string {
    match status
    case EXACT => "EXACT"
    case HIGH_FIDELITY => "HIGH_FIDELITY"
    case PARTIAL => "PARTIAL"
    case FAILED => "FAILED"
    case UNSUPPORTED => "UNSUPPORTED"
  }

  datatype AssertOptions = AssertOptions(replay: Option<Source>, rerun: bool, output: Output, accept: string)

  function Accepted(accept: string): seq<string> { Split(if accept == "" then "EXACT,HIGH_FIDELITY" else accept, ',') }

  /** A passing assertion reports both results as text. */
  datatype AssertOutcome =
    | Passed(status: Compare.Fidelity, expected: string, actual: string)
    | Regression(status: Compare.Fidelity)
    | AssertError

  datatype AssertResult = AssertResult(tree: Node, outcome: AssertOutcome)

  predicate Exists(tree: Node, source: Source)
    requires tree.Dir?
  {
    match source
    case Bundled => Child(tree.children, "replay.json").Some?
    case Other(entry) => entry.Some?
  }

  function Requested(options: AssertOptions): Source { if options.replay.Some? then options.replay.value else Bundled }

  predicate Reruns(tree: Node, options: AssertOptions)
    requires tree.Dir?
  {
    !Exists(tree, Requested(options)) || options.rerun
  }

  /** The directory an assertion compares in: after its own replay, if it runs one. */
  ghost function AfterReplay(tool: Tool, tree: Node, options: AssertOptions, backend: Backend): (r: ReplayResult)
    requires tree.Dir?
    ensures r.tree.Dir?
  {
    if Reruns(tree, options) then ReplayStep(tool, tree, options.output, backend) else ReplayResult(tree, Refused)
  }

  function JudgedSource(tree: Node, options: AssertOptions): Source
    requires tree.Dir?
  {
    if Reruns(tree, options) then Bundled else Requested(options)
  }

  function ResultText(success: Field<bool>, error: Option<string>): string {
    if success == Is(true) then "SUCCESS" else "FAIL " + (if error.Some? then error.value else "null")
  }

  /** Lines 22-31: the replay file is read again, and the errors of both sides are put into text. */
  function Summary(
    status: Compare.Fidelity, expected: Compare.Expected, replay: Option<Compare.Replay>): AssertOutcome {
    if replay.None? then AssertError
    else
      var left, right := Compare.CanonicalError(expected.error), Compare.CanonicalError(replay.value.error);
      if left.Err? || right.Err? then AssertError
      else Passed(status, ResultText(expected.success, left.value), ResultText(replay.value.success, right.value))
  }

  lemma ValidEvidence(host: Host, tree: Node, strict: bool)
    requires tree.Dir? && Validation(host, tree, strict).Ok?
    ensures FileAt(tree, "expected.json").Some? && FileAt(tree, "original-execution.json").Some?
  {
    hide Validation;
    RequiredFiles();
    ValidMeansRegular(host, tree, strict, "expected.json");
    ValidMeansRegular(host, tree, strict, "original-execution.json");
  }

  ghost function AssertStep(tool: Tool, tree: Node, options: AssertOptions, backend: Backend): (r: AssertResult)
    requires tree.Dir?
    ensures r.tree.Dir?
  {
    if Validation(tool.host, tree, true).Err? then AssertResult(tree, AssertError)
    else
      var replayed := AfterReplay(tool, tree, options, backend);
      if !replayed.outcome.Refused? && !replayed.outcome.Ran? then AssertResult(replayed.tree, AssertError)
      else
        var compared := CompareStep(tool, replayed.tree, JudgedSource(tree, options), InBundle);
        match compared.outcome
        case CompareError => AssertResult(compared.tree, AssertError)
        case Compared(status) =>
          if StatusText(status) !in Accepted(options.accept) then AssertResult(compared.tree, Regression(status))
          else
            ValidEvidence(tool.host, tree, true);
            var replay := JudgedReplay(tool, compared.tree, JudgedSource(tree, options));
            AssertResult(compared.tree, Summary(status, ExpectedAt(tool, tree), replay))
  }

  // ---------------------------------------------------------------------------------------
  // The commands

  lemma OutputNames()
    ensures ValidName("replay.json") && ValidName("comparison.json") && ValidName("manifest.json") &&
      ValidName("expected.json")
    ensures IsDerived("replay.json") && IsDerived("comparison.json") && IsDerived("manifest.json") &&
      !IsDerived("expected.json")
    ensures "manifest.json" != "replay.json" && "manifest.json" != "comparison.json" &&
      "replay.json" != "comparison.json"
  {
    assert |"expected.json"| == 13 && |"manifest.json"| == 13 && |"replay.json"| == 11 && |"comparison.json"| == 15;
    assert "expected.json"[0] == 'e' && "manifest.json"[0] == 'm';
  }

  lemma WriteWellFormed(tree: Node, output: Output, name: string, bytes: seq<Byte>)
    requires tree.Dir? && WellFormedTree(tree) && ValidName(name) && Write(tree, output, name, bytes).Some?
    ensures WellFormedTree(Write(tree, output, name, bytes).value)
  {
    hide WellFormedTree, WriteAt, ValidName;
    var parts := Target(output, name);
    if parts.Some? { WriteKeeps(tree, parts.value, bytes); }
  }

  class Workspace {
    var tree: Node

    constructor (tree: Node)
      ensures this.tree == tree
    {
      this.tree := tree;
    }

    ghost predicate Valid() reads this { tree.Dir? && WellFormedTree(tree) }

    method WriteOut(output: Output, name: string, bytes: seq<Byte>) returns (ok: bool)
      requires Valid() && ValidName(name)
      modifies this
      ensures Valid()
      ensures ok <==> Write(old(tree), output, name, bytes).Some?
      ensures tree == Fallback(Write(old(tree), output, name, bytes), old(tree))
    {
      var written := Write(tree, output, name, bytes);
      if written.None? { return false; }
      WriteWellFormed(tree, output, name, bytes);
      tree := written.value;
      ok := true;
    }

    method BackendOut(output: Output, bytes: seq<Byte>) returns (ok: bool)
      requires Valid()
      modifies this
      ensures Valid()
      ensures ok <==> BackendWrite(old(tree), output, bytes).Some?
      ensures tree == Fallback(BackendWrite(old(tree), output, bytes), old(tree))
    {
      var written := BackendWrite(tree, output, bytes);
      if written.None? { return false; }
      OutputNames();
      WriteWellFormed(tree, output, "replay.json", bytes);
      tree := written.value;
      ok := true;
    }

    method ReplayBundle(tool: Tool, output: Output, backend: Backend) returns (outcome: ReplayOutcome)
      requires Valid()
      modifies this
      ensures Valid()
      ensures var step := ReplayStep(tool, old(tree), output, backend); tree == step.tree && outcome == step.outcome
    {
      hide Validation, WellFormedTree, Write, BackendWrite, ValidName, IsDerived;
      OutputNames();
      var validated := ValidateBundle(tool.host, tree, false);
      if validated.Err? { return Rejected(validated.error); }
      if !RuntimePinned(validated.value) {
        var ok := WriteOut(output, "replay.json", tool.refusal(validated.value));
        return if ok then Refused else WriteError;
      }
      if EligibilityOf(validated.value) == "UNSUPPORTED" {
        var ok := WriteOut(output, "replay.json", tool.refusal(validated.value));
        return if ok then Refused else WriteError;
      }
      match backend {
        case NotBuilt => return BackendError;
        case Failed(partial) =>
          if partial.Some? { var _ := BackendOut(output, partial.value); }
          return BackendError;
        case Finished(written, printed) =>
          var ok := true;
          if written.Some? { ok := BackendOut(output, written.value); }
          return if ok && printed then Ran else BackendError;
      }
    }

    method CompareReplay(tool: Tool, source: Source, output: Output) returns (outcome: CompareOutcome)
      requires Valid() && ToolWorks(tool)
      modifies this
      ensures Valid()
      ensures var step := CompareStep(tool, old(tree), source, output); tree == step.tree && outcome == step.outcome
    {
      hide Validation, WellFormedTree, Write, ValidName, IsDerived;
      OutputNames();
      var validated := ValidateBundle(tool.host, tree, false);
      if validated.Err? { return CompareError; }
      if !Readable(tool, tree, source) { return CompareError; }
      var expected, original, replay :=
        ExpectedAt(tool, tree), OriginalAt(tool, tree), JudgedReplay(tool, tree, source).value;
      var verdict := Compare.CompareReplay(expected, original, replay, EligibilityOf(validated.value));
      if verdict.Err? { return CompareError; }
      var ok := WriteOut(output, "comparison.json", tool.report(validated.value, expected, original, replay));
      outcome := if ok then Compared(verdict.value) else CompareError;
    }

    method AssertBundle(tool: Tool, options: AssertOptions, backend: Backend) returns (outcome: AssertOutcome)
      requires Valid() && ToolWorks(tool)
      modifies this
      ensures Valid()
      ensures var step := AssertStep(tool, old(tree), options, backend); tree == step.tree && outcome == step.outcome
    {
      hide Validation, WellFormedTree, ReplayStep, CompareStep, ToolWorks, Split;
      var validated := ValidateBundle(tool.host, tree, true);
      if validated.Err? { return AssertError; }
      ValidEvidence(tool.host, tree, true);
      var expected := ExpectedAt(tool, tree);
      var replayFile := Requested(options);
      if !Exists(tree, replayFile) || options.rerun {
        var replayed := ReplayBundle(tool, options.output, backend);
        if !replayed.Refused? && !replayed.Ran? { return AssertError; }
        replayFile := Bundled;
      }
      var compared := CompareReplay(tool, replayFile, InBundle);
      if compared.CompareError? { return AssertError; }
      if StatusText(compared.status) !in Accepted(options.accept) { return Regression(compared.status); }
      outcome := Summary(compared.status, expected, JudgedReplay(tool, tree, replayFile));
    }
  }

  // ---------------------------------------------------------------------------------------
  // Every run

  datatype Step =
    | Overwrite(bytes: seq<Byte>)
    | RunReplay(output: Output, backend: Backend)
    | RunCompare(source: Source, output: Output)
    | RunAssert(options: AssertOptions, backend: Backend)

  /** Anyone may overwrite replay.json between commands. */
  ghost function Next(tool: Tool, tree: Node, step: Step): (next: Node)
    requires tree.Dir?
    ensures next.Dir?
  {
    match step
    case Overwrite(bytes) => Fallback(Write(tree, InBundle, "replay.json", bytes), tree)
    case RunReplay(output, backend) => ReplayStep(tool, tree, output, backend).tree
    case RunCompare(source, output) => CompareStep(tool, tree, source, output).tree
    case RunAssert(options, backend) => AssertStep(tool, tree, options, backend).tree
  }

  ghost function Run(tool: Tool, tree: Node, steps: seq<Step>): (last: Node)
    requires tree.Dir?
    ensures last.Dir?
    decreases |steps|
  {
    if steps == [] then tree else Run(tool, Next(tool, tree, steps[0]), steps[1..])
  }

  // ---------------------------------------------------------------------------------------
  // What a bundle is, and which writes keep it

  /** Two states of one bundle directory: only replay.json and comparison.json may differ. */
  ghost predicate SameBundle(tree: Node, tree': Node) {
    && tree.Dir? && tree'.Dir? && WellFormedTree(tree) && WellFormedTree(tree')
    && ViewOf(tree) == ViewOf(tree')
    && FileAt(tree, "manifest.json") == FileAt(tree', "manifest.json")
  }

  lemma SameBundleTrees(tree: Node, tree': Node)
    requires SameBundle(tree, tree')
    ensures tree.Dir? && tree'.Dir? && WellFormedTree(tree) && WellFormedTree(tree')
    ensures ViewOf(tree) == ViewOf(tree') && FileAt(tree, "manifest.json") == FileAt(tree', "manifest.json")
  {
  }

  lemma FileReads(host: Host, tree: Node, name: string)
    requires tree.Dir?
    ensures RegularFile(tree, name) <==> FileAt(tree, name).Some? && |FileAt(tree, name).value| <= MAX_FILE_BYTES
    ensures ReadTop(host, tree, name) == if FileAt(tree, name).None? then None else host.parse(FileAt(tree, name).value)
  {
  }

  /** The required files of two directories with one view and one manifest. */
  lemma SameRequired(host: Host, tree: Node, tree': Node, name: string)
    requires SameBundle(tree, tree') && ViewOf(tree).Some? && name in REQUIRED
    ensures FileAt(tree, name) == FileAt(tree', name)
    ensures RegularFile(tree, name) <==> RegularFile(tree', name)
    ensures ReadTop(host, tree, name) == ReadTop(host, tree', name)
  {
    hide ViewOf, WellFormedTree, FileAt, ValidName, IsDerived, RegularFile, ReadTop;
    if name != "manifest.json" {
      RequiredIsViewed(name);
      FileAtIsViewed(tree, name);
      FileAtIsViewed(tree', name);
    }
    FileReads(host, tree, name);
    FileReads(host, tree', name);
  }

  lemma RequiredFiles()
    ensures "expected.json" in REQUIRED && "original-execution.json" in REQUIRED && "manifest.json" in REQUIRED
    ensures "transaction.json" in REQUIRED && "provenance.json" in REQUIRED
  {
  }

  lemma SameCrossCheck(host: Host, tree: Node, tree': Node, manifest: Json.Json)
    requires SameBundle(tree, tree') && ViewOf(tree).Some?
    ensures CrossCheck(host, tree, manifest) == CrossCheck(host, tree', manifest)
  {
    hide SameBundle, ReadTop, ViewOf;
    SameBundleTrees(tree, tree');
    RequiredFiles();
    SameRequired(host, tree, tree', "transaction.json");
    SameRequired(host, tree, tree', "original-execution.json");
    SameRequired(host, tree, tree', "expected.json");
    SameRequired(host, tree, tree', "provenance.json");
  }

  /** Validation reads nothing but the view and the manifest. */
  lemma SameBundleSameValidation(host: Host, tree: Node, tree': Node, strict: bool)
    requires SameBundle(tree, tree')
    ensures Validation(host, tree, strict).Ok? <==> Validation(host, tree', strict).Ok?
    ensures Validation(host, tree, strict).Ok? ==> Validation(host, tree, strict) == Validation(host, tree', strict)
  {
    hide SameBundle, ViewOf, IntegrityHolds, ReadTop, RegularFile, CrossCheck, FileAt;
    hide HasSignature, TextIn, RecordedHash, CoreHash, RuntimePinned, Json.Property;
    SameBundleTrees(tree, tree');
    if ViewOf(tree).None? {
      if Validation(host, tree, strict).Ok? { ValidMeansViewed(host, tree, strict); }
      if Validation(host, tree', strict).Ok? { ValidMeansViewed(host, tree', strict); }
    } else {
      RequiredFiles();
      forall name | name in REQUIRED
        ensures RegularFile(tree, name) == RegularFile(tree', name)
        ensures ReadTop(host, tree, name) == ReadTop(host, tree', name)
      {
        SameRequired(host, tree, tree', name);
      }
      var manifest := ReadTop(host, tree, "manifest.json");
      if manifest.Some? { SameCrossCheck(host, tree, tree', manifest.value); }
    }
  }

  lemma FileAfterWrite(tree: Node, parts: seq<string>, bytes: seq<Byte>, name: string)
    requires tree.Dir? && WriteAt(tree, parts, bytes).Some?
    ensures FileAt(WriteAt(tree, parts, bytes).value, name) == if parts == [name] then Some(bytes)
      else FileAt(tree, name)
  {
    hide BytesAt, WriteAt, FileAt;
    BytesAfterWrite(tree, parts, bytes, [name]);
    FileAtIsBytes(tree, name);
    FileAtIsBytes(WriteAt(tree, parts, bytes).value, name);
  }

  lemma PathTexts(parts: seq<string>, name: string)
    requires parts != [] && (forall p :: p in parts ==> ValidName(p)) && ValidName(name)
    ensures PathText(parts) == name <==> parts == [name]
  {
    hide ValidName, Split;
    ValidNamesSplit(parts);
    ValidNamesSplit([name]);
    assert PathText([name]) == name;
  }

  lemma DerivedPaths(parts: seq<string>)
    requires parts != [] && forall p :: p in parts ==> ValidName(p)
    ensures IsDerived(PathText(parts)) <==> parts in {["manifest.json"], ["replay.json"], ["comparison.json"]}
  {
    hide ValidName, PathText;
    OutputNames();
    PathTexts(parts, "manifest.json");
    PathTexts(parts, "replay.json");
    PathTexts(parts, "comparison.json");
  }

  /**
   A write inside an ordinary bundle directory keeps the bundle exactly when it goes to replay.json or
   comparison.json, or leaves the bytes of the file it names as they were.
   */
  lemma WriteKeepsBundleExactly(tree: Node, parts: Path, bytes: seq<Byte>)
    requires tree.Dir? && WellFormedTree(tree) && ViewOf(tree).Some? && WriteAt(tree, parts, bytes).Some?
    ensures SameBundle(tree, WriteAt(tree, parts, bytes).value) <==>
      parts in {["replay.json"], ["comparison.json"]} || BytesAt(tree, parts) == Some(bytes)
  {
    hide ViewOf, WriteAt, BytesAt, FileAt, ValidName, IsDerived, PathText;
    var after := WriteAt(tree, parts, bytes).value;
    WriteChangesOneFile(tree, parts, bytes);
    FileAfterWrite(tree, parts, bytes, "manifest.json");
    FileAtIsBytes(tree, "manifest.json");
    DerivedPaths(parts);
    OutputNames();
    var content := ViewOf(tree).value.content;
    if !IsDerived(PathText(parts)) { WrittenContent(tree, parts); }
    if IsDerived(PathText(parts)) || BytesAt(tree, parts) == Some(bytes) {
      assert ViewOf(after).value.content == content;
      SameContentSameView(tree, after);
    } else {
      assert ViewOf(after).value.content[PathText(parts)] == bytes;
    }
  }

  lemma WrittenContent(tree: Node, parts: seq<string>)
    requires tree.Dir? && WellFormedTree(tree) && ViewOf(tree).Some?
    requires parts != [] && (forall p :: p in parts ==> ValidName(p)) && !IsDerived(PathText(parts))
    ensures BytesAt(tree, parts) ==
      if PathText(parts) in ViewOf(tree).value.content then Some(ViewOf(tree).value.content[PathText(parts)]) else None
  {
    hide ViewOf, BytesAt, ValidName, IsDerived, PathText;
    ContentIsBytes(tree, PathText(parts));
    ValidNamesSplit(parts);
  }

  /** Writing other bytes into the evidence of a valid bundle leaves a directory that does not validate. */
  lemma ChangedEvidenceIsInvalid(host: Host, tree: Node, parts: Path, bytes: seq<Byte>, strict: bool)
    requires HashInjective(host)
    requires tree.Dir? && WellFormedTree(tree) && Validation(host, tree, false).Ok? && WriteAt(tree, parts, bytes).Some?
    requires !IsDerived(PathText(parts)) && BytesAt(tree, parts) != Some(bytes)
    ensures Validation(host, WriteAt(tree, parts, bytes).value, strict).Err?
  {
    hide ViewOf, WriteAt, BytesAt, FileAt, ValidName, IsDerived, PathText, Validation, WellFormedTree, IntegrityHolds;
    var after := WriteAt(tree, parts, bytes).value;
    ValidMeansViewed(host, tree, false);
    WriteChangesOneFile(tree, parts, bytes);
    WrittenContent(tree, parts);
    DerivedPaths(parts);
    FileAfterWrite(tree, parts, bytes, "manifest.json");
    FileReads(host, tree, "manifest.json");
    FileReads(host, after, "manifest.json");
    assert ViewOf(after).value.content[PathText(parts)] == bytes;
    assert ViewOf(after).value.content != ViewOf(tree).value.content;
    if Validation(host, after, strict).Ok? {
      ValidMeansViewed(host, after, strict);
      var integrity := Json.Property(Validation(host, tree, false).value, "integrity").value;
      SameIndexSameContent(host.sha, tree, after, integrity, integrity);
    }
  }

  // ---------------------------------------------------------------------------------------
  // What every run keeps

  /** The backend may be started. */
  ghost predicate Launchable(host: Host, tree: Node) {
    tree.Dir? &&
    var validated := Validation(host, tree, false);
    validated.Ok? && RuntimePinned(validated.value) && EligibilityOf(validated.value) != "UNSUPPORTED"
  }

  /**
   What a run can have made of a bundle: the same bundle, no valid bundle at all, or, only where the
   backend could be started on it, the same files under a manifest the backend wrote.
   */
  ghost predicate Reached(host: Host, start: Node, tree: Node) {
    && start.Dir? && WellFormedTree(start) && tree.Dir? && WellFormedTree(tree)
    && (SameBundle(start, tree) || Validation(host, tree, false).Err? ||
         (ViewOf(tree) == ViewOf(start) && Launchable(host, start)))
  }

  lemma ReachedTrees(host: Host, start: Node, tree: Node)
    requires Reached(host, start, tree)
    ensures start.Dir? && WellFormedTree(start) && tree.Dir? && WellFormedTree(tree)
    ensures Validation(host, tree, false).Ok? ==> ViewOf(tree) == ViewOf(start)
  {
    hide ViewOf, WellFormedTree, Validation;
  }

  lemma ReachedLaunchable(host: Host, start: Node, tree: Node)
    requires Reached(host, start, tree) && Launchable(host, tree)
    ensures Launchable(host, start)
  {
    hide ViewOf, WellFormedTree, Validation, RuntimePinned, SameBundle;
    if SameBundle(start, tree) { SameBundleSameValidation(host, start, tree, false); }
  }

  lemma SameBundleReached(host: Host, start: Node, tree: Node, tree': Node)
    requires Reached(host, start, tree) && SameBundle(tree, tree')
    ensures Reached(host, start, tree')
  {
    hide ViewOf, WellFormedTree, Validation, RuntimePinned, Launchable;
    SameBundleSameValidation(host, tree, tree', false);
  }

  lemma NotManifestIsInvalid(host: Host, tree: Node, strict: bool)
    requires tree.Dir? && FileAt(tree, "manifest.json").Some? && !IsManifest(host, FileAt(tree, "manifest.json").value)
    ensures Validation(host, tree, strict).Err?
  {
    hide IntegrityHolds, CrossCheck, HasSignature, TextIn, CoreHash, RuntimePinned, RegularFile, Json.Property;
  }

  /** Any one write of a command keeps a reached state reached. */
  lemma WriteReached(host: Host, start: Node, tree: Node, parts: Path, bytes: seq<Byte>)
    requires HashInjective(host) && Reached(host, start, tree) && Validation(host, tree, false).Ok?
    requires WriteAt(tree, parts, bytes).Some?
    requires IsManifest(host, bytes) ==> Launchable(host, start)
    ensures Reached(host, start, WriteAt(tree, parts, bytes).value)
  {
    hide ViewOf, WellFormedTree, Validation, WriteAt, BytesAt, ValidName, IsDerived, IsManifest, Launchable;
    hide SameBundle, PathText;
    var after := WriteAt(tree, parts, bytes).value;
    ReachedTrees(host, start, tree);
    ValidMeansViewed(host, tree, false);
    WriteKeepsBundleExactly(tree, parts, bytes);
    WriteChangesOneFile(tree, parts, bytes);
    DerivedPaths(parts);
    if SameBundle(tree, after) {
      SameBundleReached(host, start, tree, after);
    } else if IsDerived(PathText(parts)) {
      assert ViewOf(after) == ViewOf(tree) by { SameContentSameView(tree, after); }
      FileAfterWrite(tree, parts, bytes, "manifest.json");
      if !IsManifest(host, bytes) { NotManifestIsInvalid(host, after, false); }
    } else {
      ChangedEvidenceIsInvalid(host, tree, parts, bytes, false);
    }
  }

  lemma OutputReached(host: Host, start: Node, tree: Node, output: Output, name: string, bytes: seq<Byte>)
    requires HashInjective(host) && Reached(host, start, tree) && Validation(host, tree, false).Ok? && ValidName(name)
    requires IsManifest(host, bytes) ==> Launchable(host, start)
    ensures Reached(host, start, Fallback(Write(tree, output, name, bytes), tree))
  {
    hide Reached, Validation, WriteAt, ValidName, IsManifest, Launchable;
    ReachedTrees(host, start, tree);
    var parts := Target(output, name);
    if parts.Some? && Write(tree, output, name, bytes).Some? { WriteReached(host, start, tree, parts.value, bytes); }
  }

  lemma ReplayReached(tool: Tool, start: Node, tree: Node, output: Output, backend: Backend)
    requires ToolWorks(tool) && HashInjective(tool.host) && Reached(tool.host, start, tree)
    ensures Reached(tool.host, start, ReplayStep(tool, tree, output, backend).tree)
  {
    hide Reached, Validation, Write, RuntimePinned, EligibilityOf, ValidName, IsDerived, IsManifest, HashInjective;
    ReachedTrees(tool.host, start, tree);
    OutputNames();
    var validated := Validation(tool.host, tree, false);
    if validated.Ok? {
      OutputReached(tool.host, start, tree, output, "replay.json", tool.refusal(validated.value));
      if Launchable(tool.host, tree) {
        ReachedLaunchable(tool.host, start, tree);
        match backend
        case Failed(Some(bytes)) => OutputReached(tool.host, start, tree, output, "replay.json", bytes);
        case Finished(Some(bytes), _) => OutputReached(tool.host, start, tree, output, "replay.json", bytes);
        case _ =>
      }
    }
  }

  lemma CompareReached(tool: Tool, start: Node, tree: Node, source: Source, output: Output)
    requires ToolWorks(tool) && HashInjective(tool.host) && Reached(tool.host, start, tree)
    ensures Reached(tool.host, start, CompareStep(tool, tree, source, output).tree)
  {
    hide Reached, Validation, Write, EligibilityOf, ValidName, IsDerived, IsManifest, HashInjective;
    hide Compare.Verdict, Compare.WellFormedSides;
    ReachedTrees(tool.host, start, tree);
    OutputNames();
    var validated := Validation(tool.host, tree, false);
    if validated.Ok? && Readable(tool, tree, source) {
      OutputReached(tool.host, start, tree, output, "comparison.json",
                    tool.report(validated.value, ExpectedAt(tool, tree), OriginalAt(tool, tree),
                      JudgedReplay(tool, tree, source).value));
    }
  }

  lemma OverwriteReached(host: Host, start: Node, tree: Node, bytes: seq<Byte>)
    requires Reached(host, start, tree)
    ensures Reached(host, start, Fallback(Write(tree, InBundle, "replay.json", bytes), tree))
  {
    hide Reached, WellFormedTree, ViewOf, PutChild, ValidName;
    ReachedTrees(host, start, tree);
    OutputNames();
    if Integrity.Writable(tree, "replay.json") {
      DerivedOutputsAreInvisible(tree, "replay.json", bytes);
      assert SameBundle(tree, WriteTop(tree, "replay.json", bytes));
      SameBundleReached(host, start, tree, WriteTop(tree, "replay.json", bytes));
    }
  }

  lemma NextReached(tool: Tool, start: Node, tree: Node, step: Step)
    requires ToolWorks(tool) && HashInjective(tool.host) && Reached(tool.host, start, tree)
    ensures Reached(tool.host, start, Next(tool, tree, step))
  {
    hide Reached, Validation, ReplayStep, CompareStep, ToolWorks, HashInjective, Accepted, Write;
    ReachedTrees(tool.host, start, tree);
    match step
    case Overwrite(bytes) => OverwriteReached(tool.host, start, tree, bytes);
    case RunReplay(output, backend) => ReplayReached(tool, start, tree, output, backend);
    case RunCompare(source, output) => CompareReached(tool, start, tree, source, output);
    case RunAssert(options, backend) =>
      ReplayReached(tool, start, tree, options.output, backend);
      CompareReached(tool, start, AfterReplay(tool, tree, options, backend).tree, JudgedSource(tree, options),
        InBundle);
  }

  lemma {:induction false} RunFromReached(tool: Tool, start: Node, tree: Node, steps: seq<Step>)
    requires ToolWorks(tool) && HashInjective(tool.host) && Reached(tool.host, start, tree)
    ensures Reached(tool.host, start, Run(tool, tree, steps))
    decreases |steps|
  {
    hide Reached, Next, ToolWorks, HashInjective;
    ReachedTrees(tool.host, start, tree);
    if steps != [] {
      NextReached(tool, start, tree, steps[0]);
      RunFromReached(tool, start, Next(tool, tree, steps[0]), steps[1..]);
    }
  }

  /**
   No run of commands, wherever their outputs go, makes another valid bundle out of a bundle: it keeps
   the bundle, leaves something that does not validate, or, where the backend could be started and
   its output was directed at manifest.json, keeps every file but the manifest.
   */
  lemma RunKeepsBundle(tool: Tool, tree: Node, steps: seq<Step>)
    requires tree.Dir? && WellFormedTree(tree) && ToolWorks(tool) && HashInjective(tool.host)
    ensures Reached(tool.host, tree, Run(tool, tree, steps))
  {
    hide ToolWorks, HashInjective, Run, ViewOf, WellFormedTree, Validation, Launchable;
    RunFromReached(tool, tree, tree, steps);
  }

  /** Outputs that cannot touch the evidence: the default files, and anything outside the bundle. */
  predicate Harmless(output: Output) { output.Inside? ==> output.path in {["replay.json"], ["comparison.json"]} }

  predicate HarmlessStep(step: Step) {
    match step
    case Overwrite(_) => true
    case RunReplay(output, _) => Harmless(output)
    case RunCompare(_, output) => Harmless(output)
    case RunAssert(options, _) => Harmless(options.output)
  }

  lemma HarmlessWrite(tree: Node, output: Output, name: string, bytes: seq<Byte>)
    requires tree.Dir? && WellFormedTree(tree) && Harmless(output) && name in {"replay.json", "comparison.json"}
    ensures SameBundle(tree, Fallback(Write(tree, output, name, bytes), tree))
  {
    hide ViewOf, WellFormedTree, PutChild, ValidName;
    OutputNames();
    var parts := Target(output, name);
    if parts.Some? && WriteAt(tree, parts.value, bytes).Some? {
      var target := parts.value[0];
      assert parts.value == [target];
      assert Integrity.Writable(tree, target);
      DerivedOutputsAreInvisible(tree, target, bytes);
    }
  }

  lemma SameBundleTransitive(a: Node, b: Node, c: Node)
    requires SameBundle(a, b) && SameBundle(b, c)
    ensures SameBundle(a, c)
  {
  }

  lemma HarmlessReplay(tool: Tool, tree: Node, output: Output, backend: Backend)
    requires tree.Dir? && WellFormedTree(tree) && Harmless(output)
    ensures SameBundle(tree, ReplayStep(tool, tree, output, backend).tree)
  {
    hide SameBundle, Validation, Write, RuntimePinned, EligibilityOf, Harmless;
    SameBundleReflexive(tree);
    if Validation(tool.host, tree, false).Ok? {
      HarmlessWrite(tree, output, "replay.json", tool.refusal(Validation(tool.host, tree, false).value));
    }
    match backend
    case Failed(Some(bytes)) => HarmlessWrite(tree, output, "replay.json", bytes);
    case Finished(Some(bytes), _) => HarmlessWrite(tree, output, "replay.json", bytes);
    case _ =>
  }

  lemma HarmlessNext(tool: Tool, tree: Node, step: Step)
    requires tree.Dir? && WellFormedTree(tree) && HarmlessStep(step)
    ensures SameBundle(tree, Next(tool, tree, step))
  {
    hide SameBundle, ReplayStep, CompareStep, AssertStep, Write, WellFormedTree, Harmless;
    match step
    case Overwrite(bytes) =>
      assert Harmless(InBundle) by { DefaultIsHarmless(); }
      HarmlessWrite(tree, InBundle, "replay.json", bytes);
    case RunReplay(output, backend) => HarmlessReplay(tool, tree, output, backend);
    case RunCompare(source, output) => HarmlessCompare(tool, tree, source, output);
    case RunAssert(options, backend) => HarmlessAssert(tool, tree, options, backend);
  }

  lemma DefaultIsHarmless()
    ensures Harmless(InBundle)
  {
  }

  lemma HarmlessAssert(tool: Tool, tree: Node, options: AssertOptions, backend: Backend)
    requires tree.Dir? && WellFormedTree(tree) && Harmless(options.output)
    ensures SameBundle(tree, AssertStep(tool, tree, options, backend).tree)
  {
    hide SameBundle, Validation, ReplayStep, CompareStep, Accepted, WellFormedTree, Harmless, Summary, JudgedReplay;
    DefaultIsHarmless();
    HarmlessReplay(tool, tree, options.output, backend);
    SameBundleReflexive(tree);
    var after := AfterReplay(tool, tree, options, backend).tree;
    SameBundleTrees(tree, after);
    HarmlessCompare(tool, after, JudgedSource(tree, options), InBundle);
    SameBundleTransitive(tree, after, CompareStep(tool, after, JudgedSource(tree, options), InBundle).tree);
  }

  lemma SameBundleReflexive(tree: Node)
    requires tree.Dir? && WellFormedTree(tree)
    ensures SameBundle(tree, tree)
  {
  }

  lemma HarmlessCompare(tool: Tool, tree: Node, source: Source, output: Output)
    requires tree.Dir? && WellFormedTree(tree) && Harmless(output)
    ensures SameBundle(tree, CompareStep(tool, tree, source, output).tree)
  {
    hide SameBundle, Validation, Write, EligibilityOf, Compare.Verdict, Harmless, JudgedReplay, FileAt;
    SameBundleReflexive(tree);
    var validated := Validation(tool.host, tree, false);
    if validated.Ok? && Readable(tool, tree, source) {
      HarmlessWrite(tree, output, "comparison.json",
                    tool.report(validated.value, ExpectedAt(tool, tree), OriginalAt(tool, tree),
                      JudgedReplay(tool, tree, source).value));
    }
  }

  /** Runs whose outputs are harmless keep the bundle, whatever the hash is worth. */
  lemma {:induction false} HarmlessRunKeepsBundle(tool: Tool, tree: Node, steps: seq<Step>)
    requires tree.Dir? && WellFormedTree(tree) && forall step :: step in steps ==> HarmlessStep(step)
    ensures SameBundle(tree, Run(tool, tree, steps))
    decreases |steps|
  {
    hide SameBundle, Next, HarmlessStep;
    if steps == [] {
      SameBundleReflexive(tree);
    } else {
      HarmlessNext(tool, tree, steps[0]);
      var next := Next(tool, tree, steps[0]);
      SameBundleTrees(tree, next);
      HarmlessRunKeepsBundle(tool, next, steps[1..]);
      SameBundleTransitive(tree, next, Run(tool, next, steps[1..]));
    }
  }

  ghost function ReportOf(tool: Tool, tree: Node, source: Source): seq<Byte>
    requires tree.Dir? && Validation(tool.host, tree, false).Ok? && Readable(tool, tree, source)
  {
    var manifest := Validation(tool.host, tree, false).value;
    tool.report(manifest, ExpectedAt(tool, tree), OriginalAt(tool, tree), JudgedReplay(tool, tree, source).value)
  }

  lemma ComparisonWrites(tool: Tool, tree: Node, source: Source, output: Output)
    requires tree.Dir? && CompareStep(tool, tree, source, InBundle).outcome.Compared?
    ensures Validation(tool.host, tree, false).Ok? && Readable(tool, tree, source)
    ensures var written := Write(tree, output, "comparison.json", ReportOf(tool, tree, source));
      CompareStep(tool, tree, source, output) ==
        if written.None? then CompareResult(tree, CompareError)
        else CompareResult(written.value, CompareStep(tool, tree, source, InBundle).outcome)
  {
    hide Validation, JudgedReplay, FileAt, EligibilityOf, Compare.Verdict, Write;
  }

  /**
   `compare B --out B/expected.json`, or any other file of the evidence, does what it is told: it gives
   the verdict it would have given, and where it could write the bundle validates afterwards only if
   the file held that very report before.
   */
  lemma CompareIntoEvidence(tool: Tool, tree: Node, source: Source, path: Path)
    requires tree.Dir? && WellFormedTree(tree) && HashInjective(tool.host) && path != [] && !IsDerived(PathText(path))
    requires CompareStep(tool, tree, source, InBundle).outcome.Compared?
    ensures Validation(tool.host, tree, false).Ok? && Readable(tool, tree, source)
    ensures var step := CompareStep(tool, tree, source, Inside(path));
      && (BytesAt(tree, path).Some? ==> step.outcome == CompareStep(tool, tree, source, InBundle).outcome)
      && (step.outcome.Compared? ==>
            (Validation(tool.host, step.tree, false).Ok? <==>
              BytesAt(tree, path) == Some(ReportOf(tool, tree, source))))
  {
    hide Validation, HashInjective, ValidName, WriteAt, BytesAt, CompareStep, WellFormedTree, IsDerived;
    hide PathText, Readable, ReportOf;
    ComparisonWrites(tool, tree, source, Inside(path));
    var report := ReportOf(tool, tree, source);
    if BytesAt(tree, path).Some? { FileCanBeReplaced(tree, path, report); }
    if WriteAt(tree, path, report).Some? { EvidenceReplaced(tool.host, tree, path, report); }
  }

  lemma {:induction false} FileCanBeReplaced(tree: Node, parts: seq<string>, bytes: seq<Byte>)
    requires tree.Dir? && BytesAt(tree, parts).Some?
    ensures WriteAt(tree, parts, bytes).Some?
    decreases |parts|
  {
    hide BytesAt;
    BytesBelow(tree, parts);
    var child := Child(tree.children, parts[0]).value;
    NoBytes(child, parts[1..]);
    if child.File? {
      FileBelow(child.bytes, parts[1..]);
    } else {
      BytesBelow(child, []);
      FileCanBeReplaced(child, parts[1..], bytes);
    }
  }

  lemma NoBytes(node: Node, parts: seq<string>)
    ensures !node.File? && !node.Dir? ==> BytesAt(node, parts) == None
  {
  }

  lemma EvidenceReplaced(host: Host, tree: Node, path: Path, bytes: seq<Byte>)
    requires tree.Dir? && WellFormedTree(tree) && HashInjective(host) && Validation(host, tree, false).Ok?
    requires WriteAt(tree, path, bytes).Some? && !IsDerived(PathText(path))
    ensures Validation(host, WriteAt(tree, path, bytes).value, false).Ok? <==> BytesAt(tree, path) == Some(bytes)
  {
    hide Validation, ViewOf, BytesAt, WellFormedTree, HashInjective, ValidName, IsDerived, WriteAt, PathText;
    hide SameBundle;
    ValidMeansViewed(host, tree, false);
    var after := WriteAt(tree, path, bytes).value;
    WriteKeepsBundleExactly(tree, path, bytes);
    DerivedPaths(path);
    if SameBundle(tree, after) {
      SameBundleSameValidation(host, tree, after, false);
    } else {
      ChangedEvidenceIsInvalid(host, tree, path, bytes, false);
    }
  }

  // ---------------------------------------------------------------------------------------
  // What a passing assertion is worth

  lemma DefaultAccepts(status: Compare.Fidelity)
    ensures StatusText(status) in Accepted("") <==> status in {Compare.EXACT, Compare.HIGH_FIDELITY}
  {
    hide Split;
    var parts := ["EXACT", "HIGH_FIDELITY"];
    SplitJoin(parts, ',');
    assert Join(parts, ',') == "EXACT,HIGH_FIDELITY" by { assert parts[..1] == ["EXACT"]; }
    assert Accepted("") == parts;
    assert |"EXACT"| == 5 && |"HIGH_FIDELITY"| == 13 && |"PARTIAL"| == 7 && |"FAILED"| == 6 && |"UNSUPPORTED"| == 11;
  }

  lemma StatusNames(status: Compare.Fidelity)
    ensures StatusText(status) == "EXACT" <==> status.EXACT?
    ensures StatusText(status) == "HIGH_FIDELITY" <==> status.HIGH_FIDELITY?
    ensures StatusText(status) == "PARTIAL" <==> status.PARTIAL?
    ensures StatusText(status) == "FAILED" <==> status.FAILED?
    ensures StatusText(status) == "UNSUPPORTED" <==> status.UNSUPPORTED?
  {
    assert |"EXACT"| == 5 && |"HIGH_FIDELITY"| == 13 && |"PARTIAL"| == 7 && |"FAILED"| == 6 && |"UNSUPPORTED"| == 11;
  }

  /** An accept list names the statuses it accepts, separated by commas. */
  lemma AcceptsListed(names: seq<string>, status: Compare.Fidelity)
    requires names != [] && (forall n :: n in names ==> ',' !in n) && Join(names, ',') != ""
    ensures StatusText(status) in Accepted(Join(names, ',')) <==> StatusText(status) in names
  {
    hide Split, Join, StatusText;
    SplitJoin(names, ',');
  }

  /** For any accept list, an assertion ends in the compared status and passes exactly when the list names it. */
  lemma AssertGate(tool: Tool, tree: Node, options: AssertOptions, backend: Backend)
    requires tree.Dir?
    ensures var outcome := AssertStep(tool, tree, options, backend).outcome;
      var after := AfterReplay(tool, tree, options, backend).tree;
      !outcome.AssertError? ==>
        && CompareStep(tool, after, JudgedSource(tree, options), InBundle).outcome == Compared(outcome.status)
        && (outcome.Passed? <==> StatusText(outcome.status) in Accepted(options.accept))
  {
    hide Validation, CompareStep, Accepted, StatusText, AfterReplay, JudgedSource, JudgedReplay;
  }

  /** A result as an assertion reports it. */
  predicate Reports(text: string, success: Field<bool>, error: Json.Json) {
    if success == Is(true) then text == "SUCCESS"
    else if error.Null? then text == "FAIL null"
    else
      match Compare.CanonicalError(error)
      case Ok(Some(canonical)) => text == "FAIL " + canonical
      case _ => false
  }

  /** What a passing assertion reports of the recorded and of the judged execution. */
  lemma PassedReports(tool: Tool, tree: Node, options: AssertOptions, backend: Backend)
    requires tree.Dir? && AssertStep(tool, tree, options, backend).outcome.Passed?
    ensures FileAt(tree, "expected.json").Some? && Judged(tool, tree, options, backend).Some?
    ensures var outcome, expected := AssertStep(tool, tree, options, backend).outcome, ExpectedAt(tool, tree);
      var replay := Judged(tool, tree, options, backend).value;
      Reports(outcome.expected, expected.success, expected.error) &&
        Reports(outcome.actual, replay.success, replay.error)
  {
    hide Validation, CompareStep, Accepted, StatusText, AfterReplay, JudgedSource, JudgedReplay, Reports, ExpectedAt;
    hide Compare.CanonicalError, FileAt;
    ValidEvidence(tool.host, tree, true);
    var expected := ExpectedAt(tool, tree);
    RereadsSame(tool, AfterReplay(tool, tree, options, backend).tree, JudgedSource(tree, options));
    var replay := Judged(tool, tree, options, backend).value;
    ResultReports(expected.success, expected.error);
    ResultReports(replay.success, replay.error);
  }

  lemma ResultReports(success: Field<bool>, error: Json.Json)
    ensures Compare.CanonicalError(error).Ok? ==>
      Reports(ResultText(success, Compare.CanonicalError(error).value), success, error)
  {
    hide Compare.CanonicalError;
    Compare.NoErrorMeetsOnlyNull(error);
    assert "FAIL " + "null" == "FAIL null";
  }

  /** Where the named replay file is there and no new run is asked for, none takes place: that file is judged. */
  lemma AssertWithoutRun(tool: Tool, tree: Node, options: AssertOptions, backend: Backend, backend': Backend)
    requires tree.Dir? && !options.rerun && Exists(tree, Requested(options))
    ensures AssertStep(tool, tree, options, backend) == AssertStep(tool, tree, options, backend')
    ensures Judged(tool, tree, options, backend) ==
      JudgedReplay(tool, tree, if options.replay.None? then Bundled else options.replay.value)
  {
    hide Validation, CompareStep, Accepted, StatusText, JudgedReplay;
  }

  /** Where it is not, whatever path named it, a new run takes place and the bundle's replay.json is judged. */
  lemma AssertRunsWhereMissing(tool: Tool, tree: Node, options: AssertOptions, backend: Backend)
    requires tree.Dir?
    requires match options.replay
      case Some(Other(entry)) => entry.None?
      case _ => Child(tree.children, "replay.json").None?
    ensures AssertStep(tool, tree, options, backend) == AssertStep(tool, tree, options.(rerun := true), backend)
    ensures Judged(tool, tree, options, backend) ==
      JudgedReplay(tool, ReplayStep(tool, tree, options.output, backend).tree, Bundled)
  {
    hide Validation, CompareStep, Accepted, StatusText, JudgedReplay, ReplayStep;
  }

  /** The replay an assertion judges, in the directory as the assertion's own replay left it. */
  ghost function Judged(tool: Tool, tree: Node, options: AssertOptions, backend: Backend): Option<Compare.Replay>
    requires tree.Dir?
  {
    JudgedReplay(tool, AfterReplay(tool, tree, options, backend).tree, JudgedSource(tree, options))
  }

  lemma StrictIsStronger(host: Host, tree: Node)
    requires tree.Dir?
    ensures Validation(host, tree, true).Ok? <==>
      Validation(host, tree, false).Ok? && RuntimePinned(Validation(host, tree, false).value)
    ensures Validation(host, tree, true).Ok? ==> Validation(host, tree, false) == Validation(host, tree, true)
  {
    hide IntegrityHolds, CrossCheck, HasSignature, TextIn, RecordedHash, CoreHash, RuntimePinned, RegularFile, ReadTop;
  }

  lemma AfterReplayReached(tool: Tool, start: Node, tree: Node, options: AssertOptions, backend: Backend)
    requires ToolWorks(tool) && HashInjective(tool.host) && Reached(tool.host, start, tree)
    ensures Reached(tool.host, start, AfterReplay(tool, tree, options, backend).tree)
  {
    hide Reached, ReplayStep, ToolWorks, HashInjective;
    ReachedTrees(tool.host, start, tree);
    ReplayReached(tool, start, tree, options.output, backend);
  }

  /** Where a state reached from a bundle still validates, it holds the bundle's evidence. */
  lemma ReachedEvidence(host: Host, start: Node, tree: Node, name: string)
    requires Reached(host, start, tree) && Validation(host, tree, false).Ok?
    requires name in {"expected.json", "original-execution.json"}
    ensures FileAt(tree, name).Some? && FileAt(start, name) == FileAt(tree, name)
  {
    hide Reached, Validation, ViewOf, WellFormedTree, FileAt, ValidName, IsDerived;
    ReachedTrees(host, start, tree);
    ValidMeansViewed(host, tree, false);
    RequiredFiles();
    OutputNames();
    assert name != "manifest.json" by { assert |"original-execution.json"| > |"manifest.json"|; }
    RequiredIsViewed(name);
    FileAtIsViewed(tree, name);
    FileAtIsViewed(start, name);
    ValidMeansRegular(host, tree, false, name);
    FileReads(host, tree, name);
  }

  /**
   An assertion under the default accept list passes exactly when the bundle validates with its pins;
   the replay it runs, if any, ends in a refusal or a result and leaves a directory that validates
   and can take the comparison; and the judged replay earns EXACT or HIGH_FIDELITY against the
   evidence the bundle held before.
   */
  lemma AssertPassesExactly(tool: Tool, tree: Node, options: AssertOptions, backend: Backend)
    requires tree.Dir? && WellFormedTree(tree) && ToolWorks(tool) && HashInjective(tool.host) && options.accept == ""
    ensures AssertStep(tool, tree, options, backend).outcome.Passed? <==>
      && Validation(tool.host, tree, true).Ok?
      && (AfterReplay(tool, tree, options, backend).outcome.Refused? ||
           AfterReplay(tool, tree, options, backend).outcome.Ran?)
      && Validation(tool.host, AfterReplay(tool, tree, options, backend).tree, false).Ok?
      && Integrity.Writable(AfterReplay(tool, tree, options, backend).tree, "comparison.json")
      && Judged(tool, tree, options, backend).Some?
      && FileAt(tree, "expected.json").Some? && FileAt(tree, "original-execution.json").Some?
      && Compare.Verdict(ExpectedAt(tool, tree), OriginalAt(tool, tree), Judged(tool, tree, options, backend).value,
                         EligibilityOf(Validation(tool.host, AfterReplay(tool, tree, options, backend).tree,
                           false).value))
           in {Ok(Compare.EXACT), Ok(Compare.HIGH_FIDELITY)}
    ensures var outcome := AssertStep(tool, tree, options, backend).outcome;
      outcome.Passed? ==> outcome.expected == outcome.actual
  {
    hide Validation, AfterReplay, FileAt, JudgedReplay, Compare.Verdict, Accepted, StatusText, EligibilityOf;
    hide Compare.CanonicalError, ResultText, WellFormedTree, PutChild;
    hide Reached, ToolWorks, HashInjective, ValidName, IsDerived, ViewOf;
    var after := AfterReplay(tool, tree, options, backend).tree;
    StartReached(tool.host, tree);
    AfterReplayReached(tool, tree, tree, options, backend);
    if Validation(tool.host, after, false).Ok? {
      ReachedEvidence(tool.host, tree, after, "expected.json");
      ReachedEvidence(tool.host, tree, after, "original-execution.json");
      DirectWrite(after, "comparison.json");
      RereadsSame(tool, after, JudgedSource(tree, options));
      if Judged(tool, tree, options, backend).Some? {
        VerdictMeasured(ExpectedAt(tool, tree), OriginalAt(tool, tree), Judged(tool, tree, options, backend).value,
                        EligibilityOf(Validation(tool.host, after, false).value));
      }
    }
    forall status ensures StatusText(status) in Accepted("") <==> status in {Compare.EXACT, Compare.HIGH_FIDELITY} {
      DefaultAccepts(status);
    }
  }

  lemma RereadsSame(tool: Tool, tree: Node, source: Source)
    requires tree.Dir?
    ensures JudgedReplay(tool, CompareStep(tool, tree, source, InBundle).tree, source) ==
      JudgedReplay(tool, tree, source)
  {
    hide Validation, FileAt, EligibilityOf, Compare.Verdict, WriteAt, ValidName, IsDerived;
    OutputNames();
    assert ["comparison.json"][0] != ["replay.json"][0];
    var step := CompareStep(tool, tree, source, InBundle);
    if step.outcome.Compared? {
      FileAfterWrite(tree, ["comparison.json"], ReportOf(tool, tree, source), "replay.json");
    }
  }

  lemma VerdictMeasured(
    expected: Compare.Expected, original: Compare.Original, replay: Compare.Replay, eligibility: string)
    ensures (Compare.Verdict(expected, original, replay, eligibility) in
             {Ok(Compare.EXACT), Ok(Compare.HIGH_FIDELITY)}) ==>
      Compare.CanonicalError(expected.error).Ok? && expected.success == replay.success &&
      Compare.CanonicalError(expected.error) == Compare.CanonicalError(replay.error)
  {
    hide Compare.CanonicalError, Compare.PostBalanceChecks, Compare.PostTokenChecks, Lcs.Similarity, Json.Stable;
    hide Compare.DifferencePercent, Compare.CanonicalReturnData;
  }

  lemma StartReached(host: Host, tree: Node)
    requires tree.Dir? && WellFormedTree(tree)
    ensures Reached(host, tree, tree)
  {
    SameBundleReflexive(tree);
  }

  lemma DirectWrite(tree: Node, name: string)
    requires tree.Dir?
    ensures forall bytes :: Write(tree, InBundle, name, bytes).Some? <==> Integrity.Writable(tree, name)
  {
  }

  /**
   Over every run, with replay.json overwritten at will between commands and outputs going anywhere,
   the bundle's own files included: an assertion under the default accept list passes only if the
   bundle as it first was is valid, pinned and eligible, and a replay the assertion judged agrees
   with that bundle on result, error, balances, token balances and inner instructions, its log
   within 5% and its compute units within 1%.
   */
  lemma PassingAssertionOverRuns(tool: Tool, tree: Node, steps: seq<Step>, options: AssertOptions, backend: Backend)
    requires tree.Dir? && WellFormedTree(tree) && ToolWorks(tool) && HashInjective(tool.host) && options.accept == ""
    requires AssertStep(tool, Run(tool, tree, steps), options, backend).outcome.Passed?
    ensures Launchable(tool.host, tree) && Validation(tool.host, tree, true).Ok?
    ensures FileAt(tree, "expected.json").Some? && FileAt(tree, "original-execution.json").Some?
    ensures Judged(tool, Run(tool, tree, steps), options, backend).Some?
    ensures var expected, original := ExpectedAt(tool, tree), OriginalAt(tool, tree);
      var replay := Judged(tool, Run(tool, tree, steps), options, backend).value;
      && replay.status != Some("UNSUPPORTED")
      && expected.success == replay.success
      && Compare.CanonicalError(expected.error).Ok? &&
         Compare.CanonicalError(expected.error) == Compare.CanonicalError(replay.error)
      && Compare.ComputeWithin(expected.computeUnits, replay.computeUnits)
      && Compare.StateHolds(original, replay)
      && Json.Denote(Compare.OrNoItems(expected.innerInstructions)) ==
         Json.Denote(Compare.OrNoItems(replay.innerInstructions))
      && Lcs.Similarity(Compare.Lines(expected.logs), Compare.Lines(replay.logs)) >= 0.95
  {
    hide Compare.ComputeWithin;
    hide Validation, AssertStep, AfterReplay, FileAt, Judged, Run, EligibilityOf, WellFormedTree, Reached, Launchable;
    hide Compare.CanonicalError, Compare.StateHolds, Json.Denote, Compare.Verdict, Lcs.Similarity;
    hide Compare.WellFormedSides;
    var now := Run(tool, tree, steps);
    RunKeepsBundle(tool, tree, steps);
    ReachedTrees(tool.host, tree, now);
    AssertPassesExactly(tool, now, options, backend);
    StrictIsStronger(tool.host, now);
    ReachedEvidence(tool.host, tree, now, "expected.json");
    ReachedEvidence(tool.host, tree, now, "original-execution.json");
    JudgedWellFormed(tool, now, options, backend, FileAt(tree, "expected.json").value);
    var after := AfterReplay(tool, now, options, backend).tree;
    Compare.PassingMeans(ExpectedAt(tool, tree), OriginalAt(tool, tree), Judged(tool, now, options, backend).value,
                         EligibilityOf(Validation(tool.host, after, false).value));
    AfterReplayReached(tool, tree, now, options, backend);
    PinnedAndEligible(tool.host, tree, now, after);
  }

  lemma PinnedAndEligible(host: Host, start: Node, now: Node, after: Node)
    requires Reached(host, start, now) && Validation(host, now, true).Ok?
    requires Reached(host, start, after) && Validation(host, after, false).Ok?
    requires EligibilityOf(Validation(host, after, false).value) != "UNSUPPORTED"
    ensures Launchable(host, start) && Validation(host, start, true).Ok?
  {
    hide Validation, SameBundle, EligibilityOf, RuntimePinned, WellFormedTree, ViewOf;
    StrictIsStronger(host, start);
    if SameBundle(start, now) { SameBundleSameValidation(host, start, now, true); }
    if SameBundle(start, after) { SameBundleSameValidation(host, start, after, false); }
    StrictIsStronger(host, now);
  }

  /** A fresh assertion under the default accept list passes only after a backend that finished and printed a result. */
  lemma FreshPassNeedsResult(tool: Tool, tree: Node, options: AssertOptions, backend: Backend)
    requires tree.Dir? && WellFormedTree(tree) && ToolWorks(tool) && HashInjective(tool.host) && options.accept == ""
    requires Reruns(tree, options) && AssertStep(tool, tree, options, backend).outcome.Passed?
    ensures Launchable(tool.host, tree) && PrintsResult(backend)
    ensures Leaves(backend).Some? ==> BackendWrite(tree, options.output, Leaves(backend).value).Some?
  {
    hide Validation, AssertStep, FileAt, Judged, EligibilityOf, WellFormedTree, Reached, Launchable, BackendWrite;
    hide Reruns;
    hide Compare.Verdict, ReplayStep, ToolWorks, HashInjective, Run;
    AssertPassesExactly(tool, tree, options, backend);
    assert Run(tool, tree, []) == tree by { NoSteps(tool, tree); }
    PassingAssertionOverRuns(tool, tree, [], options, backend);
    ReplayOutcomeExactly(tool, tree, options.output, backend);
  }

  lemma NoSteps(tool: Tool, tree: Node)
    requires tree.Dir?
    ensures Run(tool, tree, []) == tree
  {
  }

  lemma JudgedWellFormed(tool: Tool, tree: Node, options: AssertOptions, backend: Backend, expected: seq<Byte>)
    requires tree.Dir? && ToolWorks(tool) && Judged(tool, tree, options, backend).Some?
    ensures Compare.WellFormedSides(tool.expected(expected), Judged(tool, tree, options, backend).value)
  {
    hide AfterReplay, Compare.WellFormedSides, IsManifest;
  }

  /** Two steps that differ in nothing but what the backend does. */
  predicate SameButBackend(step: Step, step': Step) {
    match (step, step')
    case (RunReplay(output, _), RunReplay(output', _)) => output == output'
    case (RunAssert(options, _), RunAssert(options', _)) => options == options'
    case _ => step == step'
  }

  lemma NextIgnoresBackend(tool: Tool, tree: Node, step: Step, step': Step)
    requires tree.Dir? && !Launchable(tool.host, tree) && SameButBackend(step, step')
    ensures Next(tool, tree, step) == Next(tool, tree, step')
  {
    hide Validation, Write, BackendWrite, RuntimePinned, EligibilityOf, CompareStep, Accepted;
  }

  lemma {:induction false} RunsIgnoreBackend(tool: Tool, start: Node, tree: Node, steps: seq<Step>, steps': seq<Step>)
    requires ToolWorks(tool) && HashInjective(tool.host) && Reached(tool.host, start, tree) &&
      !Launchable(tool.host, start)
    requires |steps| == |steps'| && forall i :: 0 <= i < |steps| ==> SameButBackend(steps[i], steps'[i])
    ensures Run(tool, tree, steps) == Run(tool, tree, steps')
    decreases |steps|
  {
    hide Reached, Next, ToolWorks, HashInjective, Launchable, SameButBackend;
    ReachedTrees(tool.host, start, tree);
    if Launchable(tool.host, tree) {
      ReachedLaunchable(tool.host, start, tree);
    } else if steps != [] {
      NextIgnoresBackend(tool, tree, steps[0], steps'[0]);
      NextReached(tool, start, tree, steps[0]);
      RunsIgnoreBackend(tool, start, Next(tool, tree, steps[0]), steps[1..], steps'[1..]);
    }
  }

  /**
   A bundle that is not valid, pinned and eligible never reaches the backend: over any run of commands,
   what a backend would have done leaves no trace in the directory.
   */
  lemma IneligibleRunsIgnoreBackend(tool: Tool, tree: Node, steps: seq<Step>, steps': seq<Step>)
    requires tree.Dir? && WellFormedTree(tree) && ToolWorks(tool) && HashInjective(tool.host) &&
      !Launchable(tool.host, tree)
    requires |steps| == |steps'| && forall i :: 0 <= i < |steps| ==> SameButBackend(steps[i], steps'[i])
    ensures Run(tool, tree, steps) == Run(tool, tree, steps')
  {
    hide Reached, Run, ToolWorks, HashInjective, Launchable, SameButBackend, WellFormedTree;
    StartReached(tool.host, tree);
    RunsIgnoreBackend(tool, tree, tree, steps, steps');
  }

  // ---------------------------------------------------------------------------------------
  // Fresh assertions

  lemma BackendWriteAt(tree: Node, output: Output, bytes: seq<Byte>)
    requires tree.Dir? && BackendWrite(tree, output, bytes).Some?
    ensures FileAt(BackendWrite(tree, output, bytes).value, "replay.json") ==
      if Target(output, "replay.json") == Some(["replay.json"]) then Some(bytes) else FileAt(tree, "replay.json")
  {
    hide WriteAt, FileAt;
    var parts := Target(output, "replay.json");
    if parts.Some? { FileAfterWrite(tree, parts.value, bytes, "replay.json"); }
  }

  lemma BackendWritesReplay(tree: Node, output: Output, bytes: seq<Byte>)
    requires tree.Dir? && Target(output, "replay.json") == Some(["replay.json"])
    ensures BackendWrite(tree, output, bytes).Some? <==> Integrity.Writable(tree, "replay.json")
    ensures !Integrity.Writable(tree, "replay.json") ==> FileAt(tree, "replay.json") == None
  {
    assert ["replay.json"][..0] == [];
  }

  /** The output is replay.json of the bundle, however it was named, and can be written. */
  predicate WritesReplay(tree: Node, output: Output)
    requires tree.Dir?
  {
    Target(output, "replay.json") == Some(["replay.json"]) && Integrity.Writable(tree, "replay.json")
  }

  /** What a fresh assertion judges, given what its own execution wrote. */
  lemma FreshJudges(tool: Tool, tree: Node, options: AssertOptions, bytes: seq<Byte>)
    requires tree.Dir? && options.rerun && Launchable(tool.host, tree)
    ensures Judged(tool, tree, options, Finished(Some(bytes), true)) ==
      if WritesReplay(tree, options.output) then Reading(tool, bytes)
      else JudgedReplay(tool, tree, Bundled)
  {
    hide Validation, RuntimePinned, EligibilityOf, BackendWrite, Target, FileAt, Reading;
    var written := BackendWrite(tree, options.output, bytes);
    if written.Some? { BackendWriteAt(tree, options.output, bytes); }
    if Target(options.output, "replay.json") ==
      Some(["replay.json"]) { BackendWritesReplay(tree, options.output, bytes); }
  }

  /**
   `--rerun` (the source's fresh option) promises a judgement of a new execution. The assertion judges
   what its backend wrote, whatever that is, if and only if the output is replay.json of the bundle and
   can be written; otherwise it judges what replay.json held before. `first` and `second` are any two
   outputs that read differently.
   */
  lemma FreshJudgesNewReplay(tool: Tool, tree: Node, options: AssertOptions, first: seq<Byte>, second: seq<Byte>)
    requires tree.Dir? && options.rerun && Launchable(tool.host, tree)
    requires Reading(tool, first) != Reading(tool, second)
    ensures (forall bytes :: Judged(tool, tree, options, Finished(Some(bytes), true)) == Reading(tool, bytes)) <==>
      WritesReplay(tree, options.output)
  {
    hide Judged, JudgedReplay, Reading, WritesReplay, Launchable;
    forall bytes
      ensures Judged(tool, tree, options, Finished(Some(bytes), true)) ==
        if WritesReplay(tree, options.output) then Reading(tool, bytes)
        else JudgedReplay(tool, tree, Bundled)
    {
      FreshJudges(tool, tree, options, bytes);
    }
    if forall bytes :: Judged(tool, tree, options, Finished(Some(bytes), true)) == Reading(tool, bytes) {
      assert Judged(tool, tree, options, Finished(Some(first), true)) == Reading(tool, first);
      assert Judged(tool, tree, options, Finished(Some(second), true)) == Reading(tool, second);
    }
  }

  /** What an assertion makes of a replay.json that can be read and compared. */
  lemma AssertOnReplay(tool: Tool, tree: Node, bytes: seq<Byte>, status: Compare.Fidelity, backend: Backend)
    requires tree.Dir? && Validation(tool.host, tree, true).Ok? && Integrity.Writable(tree, "comparison.json")
    requires FileAt(tree, "replay.json") == Some(bytes) && Reading(tool, bytes).Some?
    requires FileAt(tree, "expected.json").Some? && FileAt(tree, "original-execution.json").Some?
    requires Compare.Verdict(ExpectedAt(tool, tree), OriginalAt(tool, tree), Reading(tool, bytes).value,
                             EligibilityOf(Validation(tool.host, tree, true).value)) == Ok(status)
    ensures CompareStep(tool, tree, Bundled, InBundle).outcome == Compared(status)
    ensures var outcome := AssertStep(tool, tree, AssertOptions(None, false, InBundle, ""), backend).outcome;
      if status in {Compare.EXACT, Compare.HIGH_FIDELITY} then outcome.Passed? && outcome.status == status
      else outcome == Regression(status)
  {
    hide Validation, Reading, EligibilityOf, Compare.Verdict, Accepted, StatusText, PutChild, Compare.CanonicalError;
    hide ResultText;
    StrictIsStronger(tool.host, tree);
    DefaultAccepts(status);
    DirectWrite(tree, "comparison.json");
    RereadsSame(tool, tree, Bundled);
    VerdictMeasured(ExpectedAt(tool, tree), OriginalAt(tool, tree), Reading(tool, bytes).value,
                    EligibilityOf(Validation(tool.host, tree, true).value));
  }

  lemma FreshReplays(tool: Tool, tree: Node, accept: string, bytes: seq<Byte>)
    requires tree.Dir? && Launchable(tool.host, tree) && Integrity.Writable(tree, "replay.json")
    ensures AfterReplay(tool, tree, AssertOptions(None, true, InBundle, accept), Finished(Some(bytes), true)) ==
            ReplayResult(WriteTop(tree, "replay.json", bytes), Ran)
    ensures JudgedSource(tree, AssertOptions(None, true, InBundle, accept)) == Bundled
  {
    hide Validation, PutChild, EligibilityOf, RuntimePinned;
    assert ["replay.json"][..0] == [];
  }

  lemma WrittenReplay(host: Host, tree: Node, bytes: seq<Byte>)
    requires tree.Dir? && WellFormedTree(tree) && Launchable(host, tree) && Integrity.Writable(tree, "replay.json")
    ensures var after := WriteTop(tree, "replay.json", bytes);
      && SameBundle(tree, after) && FileAt(after, "replay.json") == Some(bytes)
      && Validation(host, tree, true).Ok? && Validation(host, after, true) == Validation(host, tree, true)
      && FileAt(after, "expected.json") == FileAt(tree, "expected.json")
  {
    hide Validation, ViewOf, WellFormedTree, PutChild, EligibilityOf, RuntimePinned, ValidName, IsDerived;
    OutputNames();
    DerivedOutputsAreInvisible(tree, "replay.json", bytes);
    var after := WriteTop(tree, "replay.json", bytes);
    StrictIsStronger(host, tree);
    assert SameBundle(tree, after);
    SameBundleSameValidation(host, tree, after, true);
  }

  /** A fresh assertion whose execution goes to replay.json is an assertion on what was written there. */
  lemma FreshIsAssertOnReplay(tool: Tool, tree: Node, accept: string, bytes: seq<Byte>)
    requires tree.Dir? && WellFormedTree(tree) && Launchable(tool.host, tree) && Integrity.Writable(tree, "replay.json")
    ensures var after := WriteTop(tree, "replay.json", bytes);
      && SameBundle(tree, after) && FileAt(after, "replay.json") == Some(bytes)
      && AssertStep(tool, tree, AssertOptions(None, true, InBundle, accept), Finished(Some(bytes), true)) ==
         AssertStep(tool, after, AssertOptions(None, false, InBundle, accept), NotBuilt)
  {
    hide Validation, WellFormedTree, PutChild, CompareStep, Accepted, StatusText, SameBundle, Launchable, Summary;
    hide JudgedReplay;
    FreshReplays(tool, tree, accept, bytes);
    WrittenReplay(tool.host, tree, bytes);
    ValidEvidence(tool.host, tree, true);
  }

  /** With `--fresh --out x` and a replay.json in place, the outcome is that of an assertion that runs nothing. */
  lemma RedirectedFreshRepeatsOldVerdict(tool: Tool, tree: Node, accept: string, written: Option<seq<Byte>>)
    requires tree.Dir? && Launchable(tool.host, tree) && Exists(tree, Bundled)
    ensures AssertStep(tool, tree, AssertOptions(None, true, Elsewhere(true), accept), Finished(written, true)) ==
            AssertStep(tool, tree, AssertOptions(None, false, InBundle, accept), NotBuilt)
  {
    hide Validation, RuntimePinned, EligibilityOf, CompareStep, Accepted, StatusText;
  }

  // ---------------------------------------------------------------------------------------
  // Comparisons and eligibility

  /** The comparison in the bundle can take place. */
  ghost predicate Comparable(tool: Tool, tree: Node, source: Source)
    requires tree.Dir?
  {
    Validation(tool.host, tree, false).Ok? && Readable(tool, tree, source) &&
      Integrity.Writable(tree, "comparison.json")
  }

  lemma ComparedVerdict(tool: Tool, tree: Node, source: Source, status: Compare.Fidelity)
    requires tree.Dir? && Comparable(tool, tree, source)
    ensures CompareStep(tool, tree, source, InBundle).outcome == Compared(status) <==>
      Compare.Verdict(ExpectedAt(tool, tree), OriginalAt(tool, tree), JudgedReplay(tool, tree, source).value,
                      EligibilityOf(Validation(tool.host, tree, false).value)) == Ok(status)
  {
    hide Validation, Compare.Verdict, JudgedReplay, FileAt, EligibilityOf, PutChild;
    DirectWrite(tree, "comparison.json");
  }

  /**
   A comparison reports UNSUPPORTED exactly when the replay file is a refusal, or the manifest calls the
   bundle ineligible and result and error agree; the runtime pins have no part in it.
   */
  lemma CompareUnsupportedExactly(tool: Tool, tree: Node, source: Source)
    requires tree.Dir? && Comparable(tool, tree, source)
    ensures var expected, replay := ExpectedAt(tool, tree), JudgedReplay(tool, tree, source).value;
      CompareStep(tool, tree, source, InBundle).outcome == Compared(Compare.UNSUPPORTED) <==>
        || replay.status == Some("UNSUPPORTED")
        || (EligibilityOf(Validation(tool.host, tree, false).value) == "UNSUPPORTED" &&
             expected.success == replay.success &&
            Compare.CanonicalError(expected.error).Ok? &&
              Compare.CanonicalError(expected.error) == Compare.CanonicalError(replay.error))
  {
    hide Validation, JudgedReplay, FileAt, EligibilityOf, CompareStep, Compare.CanonicalError;
    hide Compare.PostBalanceChecks, Compare.PostTokenChecks;
    hide Lcs.Similarity, Compare.DifferencePercent, Json.Stable, Compare.CanonicalReturnData;
    ComparedVerdict(tool, tree, source, Compare.UNSUPPORTED);
  }

  /** Agreement in all eight dimensions. */
  ghost predicate AgreesExactly(expected: Compare.Expected, original: Compare.Original, replay: Compare.Replay) {
    && replay.status != Some("UNSUPPORTED")
    && expected.success == replay.success
    && Compare.CanonicalError(expected.error).Ok? &&
       Compare.CanonicalError(expected.error) == Compare.CanonicalError(replay.error)
    && Compare.Lines(expected.logs) == Compare.Lines(replay.logs)
    && expected.computeUnits == replay.computeUnits
    && Compare.StateHolds(original, replay)
    && Json.Denote(Compare.OrNoItems(expected.innerInstructions)) ==
       Json.Denote(Compare.OrNoItems(replay.innerInstructions))
    && Compare.SameReturnData(expected.returnData, replay.returnData)
  }

  /**
   A valid bundle whose manifest names another runtime: replay refuses it and no assertion passes on
   it, yet compare reports EXACT for any eligible one and a replay file that agrees.
   */
  lemma UnpinnedEarnsExact(tool: Tool, tree: Node, source: Source, options: AssertOptions, backend: Backend)
    requires tree.Dir? && ToolWorks(tool) && Comparable(tool, tree, source)
    requires !RuntimePinned(Validation(tool.host, tree, false).value)
    requires EligibilityOf(Validation(tool.host, tree, false).value) != "UNSUPPORTED"
    requires AgreesExactly(ExpectedAt(tool, tree), OriginalAt(tool, tree), JudgedReplay(tool, tree, source).value)
    ensures CompareStep(tool, tree, source, InBundle).outcome == Compared(Compare.EXACT)
    ensures ReplayStep(tool, tree, options.output, backend).outcome in {Refused, WriteError}
    ensures AssertStep(tool, tree, options, backend) == AssertResult(tree, AssertError)
  {
    hide Validation, RuntimePinned, JudgedReplay, FileAt, EligibilityOf, CompareStep, Write, AfterReplay, IsManifest;
    hide Compare.CanonicalError, Compare.StateHolds, Json.Denote, Compare.SameReturnData, Compare.Verdict;
    hide Compare.WellFormedSides;
    StrictIsStronger(tool.host, tree);
    ComparedVerdict(tool, tree, source, Compare.EXACT);
    SourceWellFormed(tool, tree, source);
    Compare.ExactMeans(ExpectedAt(tool, tree), OriginalAt(tool, tree), JudgedReplay(tool, tree, source).value,
                       EligibilityOf(Validation(tool.host, tree, false).value));
  }

  lemma SourceWellFormed(tool: Tool, tree: Node, source: Source)
    requires tree.Dir? && ToolWorks(tool) && Readable(tool, tree, source)
    ensures Compare.WellFormedSides(ExpectedAt(tool, tree), JudgedReplay(tool, tree, source).value)
  {
    hide Compare.WellFormedSides, IsManifest, FileAt;
  }
}
