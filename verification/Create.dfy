/** createBundle, src/bundle.js:51-168: from a planned capture to the files of a sealed bundle. */
module Create {
  import opened JsText
  import opened Integrity
  import opened Bundle
  import opened Records
  import Base58
  import Compare
  import Eligibility
  import Json
  import Logs
  import Provenance
  import Transaction

  /** What the artifact directory records beyond the capture that planning reads. */
  datatype Recorded = Recorded(computeUnits: Field<nat>, innerInstructions: Json.Json, returnData: Json.Json,
    logsText: string)

  /** The artifact directory; `executables` reads a program file named by it, None where that throws. */
  datatype Artifact = Artifact(
    capture: Eligibility.Capture, recorded: Recorded, transaction: seq<Byte>, executables: string -> Option<seq<Byte>>)

  /** The texts of the written files. */
  datatype Writer = Writer(
    account: Provenance.Entry -> seq<Byte>,
    original: (Eligibility.Capture, Recorded) -> seq<Byte>,
    expected: Compare.Expected -> seq<Byte>,
    provenance: (Eligibility.Capture, Eligibility.Plan) -> seq<Byte>,
    lookups: seq<string> -> seq<Byte>,
    readme: seq<(string, Json.Json)> -> seq<Byte>)

  type FileList = seq<(seq<string>, seq<Byte>)>

  /** expectedExecution, src/bundle.js:11-22, with the logs read back from logs.txt. */
  function ExpectedOf(artifact: Artifact): Compare.Expected {
    var error, recorded := artifact.capture.metadata.err, artifact.recorded;
    Compare.Expected(Is(error.Null?), error, Some(Logs.ReadBack(recorded.logsText)), recorded.computeUnits,
                     recorded.innerInstructions, recorded.returnData)
  }

  /** What the comparison reads of original-execution.json. */
  function OriginalOf(capture: Eligibility.Capture): Compare.Original {
    Compare.Original(capture.metadata.accountRoles, capture.metadata.postBalances, capture.metadata.postTokenBalances)
  }

  function ClassText(c: Transaction.Class): string {
    match c
    case SYSTEM_TRANSFER => "SYSTEM_TRANSFER"
    case CLASSIC_SPL_TRANSFER => "CLASSIC_SPL_TRANSFER"
    case SUPPORTED_DETERMINISTIC_FAILURE => "SUPPORTED_DETERMINISTIC_FAILURE"
    case UNSUPPORTED_TRANSACTION_CLASS => "UNSUPPORTED_TRANSACTION_CLASS"
  }

  function EligibilityText(supported: bool): string { if supported then "SUPPORTED" else "UNSUPPORTED" }

  /** The manifest members createBundle derives from a plan. */
  function PlannedCore(
    capture: Eligibility.Capture, plan: Eligibility.Plan, details: Details): seq<(string, Json.Json)> {
    ManifestCore(capture.signature, ClassText(plan.classification.transactionClass), EligibilityText(plan.supported),
      details)
  }

  // ---------------------------------------------------------------------------------------
  // The files, in the order they are written

  function AccountName(pubkey: string): string { pubkey + ".json" }

  function AccountFile(entry: Provenance.Entry): seq<string> { ["accounts", AccountName(entry.role.pubkey)] }

  function AccountFiles(writer: Writer, entries: seq<Provenance.Entry>): (files: FileList)
    ensures |files| == |entries|
    ensures forall i :: 0 <= i < |entries| ==> files[i] == (AccountFile(entries[i]), writer.account(entries[i]))
  {
    seq(|entries|, i requires 0 <= i < |entries| => (AccountFile(entries[i]), writer.account(entries[i])))
  }

  /** Copies of the captured executables; programs without one are skipped. */
  function ProgramFiles(
    programs: seq<Eligibility.Program>, executables: string -> Option<seq<Byte>>): Option<FileList> {
    if programs == [] then Some([])
    else
      var before, last := ProgramFiles(programs[..|programs| - 1], executables), programs[|programs| - 1];
      if before.None? then None
      else if last.executableFile.None? || last.executableFile.value == "" then before
      else
        var bytes := executables(last.executableFile.value);
        if bytes.None? then None else Some(before.value + [(["programs", last.programId + ".so"], bytes.value)])
  }

  function EvidenceFiles(
    writer: Writer, artifact: Artifact, plan: Eligibility.Plan, core: seq<(string, Json.Json)>): FileList {
    [(["transaction.json"], artifact.transaction),
     (["original-execution.json"], writer.original(artifact.capture, artifact.recorded)),
     (["expected.json"], writer.expected(ExpectedOf(artifact))),
     (["provenance.json"], writer.provenance(artifact.capture, plan)),
     (["lookup-tables", "index.json"], writer.lookups(artifact.capture.lookups)),
     (["README.md"], writer.readme(core))]
  }

  /** One write after the other; None as soon as one throws. */
  function WriteFiles(tree: Node, files: FileList): (r: Option<Node>)
    requires tree.Dir?
    ensures r.Some? ==> r.value.Dir?
  {
    if files == [] then Some(tree)
    else
      var before, last := WriteFiles(tree, files[..|files| - 1]), files[|files| - 1];
      if before.None? then None else WriteAt(before.value, last.0, last.1)
  }

  /** ensureDir at the top of the bundle directory. */
  function EnsureDir(tree: Node, name: string): (r: Option<Node>)
    requires tree.Dir?
    ensures r.Some? ==> r.value.Dir?
  {
    var child := Child(tree.children, name);
    if child.None? then Some(Dir(PutChild(tree.children, name, Dir([]))))
    else if child.value.Dir? then Some(tree)
    else None
  }

  function EnsureDirs(tree: Node): (r: Option<Node>)
    requires tree.Dir?
    ensures r.Some? ==> r.value.Dir?
  {
    var first := EnsureDir(tree, "accounts");
    if first.None? then None
    else
      var second := EnsureDir(first.value, "programs");
      if second.None? then None else EnsureDir(second.value, "lookup-tables")
  }

  /** Everything written before the index is built. */
  function Files(
    writer: Writer, artifact: Artifact, plan: Eligibility.Plan, core: seq<(string, Json.Json)>): Option<FileList> {
    var programs := ProgramFiles(artifact.capture.programs, artifact.executables);
    if programs.None? then None
    else Some(AccountFiles(writer, plan.entries) + programs.value + EvidenceFiles(writer, artifact, plan, core))
  }

  function StagedTree(
    writer: Writer, base: Node, artifact: Artifact, plan: Eligibility.Plan, core: seq<(string, Json.Json)>)
    : (r: Option<Node>)
    requires base.Dir?
    ensures r.Some? ==> r.value.Dir?
  {
    var dirs, files := EnsureDirs(base), Files(writer, artifact, plan, core);
    if dirs.None? || files.None? then None else WriteFiles(dirs.value, files.value)
  }

  /** The bundle directory after createBundle, `base` being what it held before; None where it throws. */
  function Created(host: Host, writer: Writer, base: Node, artifact: Artifact, details: Details): (r: Option<Node>)
    requires base.Dir?
    ensures r.Some? ==> r.value.Dir?
  {
    var planned := Eligibility.PlanBundle(artifact.capture);
    if planned.Err? then None
    else
      var core := PlannedCore(artifact.capture, planned.value, details);
      var staged := StagedTree(writer, base, artifact, planned.value, core);
      if staged.None? then None else SealedTree(host, staged.value, core)
  }

  /** The manifest it seals with. */
  function CreatedManifest(
    host: Host, writer: Writer, base: Node, artifact: Artifact, details: Details): Option<Json.Json>
    requires base.Dir?
  {
    var planned := Eligibility.PlanBundle(artifact.capture);
    if planned.Err? then None
    else
      var core := PlannedCore(artifact.capture, planned.value, details);
      var staged := StagedTree(writer, base, artifact, planned.value, core);
      if staged.None? then None else ManifestOf(host, staged.value, core)
  }

  // ---------------------------------------------------------------------------------------
  // What the artifact directory records of a transaction, src/inspect.js:136-192

  ghost function FieldOf(m: Json.Meaning, key: string): Option<Json.Meaning> {
    if m.MObj? && key in m.members then Some(m.members[key]) else None
  }

  ghost function TextField(m: Json.Meaning, key: string): Option<string> {
    match FieldOf(m, key)
    case Some(MStr(s)) => Some(s)
    case _ => None
  }

  ghost function ItemsField(m: Json.Meaning, key: string): Option<seq<Json.Meaning>> {
    match FieldOf(m, key)
    case Some(MArr(items)) => Some(items)
    case _ => None
  }

  ghost function IndexOf(m: Json.Meaning): Option<nat> {
    if m.MNum? && m.n >= 0 then Some(m.n) else None
  }

  ghost function InstructionOf(m: Json.Meaning): Transaction.Instruction {
    var index, accounts := FieldOf(m, "programIdIndex"), ItemsField(m, "accounts");
    Transaction.Instruction(
      TextField(m, "programId"),
      if index.None? then None else IndexOf(index.value),
      TextField(m, "data"),
      if accounts.None? || exists i :: 0 <= i < |accounts.value| && IndexOf(accounts.value[i]).None? then None
      else Some(seq(|accounts.value|, i requires 0 <= i < |accounts.value| => accounts.value[i].n)))
  }

  ghost function GroupOf(m: Json.Meaning): seq<Transaction.Instruction> {
    var items := ItemsField(m, "instructions");
    if items.None? then [] else seq(|items.value|, i requires 0 <= i < |items.value| => InstructionOf(items.value[i]))
  }

  /** The inner instructions a JSON value stands for, group by group; a missing value stands for none. */
  ghost function InnerGroups(v: Json.Json): seq<seq<Transaction.Instruction>> {
    match Json.Denote(Compare.OrNoItems(v))
    case MArr(groups) => seq(|groups|, i requires 0 <= i < |groups| => GroupOf(groups[i]))
    case _ => []
  }

  /** The artifact was captured from its transaction, whose log lines were `lines`. */
  ghost predicate CapturedFrom(artifact: Artifact, lines: seq<string>) {
    && artifact.capture.metadata == Transaction.Inspect(artifact.capture.tx)
    && artifact.recorded.logsText == Logs.Written(lines)
    && InnerGroups(artifact.recorded.innerInstructions) == Transaction.Groups(artifact.capture.tx)
  }

  // ---------------------------------------------------------------------------------------
  // The loops

  lemma WriteFilesNext(tree: Node, files: FileList, i: nat)
    requires tree.Dir? && i < |files|
    ensures WriteFiles(tree, files[..i + 1]) ==
      var before := WriteFiles(tree, files[..i]);
      if before.None? then None else WriteAt(before.value, files[i].0, files[i].1)
  {
    assert files[..i + 1][..i] == files[..i];
  }

  lemma {:induction false} WriteFilesPrefix(tree: Node, files: FileList, i: nat)
    requires tree.Dir? && i <= |files| && WriteFiles(tree, files[..i]).None?
    ensures WriteFiles(tree, files).None?
    decreases |files| - i
  {
    if i < |files| {
      WriteFilesNext(tree, files, i);
      WriteFilesPrefix(tree, files, i + 1);
    } else {
      assert files[..i] == files;
    }
  }

  lemma {:induction false} WriteFilesAppend(tree: Node, a: FileList, b: FileList)
    requires tree.Dir?
    ensures WriteFiles(tree, a + b) == if WriteFiles(tree, a).None? then None
      else WriteFiles(WriteFiles(tree, a).value, b)
    decreases |b|
  {
    hide WriteAt;
    if b == [] {
      assert a + b == a;
    } else {
      WriteFilesAppend(tree, a, b[..|b| - 1]);
      assert (a + b)[..|a + b| - 1] == a + b[..|b| - 1];
    }
  }

  method WriteAccounts(writer: Writer, start: Node, entries: seq<Provenance.Entry>) returns (r: Option<Node>)
    requires start.Dir?
    ensures r == WriteFiles(start, AccountFiles(writer, entries))
  {
    hide WriteAt;
    ghost var files := AccountFiles(writer, entries);
    var tree := start;
    for i := 0 to |entries|
      invariant tree.Dir? && WriteFiles(start, files[..i]) == Some(tree)
    {
      var written := WriteAt(tree, AccountFile(entries[i]), writer.account(entries[i]));
      WriteFilesNext(start, files, i);
      if written.None? {
        WriteFilesPrefix(start, files, i + 1);
        return None;
      }
      tree := written.value;
    }
    assert files[..|entries|] == files;
    r := Some(tree);
  }

  lemma ProgramFilesNext(programs: seq<Eligibility.Program>, executables: string -> Option<seq<Byte>>, i: nat)
    requires i < |programs|
    ensures var before, next := ProgramFiles(programs[..i], executables), programs[i];
      ProgramFiles(programs[..i + 1], executables) ==
        if before.None? then None
        else if next.executableFile.None? || next.executableFile.value == "" then before
        else if executables(next.executableFile.value).None? then None
        else Some(before.value + [(["programs", next.programId + ".so"], executables(next.executableFile.value).value)])
  {
    assert programs[..i + 1][..i] == programs[..i];
  }

  /** The files of a prefix are a prefix of the files. */
  lemma {:induction false} ProgramFilesPrefix(
    programs: seq<Eligibility.Program>, executables: string -> Option<seq<Byte>>, i: nat)
    requires i <= |programs| && ProgramFiles(programs, executables).Some?
    ensures ProgramFiles(programs[..i], executables).Some?
    ensures ProgramFiles(programs[..i], executables).value <= ProgramFiles(programs, executables).value
    decreases |programs| - i
  {
    if i < |programs| {
      ProgramFilesPrefix(programs, executables, i + 1);
      ProgramFilesNext(programs, executables, i);
    } else {
      assert programs[..i] == programs;
    }
  }

  method CopyPrograms(
    start: Node, programs: seq<Eligibility.Program>, executables: string -> Option<seq<Byte>>) returns (r: Option<Node>)
    requires start.Dir?
    ensures r == if ProgramFiles(programs, executables).None? then None
      else WriteFiles(start, ProgramFiles(programs, executables).value)
  {
    hide WriteAt, WriteFiles, ProgramFiles;
    ghost var all := ProgramFiles(programs, executables);
    ghost var done: FileList := [];
    var tree := start;
    NoFiles(start, executables);
    assert programs[..0] == [];
    for i := 0 to |programs|
      invariant tree.Dir? && ProgramFiles(programs[..i], executables) == Some(done) &&
        WriteFiles(start, done) == Some(tree)
    {
      var program := programs[i];
      ProgramFilesNext(programs, executables, i);
      if all.Some? { ProgramFilesPrefix(programs, executables, i + 1); }
      if program.executableFile.Some? && program.executableFile.value != "" {
        var bytes := executables(program.executableFile.value);
        if bytes.None? { return None; }
        var path := ["programs", program.programId + ".so"];
        var written := WriteAt(tree, path, bytes.value);
        ghost var longer := done + [(path, bytes.value)];
        WriteFilesNext(start, longer, |done|);
        assert longer[..|done|] == done && longer[..|done| + 1] == longer;
        if written.None? {
          if all.Some? {
            assert all.value[..|longer|] == longer;
            WriteFilesPrefix(start, all.value, |longer|);
          }
          return None;
        }
        tree := written.value;
        done := longer;
      }
    }
    assert programs[..|programs|] == programs;
    r := Some(tree);
  }

  lemma NoFiles(tree: Node, executables: string -> Option<seq<Byte>>)
    requires tree.Dir?
    ensures WriteFiles(tree, []) == Some(tree) && ProgramFiles([], executables) == Some([])
  {
  }

  /** The writes of lines 157-165; the concurrent ones name different files. */
  method WriteEvidence(start: Node, files: FileList) returns (r: Option<Node>)
    requires start.Dir?
    ensures r == WriteFiles(start, files)
  {
    hide WriteAt;
    var tree := start;
    for i := 0 to |files|
      invariant tree.Dir? && WriteFiles(start, files[..i]) == Some(tree)
    {
      var written := WriteAt(tree, files[i].0, files[i].1);
      WriteFilesNext(start, files, i);
      if written.None? {
        WriteFilesPrefix(start, files, i + 1);
        return None;
      }
      tree := written.value;
    }
    assert files[..|files|] == files;
    r := Some(tree);
  }

  method CreateBundle(
    host: Host, writer: Writer, base: Node, artifact: Artifact, details: Details) returns (r: Option<Node>)
    requires base.Dir?
    ensures r == Created(host, writer, base, artifact, details)
  {
    hide Eligibility.PlanBundle, WriteFiles, EnsureDirs, EvidenceFiles, ProgramFiles, PlannedCore, SealedTree;
    var planned := Eligibility.PlanCapture(artifact.capture);
    if planned.Err? { return None; }
    var plan := planned.value;
    var dirs := EnsureDirs(base);
    if dirs.None? { return None; }
    var core := PlannedCore(artifact.capture, plan, details);
    ghost var accountFiles := AccountFiles(writer, plan.entries);
    ghost var programFiles := ProgramFiles(artifact.capture.programs, artifact.executables);
    var evidence := EvidenceFiles(writer, artifact, plan, core);
    if programFiles.Some? {
      WriteFilesAppend(dirs.value, accountFiles + programFiles.value, evidence);
      WriteFilesAppend(dirs.value, accountFiles, programFiles.value);
    }
    var accounts := WriteAccounts(writer, dirs.value, plan.entries);
    if accounts.None? { return None; }
    var programs := CopyPrograms(accounts.value, artifact.capture.programs, artifact.executables);
    if programs.None? { return None; }
    var staged := WriteEvidence(programs.value, evidence);
    if staged.None? { return None; }
    r := SealBundle(host, staged.value, core);
  }

  // ---------------------------------------------------------------------------------------
  // Which file comes from where

  /** The bytes last written to a path. */
  function LastWrite(files: FileList, parts: seq<string>): Option<seq<Byte>> {
    if files == [] then None
    else if files[|files| - 1].0 == parts then Some(files[|files| - 1].1)
    else LastWrite(files[..|files| - 1], parts)
  }

  predicate ValidPaths(files: FileList) {
    forall f :: f in files ==> f.0 != [] && forall p :: p in f.0 ==> ValidName(p)
  }

  lemma {:induction false} FilesKeep(tree: Node, files: FileList)
    requires tree.Dir? && WellFormedTree(tree) && ValidPaths(files) && WriteFiles(tree, files).Some?
    ensures WellFormedTree(WriteFiles(tree, files).value)
    ensures Clean(WriteFiles(tree, files).value) <==> Clean(tree)
  {
    hide WriteAt, ValidName, WellFormedTree, Clean;
    if files != [] {
      var init, last := files[..|files| - 1], files[|files| - 1];
      assert forall f :: f in init ==> f in files;
      assert last in files;
      FilesKeep(tree, init);
      WriteKeeps(WriteFiles(tree, init).value, last.0, last.1);
    }
  }

  lemma {:induction false} BytesAfterFiles(tree: Node, files: FileList, parts: seq<string>)
    requires tree.Dir? && WriteFiles(tree, files).Some?
    ensures BytesAt(WriteFiles(tree, files).value, parts) ==
      if LastWrite(files, parts).Some? then LastWrite(files, parts) else BytesAt(tree, parts)
  {
    hide WriteAt, BytesAt;
    if files != [] {
      var init, last := files[..|files| - 1], files[|files| - 1];
      BytesAfterFiles(tree, init, parts);
      BytesAfterWrite(WriteFiles(tree, init).value, last.0, last.1, parts);
    }
  }

  lemma {:induction false} LastWriteAppend(a: FileList, b: FileList, parts: seq<string>)
    ensures LastWrite(a + b, parts) == if LastWrite(b, parts).Some? then LastWrite(b, parts) else LastWrite(a, parts)
    decreases |b|
  {
    if b == [] {
      assert a + b == a;
    } else {
      LastWriteAppend(a, b[..|b| - 1], parts);
      assert (a + b)[..|a + b| - 1] == a + b[..|b| - 1];
    }
  }

  lemma {:induction false} LastWriteAt(files: FileList, i: nat)
    requires i < |files| && forall j :: i < j < |files| ==> files[j].0 != files[i].0
    ensures LastWrite(files, files[i].0) == Some(files[i].1)
  {
    if i < |files| - 1 { LastWriteAt(files[..|files| - 1], i); }
  }

  lemma {:induction false} LastWriteIsOne(files: FileList, parts: seq<string>)
    ensures LastWrite(files, parts).Some? <==> exists f :: f in files && f.0 == parts
    ensures LastWrite(files, parts).Some? ==> (parts, LastWrite(files, parts).value) in files
  {
    if files != [] {
      var init, last := files[..|files| - 1], files[|files| - 1];
      LastWriteIsOne(init, parts);
      assert forall f :: f in files <==> f in init || f == last;
    }
  }

  lemma {:induction false} ProgramPaths(programs: seq<Eligibility.Program>, executables: string -> Option<seq<Byte>>)
    requires ProgramFiles(programs, executables).Some?
    ensures forall f :: f in ProgramFiles(programs, executables).value ==>
      |f.0| == 2 && f.0[0] == "programs" && exists p :: p in programs && f.0[1] == p.programId + ".so"
  {
    if programs != [] {
      var init, last := programs[..|programs| - 1], programs[|programs| - 1];
      ProgramPaths(init, executables);
      assert forall p :: p in init ==> p in programs;
      assert last in programs;
    }
  }

  lemma DirectoryNames()
    ensures ValidName("accounts") && ValidName("programs") && ValidName("lookup-tables")
  {
  }

  lemma EvidenceNames()
    ensures ValidName("index.json") && ValidName("transaction.json") && ValidName("expected.json")
    ensures ValidName("provenance.json") && ValidName("README.md")
  {
  }

  lemma OriginalName()
    ensures ValidName("original-execution.json")
  {
  }

  lemma TopNames()
    ensures ValidName("accounts") && ValidName("programs") && ValidName("lookup-tables") && ValidName("index.json")
    ensures ValidName("transaction.json") && ValidName("original-execution.json") && ValidName("expected.json")
    ensures ValidName("provenance.json") && ValidName("README.md")
  {
    hide ValidName;
    DirectoryNames();
    EvidenceNames();
    OriginalName();
  }

  /** Where the files go, told apart by name lengths and first letters. */
  lemma TopNamesDiffer()
    ensures "accounts" !in {"programs", "lookup-tables"}
    ensures "README.md" !in {"expected.json", "original-execution.json"}
    ensures "lookup-tables" !in {"expected.json", "original-execution.json"}
    ensures "provenance.json" !in {"expected.json", "original-execution.json"}
    ensures "expected.json" != "original-execution.json"
    ensures "manifest.json" !in {"expected.json", "original-execution.json"}
  {
    assert |"accounts"| == 8 && |"programs"| == 8 && |"lookup-tables"| == 13 && "accounts"[0] == 'a' &&
      "programs"[0] == 'p';
    assert |"README.md"| == 9 && |"expected.json"| == 13 && |"original-execution.json"| == 23 &&
      |"provenance.json"| == 15;
    assert "manifest.json"[0] == 'm' && "expected.json"[0] == 'e' && |"manifest.json"| == 13 &&
      "lookup-tables"[0] == 'l';
  }

  lemma AddressName(address: string, ending: string)
    requires Base58.IsAddress(address) && ending in {".json", ".so"}
    ensures ValidName(address + ending)
  {
    assert Base58.Index('/').None?;
    assert '/' !in address;
    assert '/' !in ending;
    assert |address + ending| >= 3;
  }

  lemma PlanAddresses(capture: Eligibility.Capture)
    requires Eligibility.PlanBundle(capture).Ok?
    ensures forall e :: e in Eligibility.PlanBundle(capture).value.entries ==> Base58.IsAddress(e.role.pubkey)
    ensures forall p :: p in capture.programs ==> Base58.IsAddress(p.programId)
  {
    hide Eligibility.DeriveAll, Transaction.ClassifyTransaction, Eligibility.Defensible, Provenance.Derive;
    hide Base58.IsAddress, Base58.IsSignature;
    var plan := Eligibility.PlanBundle(capture).value;
    var roles := capture.metadata.accountRoles;
    Eligibility.DerivedEntries(roles, capture.observed, capture.metadata, plan.classification);
    forall e | e in plan.entries ensures Base58.IsAddress(e.role.pubkey) {
      var i :| 0 <= i < |plan.entries| && plan.entries[i] == e;
      Eligibility.AlwaysRelevant(roles[i], Eligibility.LastObserved(capture.observed, roles[i].pubkey),
        capture.metadata,
                                 plan.classification.transactionClass, plan.classification.details);
      assert roles[i] in roles;
    }
  }

  lemma EvidencePaths(writer: Writer, artifact: Artifact, plan: Eligibility.Plan, core: seq<(string, Json.Json)>)
    ensures ValidPaths(EvidenceFiles(writer, artifact, plan, core))
    ensures forall f :: f in EvidenceFiles(writer, artifact, plan, core) ==> |f.0| == 2 ==> f.0[0] == "lookup-tables"
  {
    hide ValidName;
    TopNames();
  }

  lemma FilesValid(writer: Writer, artifact: Artifact, core: seq<(string, Json.Json)>)
    requires Eligibility.PlanBundle(artifact.capture).Ok?
    requires Files(writer, artifact, Eligibility.PlanBundle(artifact.capture).value, core).Some?
    ensures ValidPaths(Files(writer, artifact, Eligibility.PlanBundle(artifact.capture).value, core).value)
  {
    hide Eligibility.PlanBundle, Base58.IsAddress, ValidName, EvidenceFiles, ProgramFiles;
    var plan := Eligibility.PlanBundle(artifact.capture).value;
    var accounts, programs :=
      AccountFiles(writer, plan.entries), ProgramFiles(artifact.capture.programs, artifact.executables).value;
    PlanAddresses(artifact.capture);
    ProgramPaths(artifact.capture.programs, artifact.executables);
    EvidencePaths(writer, artifact, plan, core);
    TopNames();
    forall f | f in accounts ensures f.0 != [] && forall p :: p in f.0 ==> ValidName(p) {
      var i :| 0 <= i < |accounts| && accounts[i] == f;
      assert plan.entries[i] in plan.entries;
      AddressName(plan.entries[i].role.pubkey, ".json");
    }
    forall f | f in programs ensures f.0 != [] && forall p :: p in f.0 ==> ValidName(p) {
      var p :| p in artifact.capture.programs && f.0[1] == p.programId + ".so";
      AddressName(p.programId, ".so");
      assert f.0 == [f.0[0], f.0[1]];
    }
  }

  lemma EnsureDirKeeps(tree: Node, name: string)
    requires tree.Dir? && WellFormedTree(tree) && ValidName(name) && EnsureDir(tree, name).Some?
    ensures WellFormedTree(EnsureDir(tree, name).value)
    ensures Clean(EnsureDir(tree, name).value) <==> Clean(tree)
    ensures forall parts :: BytesAt(EnsureDir(tree, name).value, parts) == BytesAt(tree, parts)
  {
    hide PutChild, BytesAt, ValidName;
    var after := EnsureDir(tree, name).value;
    if Child(tree.children, name).None? {
      PutKeeps(tree, name, Dir([]));
      forall parts ensures BytesAt(after, parts) == BytesAt(tree, parts) {
        BytesBelow(tree, parts);
        BytesBelow(after, parts);
        if parts != [] {
          ChildAfterPut(tree.children, name, Dir([]), parts[0]);
          NothingBelow(parts[1..]);
        }
      }
    }
  }

  lemma EnsureDirsKeep(tree: Node)
    requires tree.Dir? && WellFormedTree(tree) && EnsureDirs(tree).Some?
    ensures WellFormedTree(EnsureDirs(tree).value)
    ensures Clean(EnsureDirs(tree).value) <==> Clean(tree)
    ensures forall parts :: BytesAt(EnsureDirs(tree).value, parts) == BytesAt(tree, parts)
  {
    hide EnsureDir, BytesAt, ValidName, WellFormedTree, Clean;
    TopNames();
    var first := EnsureDir(tree, "accounts").value;
    EnsureDirKeeps(tree, "accounts");
    var second := EnsureDir(first, "programs").value;
    EnsureDirKeeps(first, "programs");
    EnsureDirKeeps(second, "lookup-tables");
  }

  /** A created bundle holds what was last written to a path, else what the directory held before; not its manifest. */
  lemma CreatedBytes(host: Host, writer: Writer, base: Node, artifact: Artifact, details: Details, parts: seq<string>)
    requires base.Dir? && WellFormedTree(base) && Created(host, writer, base, artifact, details).Some?
    requires parts != ["manifest.json"]
    ensures WellFormedTree(Created(host, writer, base, artifact, details).value)
    ensures Eligibility.PlanBundle(artifact.capture).Ok?
    ensures var plan := Eligibility.PlanBundle(artifact.capture).value;
      var files := Files(writer, artifact, plan, PlannedCore(artifact.capture, plan, details));
      && files.Some?
      && BytesAt(Created(host, writer, base, artifact, details).value, parts) ==
           if LastWrite(files.value, parts).Some? then LastWrite(files.value, parts) else BytesAt(base, parts)
  {
    hide Eligibility.PlanBundle, WriteFiles, EnsureDirs, Files, PlannedCore, Index, Sealed, BytesAt, WriteAt;
    hide WellFormedTree, ValidPaths;
    var plan := Eligibility.PlanBundle(artifact.capture).value;
    var core := PlannedCore(artifact.capture, plan, details);
    var dirs, files := EnsureDirs(base).value, Files(writer, artifact, plan, core).value;
    var staged := WriteFiles(dirs, files).value;
    EnsureDirsKeep(base);
    FilesValid(writer, artifact, core);
    FilesKeep(dirs, files);
    BytesAfterFiles(dirs, files, parts);
    SealedBytes(host, staged, core, parts);
  }

  lemma SealedBytes(host: Host, tree: Node, core: seq<(string, Json.Json)>, parts: seq<string>)
    requires tree.Dir? && WellFormedTree(tree) && SealedTree(host, tree, core).Some? && parts != ["manifest.json"]
    ensures WellFormedTree(SealedTree(host, tree, core).value)
    ensures BytesAt(SealedTree(host, tree, core).value, parts) == BytesAt(tree, parts)
  {
    hide Hashes, Sealed, BytesAt, WriteAt, PutChild, WellFormedTree, ViewOf;
    var bytes := host.render(Sealed(host, core, Index(tree, host.sha).value));
    DerivedOutputsAreInvisible(tree, "manifest.json", bytes);
    BytesAfterWrite(tree, ["manifest.json"], bytes, parts);
  }

  /** The files of the evidence are six, told apart by the length and the first letter of their first name. */
  lemma EvidenceDiffers(writer: Writer, artifact: Artifact, plan: Eligibility.Plan, core: seq<(string, Json.Json)>)
    ensures var files := EvidenceFiles(writer, artifact, plan, core);
      && |files| == 6
      && (forall i, j :: 0 <= i < j < 6 ==> files[i].0 != files[j].0)
      && forall i :: 0 <= i < 6 ==> files[i].0 != ["manifest.json"]
  {
    hide ExpectedOf;
    var files := EvidenceFiles(writer, artifact, plan, core);
    var lengths, letters := [16, 23, 13, 15, 13, 9], ['t', 'o', 'e', 'p', 'l', 'R'];
    forall i | 0 <= i < 6
      ensures files[i].0 != [] && |files[i].0[0]| == lengths[i] && files[i].0[0][0] == letters[i]
    {
      EvidenceHeads(writer, artifact, plan, core);
    }
    forall i, j | 0 <= i < j < 6 ensures files[i].0 != files[j].0 {
      assert lengths[i] != lengths[j] || letters[i] != letters[j];
    }
    assert ["manifest.json"][0] == "manifest.json" && |"manifest.json"| == 13 && "manifest.json"[0] == 'm';
  }

  lemma EvidenceHeads(writer: Writer, artifact: Artifact, plan: Eligibility.Plan, core: seq<(string, Json.Json)>)
    ensures var files := EvidenceFiles(writer, artifact, plan, core);
      && files[0].0[0] == "transaction.json" && |"transaction.json"| == 16
      && files[1].0[0] == "original-execution.json" && |"original-execution.json"| == 23
      && files[2].0[0] == "expected.json" && |"expected.json"| == 13
      && files[3].0[0] == "provenance.json" && |"provenance.json"| == 15
      && files[4].0[0] == "lookup-tables" && |"lookup-tables"| == 13
      && files[5].0[0] == "README.md" && |"README.md"| == 9
  {
    hide ExpectedOf;
  }

  /** Whatever else is written, the evidence is written last. */
  lemma EvidenceLasts(host: Host, writer: Writer, base: Node, artifact: Artifact, details: Details, i: nat)
    requires base.Dir? && WellFormedTree(base) && Created(host, writer, base, artifact, details).Some? && i < 6
    ensures Eligibility.PlanBundle(artifact.capture).Ok?
    ensures var plan := Eligibility.PlanBundle(artifact.capture).value;
      var files := EvidenceFiles(writer, artifact, plan, PlannedCore(artifact.capture, plan, details));
      |files| == 6 && BytesAt(Created(host, writer, base, artifact, details).value, files[i].0) == Some(files[i].1)
  {
    hide Eligibility.PlanBundle, Created, EvidenceFiles, ProgramFiles, PlannedCore, BytesAt, WellFormedTree, LastWrite;
    CreatedBytes(host, writer, base, artifact, details, []);
    var plan := Eligibility.PlanBundle(artifact.capture).value;
    var core := PlannedCore(artifact.capture, plan, details);
    var files := EvidenceFiles(writer, artifact, plan, core);
    EvidenceDiffers(writer, artifact, plan, core);
    CreatedBytes(host, writer, base, artifact, details, files[i].0);
    LastWriteAt(files, i);
    LastWriteAppend(
      AccountFiles(writer, plan.entries) + ProgramFiles(artifact.capture.programs, artifact.executables).value, files,
      files[i].0);
  }

  /** The evidence of a created bundle is the capture's: what it is compared against, and the files beside it. */
  lemma CreatedEvidence(host: Host, writer: Writer, base: Node, artifact: Artifact, details: Details)
    requires base.Dir? && WellFormedTree(base) && Created(host, writer, base, artifact, details).Some?
    ensures Eligibility.PlanBundle(artifact.capture).Ok?
    ensures var t, plan :=
        Created(host, writer, base, artifact, details).value, Eligibility.PlanBundle(artifact.capture).value;
      && BytesAt(t, ["expected.json"]) == Some(writer.expected(ExpectedOf(artifact)))
      && BytesAt(t, ["original-execution.json"]) == Some(writer.original(artifact.capture, artifact.recorded))
      && BytesAt(t, ["transaction.json"]) == Some(artifact.transaction)
      && BytesAt(t, ["provenance.json"]) == Some(writer.provenance(artifact.capture, plan))
      && BytesAt(t, ["lookup-tables", "index.json"]) == Some(writer.lookups(artifact.capture.lookups))
      && BytesAt(t, ["README.md"]) == Some(writer.readme(PlannedCore(artifact.capture, plan, details)))
  {
    hide Eligibility.PlanBundle, Created, PlannedCore, BytesAt, WellFormedTree, ExpectedOf;
    EvidenceLasts(host, writer, base, artifact, details, 0);
    EvidenceLasts(host, writer, base, artifact, details, 1);
    EvidenceLasts(host, writer, base, artifact, details, 2);
    EvidenceLasts(host, writer, base, artifact, details, 3);
    EvidenceLasts(host, writer, base, artifact, details, 4);
    EvidenceLasts(host, writer, base, artifact, details, 5);
  }

  /** Programs are copied where an executable was captured, and copying fails on a missing one. */
  predicate Copied(program: Eligibility.Program) {
    program.executableFile.Some? && program.executableFile.value != ""
  }

  lemma {:induction false} CopyingSucceeds(
    programs: seq<Eligibility.Program>, executables: string -> Option<seq<Byte>>)
    ensures ProgramFiles(programs, executables).Some? <==>
      forall p :: p in programs && Copied(p) ==> executables(p.executableFile.value).Some?
  {
    if programs != [] {
      var init := programs[..|programs| - 1];
      CopyingSucceeds(init, executables);
      assert forall p :: p in programs <==> p in init || p == programs[|programs| - 1];
    }
  }

  lemma {:induction false} ProgramWritten(
    programs: seq<Eligibility.Program>, executables: string -> Option<seq<Byte>>, k: nat)
    requires ProgramFiles(programs, executables).Some? && k < |programs| && Copied(programs[k])
    requires forall j :: k < j < |programs| && Copied(programs[j]) ==> programs[j].programId != programs[k].programId
    ensures LastWrite(ProgramFiles(programs, executables).value, ["programs", programs[k].programId + ".so"]) ==
      executables(programs[k].executableFile.value)
    ensures executables(programs[k].executableFile.value).Some?
  {
    var n := |programs| - 1;
    var init, last := programs[..n], programs[n];
    var files, path := ProgramFiles(programs, executables).value, ["programs", programs[k].programId + ".so"];
    if k == n {
      assert files[|files| - 1].0 == path;
    } else {
      ProgramWritten(init, executables, k);
      if Copied(last) {
        SameProgramPath(last.programId, programs[k].programId);
        assert files[..|files| - 1] == ProgramFiles(init, executables).value;
      }
    }
  }

  lemma SameProgramPath(a: string, b: string)
    requires a != b
    ensures ["programs", a + ".so"] != ["programs", b + ".so"]
  {
    assert (a + ".so")[..|a + ".so"| - 3] == a && (b + ".so")[..|b + ".so"| - 3] == b;
    assert ["programs", a + ".so"][1] == a + ".so" && ["programs", b + ".so"][1] == b + ".so";
  }

  /** Under programs/ a created bundle holds the executable last captured for a program. */
  lemma CreatedPrograms(host: Host, writer: Writer, base: Node, artifact: Artifact, details: Details, k: nat)
    requires base.Dir? && WellFormedTree(base) && Created(host, writer, base, artifact, details).Some?
    requires k < |artifact.capture.programs| && Copied(artifact.capture.programs[k])
    requires forall j :: k < j < |artifact.capture.programs| && Copied(artifact.capture.programs[j]) ==>
      artifact.capture.programs[j].programId != artifact.capture.programs[k].programId
    ensures var program := artifact.capture.programs[k];
      var bytes := artifact.executables(program.executableFile.value);
      && bytes.Some?
      && BytesAt(Created(host, writer, base, artifact, details).value, ["programs", program.programId + ".so"]) == bytes
  {
    hide Eligibility.PlanBundle, Created, EvidenceFiles, ProgramFiles, PlannedCore, BytesAt, WellFormedTree, LastWrite;
    var path := ["programs", artifact.capture.programs[k].programId + ".so"];
    CreatedBytes(host, writer, base, artifact, details, path);
    var plan := Eligibility.PlanBundle(artifact.capture).value;
    var core := PlannedCore(artifact.capture, plan, details);
    var accounts, programs :=
      AccountFiles(writer, plan.entries), ProgramFiles(artifact.capture.programs, artifact.executables).value;
    var evidence := EvidenceFiles(writer, artifact, plan, core);
    ProgramWritten(artifact.capture.programs, artifact.executables, k);
    EvidencePaths(writer, artifact, plan, core);
    TopNamesDiffer();
    LastWriteIsOne(evidence, path);
    assert "programs" != "lookup-tables" by { assert |"programs"| == 8 && |"lookup-tables"| == 13; }
    LastWriteAppend(accounts + programs, evidence, path);
    LastWriteAppend(accounts, programs, path);
  }

  lemma NoWrites(files: FileList, name: string)
    requires forall f :: f in files ==> |f.0| == 2 ==> f.0[0] != "accounts"
    ensures LastWrite(files, ["accounts", name]) == None
  {
    LastWriteIsOne(files, ["accounts", name]);
  }

  /** Under accounts/ a created bundle holds the fixture last written for a key, and elsewhere what was there before. */
  lemma CreatedAccounts(host: Host, writer: Writer, base: Node, artifact: Artifact, details: Details, name: string)
    requires base.Dir? && WellFormedTree(base) && Created(host, writer, base, artifact, details).Some?
    ensures Eligibility.PlanBundle(artifact.capture).Ok?
    ensures var written :=
      LastWrite(AccountFiles(writer, Eligibility.PlanBundle(artifact.capture).value.entries), ["accounts", name]);
      BytesAt(Created(host, writer, base, artifact, details).value, ["accounts", name]) ==
        if written.Some? then written else BytesAt(base, ["accounts", name])
  {
    hide Eligibility.PlanBundle, Created, EvidenceFiles, ProgramFiles, PlannedCore, BytesAt, WellFormedTree, LastWrite;
    CreatedBytes(host, writer, base, artifact, details, ["accounts", name]);
    var plan := Eligibility.PlanBundle(artifact.capture).value;
    var core := PlannedCore(artifact.capture, plan, details);
    var accounts, programs :=
      AccountFiles(writer, plan.entries), ProgramFiles(artifact.capture.programs, artifact.executables).value;
    var evidence := EvidenceFiles(writer, artifact, plan, core);
    TopNamesDiffer();
    ProgramPaths(artifact.capture.programs, artifact.executables);
    EvidencePaths(writer, artifact, plan, core);
    NoWrites(programs, name);
    NoWrites(evidence, name);
    LastWriteAppend(accounts + programs, evidence, ["accounts", name]);
    LastWriteAppend(accounts, programs, ["accounts", name]);
  }
}
