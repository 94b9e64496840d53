/** Whether what createBundle leaves behind is accepted: src/bundle.js:66-168 against src/bundle-validation.js. */
module CreateValid {
  import opened JsText
  import opened Create
  import opened Integrity
  import opened Sorting
  import opened Splitting
  import Base58
  import Bundle
  import Eligibility
  import Json
  import Provenance

  /** An output directory that holds nothing but account files of an earlier bundle, if anything. */
  function Leftover(left: seq<(string, Node)>): (base: Node)
    ensures base.Dir?
  {
    if left == [] then Dir([]) else Dir([("accounts", Dir(left))])
  }

  predicate PlainFile(entry: (string, Node)) { ValidName(entry.0) && '\\' !in entry.0 && entry.1.File? }

  ghost predicate PlainFiles(left: seq<(string, Node)>) {
    Distinct(Names(left)) && forall i :: 0 <= i < |left| ==> PlainFile(left[i])
  }

  // ---------------------------------------------------------------------------------------
  // Writes that cannot get in each other's way

  predicate Apart(a: seq<string>, b: seq<string>) { !(a < b) && !(b < a) }

  lemma {:induction false} EmptyAccepts(parts: seq<string>, bytes: seq<Byte>)
    requires parts != []
    ensures WriteAt(Dir([]), parts, bytes).Some?
    decreases |parts|
  {
    hide PutChild;
    if |parts| > 1 { EmptyAccepts(parts[1..], bytes); }
  }

  /** Whether a write goes through depends on the one entry it starts at. */
  lemma WriteSome(tree: Node, parts: seq<string>, bytes: seq<Byte>)
    requires tree.Dir? && parts != []
    ensures var child := Child(tree.children, parts[0]);
      WriteAt(tree, parts, bytes).Some? <==>
        || child.None?
        || (|parts| == 1 && child.value.File?)
        || (|parts| > 1 && child.value.Dir? && WriteAt(child.value, parts[1..], bytes).Some?)
  {
    hide PutChild;
    if |parts| > 1 { EmptyAccepts(parts[1..], bytes); }
  }

  /** A write leaves open every path that neither extends the written one nor is extended by it. */
  lemma {:induction false} AcceptsAfterWrite(
    tree: Node, parts: seq<string>, bytes: seq<Byte>, other: seq<string>, others: seq<Byte>)
    requires tree.Dir? && WriteAt(tree, parts, bytes).Some? && WriteAt(tree, other, others).Some? && Apart(parts, other)
    ensures WriteAt(WriteAt(tree, parts, bytes).value, other, others).Some?
    decreases |parts|
  {
    hide PutChild, WriteAt;
    var after := WriteAt(tree, parts, bytes).value;
    var name, child := parts[0], Child(tree.children, parts[0]);
    var inner := if child.Some? then child.value else Dir([]);
    WriteSome(tree, parts, bytes);
    WriteSome(tree, other, others);
    WriteSome(after, other, others);
    ChildAfterWriteAt(tree, parts, bytes, other[0]);
    if other[0] == name {
      assert parts == [name] + parts[1..] && other == [name] + other[1..];
      if |parts| > 1 && |other| > 1 {
        EmptyAccepts(parts[1..], bytes);
        EmptyAccepts(other[1..], others);
        AcceptsAfterWrite(inner, parts[1..], bytes, other[1..], others);
      } else {
        assert |parts| == 1 ==> parts == [name] && parts <= other;
        assert |other| == 1 ==> other == [name] && other <= parts;
      }
    }
  }

  lemma ChildAfterWriteAt(tree: Node, parts: seq<string>, bytes: seq<Byte>, n: string)
    requires tree.Dir? && WriteAt(tree, parts, bytes).Some?
    ensures var child := Child(tree.children, parts[0]);
      Child(WriteAt(tree, parts, bytes).value.children, n) ==
        if n != parts[0] then Child(tree.children, n)
        else if |parts| == 1 then Some(File(bytes))
        else WriteAt(if child.Some? then child.value else Dir([]), parts[1..], bytes)
  {
    hide PutChild;
    var name, child := parts[0], Child(tree.children, parts[0]);
    if |parts| == 1 {
      ChildAfterPut(tree.children, name, File(bytes), n);
    } else {
      ChildAfterPut(tree.children, name, WriteAt(if child.Some? then child.value else Dir([]), parts[1..], bytes).value,
        n);
    }
  }

  ghost predicate Accepted(tree: Node, files: FileList)
    requires tree.Dir?
  {
    (forall f :: f in files ==> WriteAt(tree, f.0, f.1).Some?) &&
    (forall f, g :: f in files && g in files ==> Apart(f.0, g.0))
  }

  /** Files that the directory takes one by one, and whose paths do not extend each other, are all written. */
  lemma {:induction false} AcceptedFiles(tree: Node, files: FileList, other: seq<string>, bytes: seq<Byte>)
    requires tree.Dir? && Accepted(tree, files) && WriteAt(tree, other, bytes).Some?
    requires forall f :: f in files ==> Apart(f.0, other)
    ensures WriteFiles(tree, files).Some? && WriteAt(WriteFiles(tree, files).value, other, bytes).Some?
  {
    hide WriteAt, Apart;
    if files != [] {
      var init, last := files[..|files| - 1], files[|files| - 1];
      assert last in files;
      assert forall f :: f in init ==> f in files;
      AcceptedFiles(tree, init, last.0, last.1);
      AcceptedFiles(tree, init, other, bytes);
      AcceptsAfterWrite(WriteFiles(tree, init).value, last.0, last.1, other, bytes);
    }
  }

  // ---------------------------------------------------------------------------------------
  // The files of a bundle go through

  const DIRECTORIES: set<string> := {"accounts", "programs", "lookup-tables"}
  const EVIDENCE: set<string> :=
    {"transaction.json", "original-execution.json", "expected.json", "provenance.json", "README.md"} + MUTABLE_OUTPUTS

  /** A file at the top or in one of the three directories. */
  predicate Shaped(parts: seq<string>) {
    (|parts| == 1 && parts[0] in EVIDENCE) || (|parts| == 2 && parts[0] in DIRECTORIES)
  }

  lemma NamesDisjoint()
    ensures DIRECTORIES !! EVIDENCE
    ensures "accounts" !in {"programs", "lookup-tables"} && "programs" != "lookup-tables"
  {
    assert |"accounts"| == 8 && |"programs"| == 8 && |"lookup-tables"| == 13 && |"transaction.json"| == 16;
    assert |"original-execution.json"| == 23 && |"expected.json"| == 13 && |"provenance.json"| == 15;
    assert |"README.md"| == 9 && |"manifest.json"| == 13 && "lookup-tables"[0] == 'l' && "expected.json"[0] == 'e';
    assert "manifest.json"[0] == 'm' && "accounts"[0] == 'a' && "programs"[0] == 'p';
    assert |"replay.json"| == 11 && |"comparison.json"| == 15;
  }

  lemma ShapedApart(a: seq<string>, b: seq<string>)
    requires Shaped(a) && Shaped(b)
    ensures Apart(a, b)
  {
    hide DIRECTORIES, EVIDENCE;
    NamesDisjoint();
  }

  lemma EvidenceShaped(writer: Writer, artifact: Artifact, plan: Eligibility.Plan, core: seq<(string, Json.Json)>)
    ensures forall f :: f in EvidenceFiles(writer, artifact, plan, core) ==> Shaped(f.0)
  {
    hide ExpectedOf;
  }

  lemma FilesShaped(writer: Writer, artifact: Artifact, plan: Eligibility.Plan, core: seq<(string, Json.Json)>)
    requires Files(writer, artifact, plan, core).Some?
    ensures forall f :: f in Files(writer, artifact, plan, core).value ==> Shaped(f.0)
  {
    hide EvidenceFiles, ProgramFiles, AccountName;
    ProgramPaths(artifact.capture.programs, artifact.executables);
    EvidenceShaped(writer, artifact, plan, core);
  }

  lemma LeftoverChild(left: seq<(string, Node)>, name: string)
    ensures Child(Leftover(left).children, name) == if name == "accounts" && left != [] then Some(Dir(left)) else None
  {
    assert left != [] ==> Leftover(left).children[1..] == [];
  }

  /** After ensureDir three times: the three directories, the account files still in the first. */
  lemma DirsOf(left: seq<(string, Node)>, name: string)
    ensures EnsureDirs(Leftover(left)).Some?
    ensures Child(EnsureDirs(Leftover(left)).value.children, name) ==
      if name == "accounts" then Some(Dir(left)) else if name in DIRECTORIES then Some(Dir([])) else None
  {
    hide PutChild, Leftover, Child;
    NamesDisjoint();
    var base := Leftover(left);
    forall n ensures Child(base.children, n) == if n == "accounts" && left != [] then Some(Dir(left)) else None {
      LeftoverChild(left, n);
    }
    var first := EnsureDir(base, "accounts").value;
    EnsuredChild(base, "accounts", "programs");
    EnsuredChild(base, "accounts", "lookup-tables");
    EnsuredChild(base, "accounts", name);
    var second := EnsureDir(first, "programs").value;
    EnsuredChild(first, "programs", "lookup-tables");
    EnsuredChild(first, "programs", name);
    EnsuredChild(second, "lookup-tables", name);
  }

  lemma EnsuredChild(tree: Node, name: string, n: string)
    requires tree.Dir? && (Child(tree.children, name).Some? ==> Child(tree.children, name).value.Dir?)
    ensures EnsureDir(tree, name).Some?
    ensures Child(EnsureDir(tree, name).value.children, n) ==
      if n == name && Child(tree.children, n).None? then Some(Dir([])) else Child(tree.children, n)
  {
    hide PutChild, Child;
    ChildAfterPut(tree.children, name, Dir([]), n);
  }

  lemma ShapedAccepted(left: seq<(string, Node)>, parts: seq<string>, bytes: seq<Byte>)
    requires PlainFiles(left) && Shaped(parts)
    ensures EnsureDirs(Leftover(left)).Some? && WriteAt(EnsureDirs(Leftover(left)).value, parts, bytes).Some?
  {
    hide EnsureDirs, Leftover, WriteAt, ValidName, DIRECTORIES, EVIDENCE;
    NamesDisjoint();
    AccountsIsDirectory();
    DirsOf(left, parts[0]);
    WriteSome(EnsureDirs(Leftover(left)).value, parts, bytes);
    if |parts| == 2 {
      assert parts[1..] == [parts[1]];
      var inner := if parts[0] == "accounts" then left else [];
      WriteSome(Dir(inner), parts[1..], bytes);
      if Child(inner, parts[1]).Some? { ChildWellFormed(inner, parts[1]); }
    }
  }

  lemma AccountsIsDirectory()
    ensures "accounts" in DIRECTORIES
  {
  }

  /** Nothing in such a directory stops the writes, nor the writing of a derived output after them. */
  lemma StagingSucceeds(
    writer: Writer, left: seq<(string, Node)>, artifact: Artifact, plan: Eligibility.Plan,
      core: seq<(string, Json.Json)>)
    requires PlainFiles(left) && Files(writer, artifact, plan, core).Some?
    ensures StagedTree(writer, Leftover(left), artifact, plan, core).Some?
    ensures forall name :: name in MUTABLE_OUTPUTS ==>
      Integrity.Writable(StagedTree(writer, Leftover(left), artifact, plan, core).value, name)
  {
    hide WriteAt, EnsureDirs, Leftover, PlainFiles, Files, Shaped, Apart;
    var files := Files(writer, artifact, plan, core).value;
    FilesShaped(writer, artifact, plan, core);
    ManifestShaped("manifest.json");
    ShapedAccepted(left, ["manifest.json"], []);
    var dirs := EnsureDirs(Leftover(left)).value;
    forall f | f in files ensures WriteAt(dirs, f.0, f.1).Some? {
      ShapedAccepted(left, f.0, f.1);
    }
    forall f, g | f in files && g in files ensures Apart(f.0, g.0) {
      ShapedApart(f.0, g.0);
    }
    forall name | name in MUTABLE_OUTPUTS
      ensures WriteFiles(dirs, files).Some? && Integrity.Writable(WriteFiles(dirs, files).value, name)
    {
      ManifestShaped(name);
      ShapedAccepted(left, [name], []);
      forall f | f in files ensures Apart(f.0, [name]) {
        ShapedApart(f.0, [name]);
      }
      AcceptedFiles(dirs, files, [name], []);
      TopAccepts(WriteFiles(dirs, files).value, name);
    }
  }

  lemma ManifestShaped(name: string)
    requires name in MUTABLE_OUTPUTS
    ensures Shaped([name]) && "manifest.json" in MUTABLE_OUTPUTS
  {
    hide DIRECTORIES;
  }

  lemma TopAccepts(tree: Node, name: string)
    requires tree.Dir?
    ensures WriteAt(tree, [name], []).Some? <==> Integrity.Writable(tree, name)
  {
  }

  // ---------------------------------------------------------------------------------------
  // Where the files of the bundle come from

  function LeftFiles(left: seq<(string, Node)>): (files: FileList)
    requires forall i :: 0 <= i < |left| ==> left[i].1.File?
    ensures |files| == |left|
    ensures forall i :: 0 <= i < |left| ==> files[i] == (["accounts", left[i].0], left[i].1.bytes)
  {
    seq(|left|, i requires 0 <= i < |left| => (["accounts", left[i].0], left[i].1.bytes))
  }

  lemma LeftoverKeeps(left: seq<(string, Node)>)
    requires PlainFiles(left)
    ensures WellFormedTree(Leftover(left)) && Clean(Leftover(left))
  {
    hide ValidName;
    DirectoryNames();
    assert WellFormedTree(Dir(left)) && Clean(Dir(left));
  }

  lemma LeftoverBytes(left: seq<(string, Node)>, parts: seq<string>)
    requires PlainFiles(left) && BytesAt(Leftover(left), parts).Some?
    ensures (parts, BytesAt(Leftover(left), parts).value) in LeftFiles(left)
  {
    hide BytesAt, Leftover, ValidName;
    BytesBelow(Leftover(left), parts);
    LeftoverChild(left, parts[0]);
    BytesBelow(Dir(left), parts[1..]);
    var name := parts[1];
    ChildWellFormed(left, name);
    var i :| 0 <= i < |left| && left[i] == (name, Child(left, name).value);
    FileBelow(left[i].1.bytes, parts[1..][1..]);
    assert parts == ["accounts", name];
    assert LeftFiles(left)[i] == (parts, left[i].1.bytes);
  }

  /** Every file of the staged directory was written, or was left there. */
  lemma StagedSource(
    writer: Writer, left: seq<(string, Node)>, artifact: Artifact, core: seq<(string, Json.Json)>, path: string)
    requires PlainFiles(left) && Eligibility.PlanBundle(artifact.capture).Ok?
    requires Files(writer, artifact, Eligibility.PlanBundle(artifact.capture).value, core).Some?
    ensures var plan := Eligibility.PlanBundle(artifact.capture).value;
      var staged := StagedTree(writer, Leftover(left), artifact, plan, core);
      && staged.Some? && WellFormedTree(staged.value) && ViewOf(staged.value).Some?
      && (path in ViewOf(staged.value).value.content ==>
            (Split(path, '/'), ViewOf(staged.value).value.content[path]) in Files(writer, artifact, plan, core).value +
              LeftFiles(left))
  {
    hide Eligibility.PlanBundle, Files, WriteFiles, EnsureDirs, Leftover, PlainFile, WellFormedTree, Clean, ViewOf;
    hide BytesAt, Split;
    hide ValidPaths, LastWrite;
    var plan := Eligibility.PlanBundle(artifact.capture).value;
    var files := Files(writer, artifact, plan, core).value;
    StagingSucceeds(writer, left, artifact, plan, core);
    LeftoverKeeps(left);
    EnsureDirsKeep(Leftover(left));
    FilesValid(writer, artifact, core);
    var dirs := EnsureDirs(Leftover(left)).value;
    FilesKeep(dirs, files);
    var staged := WriteFiles(dirs, files).value;
    ViewedMeansClean(staged);
    if path in ViewOf(staged).value.content {
      var parts := Split(path, '/');
      ContentIsBytes(staged, path);
      BytesAfterFiles(dirs, files, parts);
      LastWriteIsOne(files, parts);
      if LastWrite(files, parts).None? { LeftoverBytes(left, parts); }
    }
  }

  // ---------------------------------------------------------------------------------------
  // Their names are portable

  /** Names without a backslash, the first not one that reads as a drive. */
  predicate PortableParts(parts: seq<string>) {
    1 <= |parts| <= 2 && |parts[0]| >= 2 && parts[0][1] != ':' && forall p :: p in parts ==> '\\' !in p
  }

  lemma PortablePath(parts: seq<string>)
    requires PortableParts(parts)
    ensures Portable(PathText(parts))
  {
    var path := PathText(parts);
    if |parts| == 2 {
      JoinAppend([parts[0]], parts[1], '/');
      assert [parts[0]] + [parts[1]] == parts;
      assert path == parts[0] + ['/'] + parts[1];
    } else {
      assert path == parts[0];
    }
  }

  lemma DirectoriesPortable()
    ensures forall name :: name in DIRECTORIES ==> |name| >= 2 && name[1] != ':' && '\\' !in name
  {
  }

  lemma EvidencePortable()
    ensures forall name :: name in EVIDENCE ==> |name| >= 2 && name[1] != ':' && '\\' !in name
    ensures '\\' !in "index.json"
  {
  }

  lemma AddressPortable(address: string, ending: string)
    requires Base58.IsAddress(address) && ending in {".json", ".so"}
    ensures '\\' !in address + ending
  {
    assert Base58.Index('\\').None?;
    assert '\\' !in address;
    assert '\\' !in ending;
  }

  lemma SecondNames(writer: Writer, artifact: Artifact, plan: Eligibility.Plan, core: seq<(string, Json.Json)>)
    ensures forall f :: f in EvidenceFiles(writer, artifact, plan, core) && |f.0| == 2 ==> f.0[1] == "index.json"
  {
    hide ExpectedOf;
  }

  lemma PairPortable(directory: string, name: string)
    requires directory in DIRECTORIES && '\\' !in name
    ensures PortableParts([directory, name])
  {
    hide DIRECTORIES;
    DirectoriesPortable();
  }

  lemma AccountPortable(writer: Writer, entries: seq<Provenance.Entry>, f: (seq<string>, seq<Byte>))
    requires f in AccountFiles(writer, entries) && forall e :: e in entries ==> Base58.IsAddress(e.role.pubkey)
    ensures PortableParts(f.0)
  {
    hide Base58.IsAddress, PortableParts;
    var i :| 0 <= i < |entries| && AccountFiles(writer, entries)[i] == f;
    assert entries[i] in entries;
    AddressPortable(entries[i].role.pubkey, ".json");
    PairPortable("accounts", AccountName(entries[i].role.pubkey));
  }

  lemma ProgramPortable(programs: seq<Eligibility.Program>, parts: seq<string>)
    requires |parts| == 2 && parts[0] == "programs"
    requires exists p :: p in programs && parts[1] == p.programId + ".so"
    requires forall p :: p in programs ==> Base58.IsAddress(p.programId)
    ensures PortableParts(parts)
  {
    hide Base58.IsAddress, PortableParts;
    var p :| p in programs && parts[1] == p.programId + ".so";
    AddressPortable(p.programId, ".so");
    PairPortable("programs", parts[1]);
    assert parts == ["programs", parts[1]];
  }

  lemma EvidenceFilePortable(
    writer: Writer, artifact: Artifact, plan: Eligibility.Plan, core: seq<(string, Json.Json)>,
      f: (seq<string>, seq<Byte>))
    requires f in EvidenceFiles(writer, artifact, plan, core)
    ensures PortableParts(f.0)
  {
    hide EvidenceFiles, DIRECTORIES, EVIDENCE;
    EvidenceShaped(writer, artifact, plan, core);
    SecondNames(writer, artifact, plan, core);
    EvidencePortable();
    if |f.0| == 2 {
      PairPortable(f.0[0], f.0[1]);
      assert f.0 == [f.0[0], f.0[1]];
    }
  }

  lemma FilesPortable(writer: Writer, artifact: Artifact, core: seq<(string, Json.Json)>)
    requires Eligibility.PlanBundle(artifact.capture).Ok?
    requires Files(writer, artifact, Eligibility.PlanBundle(artifact.capture).value, core).Some?
    ensures forall f :: f in Files(writer, artifact, Eligibility.PlanBundle(artifact.capture).value, core).value ==>
      PortableParts(f.0)
  {
    hide Eligibility.PlanBundle, Base58.IsAddress, EvidenceFiles, ProgramFiles, PortableParts, AccountFile;
    var plan := Eligibility.PlanBundle(artifact.capture).value;
    var files := Files(writer, artifact, plan, core).value;
    PlanAddresses(artifact.capture);
    ProgramPaths(artifact.capture.programs, artifact.executables);
    forall f | f in files ensures PortableParts(f.0) {
      if f in AccountFiles(writer, plan.entries) {
        AccountPortable(writer, plan.entries, f);
      } else if f in EvidenceFiles(writer, artifact, plan, core) {
        EvidenceFilePortable(writer, artifact, plan, core, f);
      } else {
        ProgramPortable(artifact.capture.programs, f.0);
      }
    }
  }

  /** The index of the staged directory can be built, and is acceptable to itself within the limits. */
  lemma StagedAcceptable(
    sha: Hash, writer: Writer, left: seq<(string, Node)>, artifact: Artifact, core: seq<(string, Json.Json)>)
    requires PlainFiles(left) && Eligibility.PlanBundle(artifact.capture).Ok?
    requires Files(writer, artifact, Eligibility.PlanBundle(artifact.capture).value, core).Some?
    ensures var staged :=
      StagedTree(writer, Leftover(left), artifact, Eligibility.PlanBundle(artifact.capture).value, core);
      && staged.Some? && ViewOf(staged.value).Some? && Index(staged.value, sha).Some?
      && (forall p :: p in ViewOf(staged.value).value.paths ==> p in ViewOf(staged.value).value.content && Portable(p))
  {
    hide Eligibility.PlanBundle, Files, StagedTree, Leftover, ValidName, WellFormedTree, ViewOf, Split, Hashes;
    hide Portable;
    hide PortableParts, Open, Normalize, Join;
    var plan := Eligibility.PlanBundle(artifact.capture).value;
    var files := Files(writer, artifact, plan, core).value;
    StagedSource(writer, left, artifact, core, "");
    var staged := StagedTree(writer, Leftover(left), artifact, plan, core).value;
    var view := ViewOf(staged).value;
    ViewDistinct(staged);
    FilesPortable(writer, artifact, core);
    forall p | p in view.paths ensures Portable(p) && Open(staged, p).Some? {
      StagedSource(writer, left, artifact, core, p);
      var source := (Split(p, '/'), view.content[p]);
      if source in LeftFiles(left) { LeftPortable(left, source); }
      PortablePath(source.0);
      JoinSplit(p, '/');
      PortableMeansNormal(staged, p);
      OpensViewed(staged, p);
    }
    ReadableHashes(staged, view.paths, sha);
  }

  lemma LeftPortable(left: seq<(string, Node)>, f: (seq<string>, seq<Byte>))
    requires PlainFiles(left) && f in LeftFiles(left)
    ensures PortableParts(f.0)
  {
    hide ValidName;
    var i :| 0 <= i < |left| && LeftFiles(left)[i] == f;
    assert PlainFile(left[i]);
    assert '\\' !in "accounts" && "accounts"[1] == 'c';
  }

  // ---------------------------------------------------------------------------------------
  // A created bundle validates

  /** The files the comparison of signatures looks into, as validation reads them. */
  predicate WriterAgrees(host: Bundle.Host, writer: Writer, artifact: Artifact, plan: Eligibility.Plan) {
    var transaction, original :=
      host.parse(artifact.transaction), host.parse(writer.original(artifact.capture, artifact.recorded));
    var expected := host.parse(writer.expected(ExpectedOf(artifact)));
    var provenance := host.parse(writer.provenance(artifact.capture, plan));
    && transaction.Some? && Json.Property(transaction.value, "signature") == Some(Json.Str(artifact.capture.signature))
    && original.Some? && Json.Property(original.value, "signature") == Some(Json.Str(artifact.capture.signature))
    && expected.Some?
    && provenance.Some? && Json.Property(provenance.value, "accounts").Some? &&
       Json.Property(provenance.value, "accounts").value.Arr?
  }

  lemma EvidenceAt(writer: Writer, artifact: Artifact, plan: Eligibility.Plan, core: seq<(string, Json.Json)>, i: nat)
    requires i < 6
    ensures var files := EvidenceFiles(writer, artifact, plan, core); LastWrite(files, files[i].0) == Some(files[i].1)
  {
    hide ExpectedOf;
    var files := EvidenceFiles(writer, artifact, plan, core);
    var tags := [(16, 't'), (23, 'o'), (13, 'e'), (15, 'p'), (13, 'l'), (9, 'R')];
    assert forall j :: 0 <= j < 6 ==> Bundle.Tag(files[j].0[0]) == tags[j];
    forall j | i < j < 6 ensures files[j].0 != files[i].0 {
      assert tags[j] != tags[i];
    }
    LastWriteAt(files, i);
  }

  /** The evidence files of the staged directory. */
  lemma StagedEvidence(
    writer: Writer, left: seq<(string, Node)>, artifact: Artifact, core: seq<(string, Json.Json)>, i: nat)
    requires PlainFiles(left) && Eligibility.PlanBundle(artifact.capture).Ok? && i < 6
    requires Files(writer, artifact, Eligibility.PlanBundle(artifact.capture).value, core).Some?
    ensures var plan := Eligibility.PlanBundle(artifact.capture).value;
      var staged, file :=
        StagedTree(writer, Leftover(left), artifact, plan, core), EvidenceFiles(writer, artifact, plan, core)[i];
      staged.Some? && BytesAt(staged.value, file.0) == Some(file.1)
  {
    hide Eligibility.PlanBundle, EvidenceFiles, ProgramFiles, WriteFiles, EnsureDirs, Leftover, PlainFile, BytesAt;
    hide LastWrite;
    var plan := Eligibility.PlanBundle(artifact.capture).value;
    var files := Files(writer, artifact, plan, core).value;
    StagingSucceeds(writer, left, artifact, plan, core);
    EvidenceCount(writer, artifact, plan, core);
    EvidenceAt(writer, artifact, plan, core, i);
    var evidence := EvidenceFiles(writer, artifact, plan, core);
    var first :=
      AccountFiles(writer, plan.entries) + ProgramFiles(artifact.capture.programs, artifact.executables).value;
    LastWriteAppend(first, evidence, evidence[i].0);
    BytesAfterFiles(EnsureDirs(Leftover(left)).value, files, evidence[i].0);
  }

  lemma EvidenceCount(writer: Writer, artifact: Artifact, plan: Eligibility.Plan, core: seq<(string, Json.Json)>)
    ensures var files := EvidenceFiles(writer, artifact, plan, core);
      && |files| == 6
      && files[0] == (["transaction.json"], artifact.transaction)
      && files[1] == (["original-execution.json"], writer.original(artifact.capture, artifact.recorded))
      && files[2] == (["expected.json"], writer.expected(ExpectedOf(artifact)))
      && files[3] == (["provenance.json"], writer.provenance(artifact.capture, plan))
      && files[5] == (["README.md"], writer.readme(core))
  {
  }

  /** What validation finds under the required names. */
  lemma StagedRequired(
    writer: Writer, left: seq<(string, Node)>, artifact: Artifact, core: seq<(string, Json.Json)>)
    requires PlainFiles(left) && Eligibility.PlanBundle(artifact.capture).Ok?
    requires Files(writer, artifact, Eligibility.PlanBundle(artifact.capture).value, core).Some?
    ensures var plan := Eligibility.PlanBundle(artifact.capture).value;
      var staged := StagedTree(writer, Leftover(left), artifact, plan, core);
      && staged.Some?
      && FileAt(staged.value, "transaction.json") == Some(artifact.transaction)
      && FileAt(staged.value, "original-execution.json") == Some(writer.original(artifact.capture, artifact.recorded))
      && FileAt(staged.value, "expected.json") == Some(writer.expected(ExpectedOf(artifact)))
      && FileAt(staged.value, "provenance.json") == Some(writer.provenance(artifact.capture, plan))
      && FileAt(staged.value, "README.md") == Some(writer.readme(core))
  {
    hide Eligibility.PlanBundle, EvidenceFiles, Files, StagedTree, Leftover, PlainFiles, BytesAt, FileAt, ExpectedOf;
    var plan := Eligibility.PlanBundle(artifact.capture).value;
    EvidenceCount(writer, artifact, plan, core);
    StagedEvidence(writer, left, artifact, core, 0);
    StagedEvidence(writer, left, artifact, core, 1);
    StagedEvidence(writer, left, artifact, core, 2);
    StagedEvidence(writer, left, artifact, core, 3);
    StagedEvidence(writer, left, artifact, core, 5);
    var staged := StagedTree(writer, Leftover(left), artifact, plan, core).value;
    FileAtIsBytes(staged, "transaction.json");
    FileAtIsBytes(staged, "original-execution.json");
    FileAtIsBytes(staged, "expected.json");
    FileAtIsBytes(staged, "provenance.json");
    FileAtIsBytes(staged, "README.md");
  }

  lemma Agreement(
    host: Bundle.Host, writer: Writer, artifact: Artifact, plan: Eligibility.Plan, tree: Node,
    core: seq<(string, Json.Json)>)
    requires tree.Dir? && WriterAgrees(host, writer, artifact, plan)
    requires Json.Property(Json.Obj(core), "signature") == Some(Json.Str(artifact.capture.signature))
    requires FileAt(tree, "transaction.json") == Some(artifact.transaction)
    requires FileAt(tree, "original-execution.json") == Some(writer.original(artifact.capture, artifact.recorded))
    requires FileAt(tree, "expected.json") == Some(writer.expected(ExpectedOf(artifact)))
    requires FileAt(tree, "provenance.json") == Some(writer.provenance(artifact.capture, plan))
    ensures Bundle.CrossCheck(host, tree, Json.Obj(core)) == None
  {
    hide Json.Lookup, ExpectedOf, Child;
  }

  lemma RequiredInLimits(tree: Node, name: string)
    requires tree.Dir? && WellFormedTree(tree) && ViewOf(tree).Some? && name in Bundle.REQUIRED &&
      name != "manifest.json"
    requires (forall p :: p in ViewOf(tree).value.paths ==> p in ViewOf(tree).value.content) &&
      WithinLimits(ViewOf(tree).value)
    requires FileAt(tree, name).Some?
    ensures Bundle.RegularFile(tree, name)
  {
    hide ViewOf, WellFormedTree, ValidName, IsDerived;
    Bundle.RequiredIsViewed(name);
    FileAtIsViewed(tree, name);
    ViewDistinct(tree);
  }

  lemma VerifiedIsInLimits(view: View, integrity: Json.Json, sha: Hash)
    requires IntegrityHolds(Some(view), integrity, sha) && forall p :: p in view.paths ==> p in view.content
    ensures WithinLimits(view)
  {
    hide HeaderOk, NormalizeAll, Sort;
  }

  /** What createBundle stages, once it has a plan. */
  function Staging(
    writer: Writer, left: seq<(string, Node)>, artifact: Artifact, readme: seq<(string, Json.Json)>): (r: Option<Node>)
    ensures r.Some? ==> r.value.Dir?
  {
    var planned := Eligibility.PlanBundle(artifact.capture);
    if planned.Err? then None else StagedTree(writer, Leftover(left), artifact, planned.value, readme)
  }

  /** The seal over a directory validates exactly within the limits and, strictly, with the pinned runtime. */
  ghost predicate SealsExactly(host: Bundle.Host, staged: Node, core: seq<(string, Json.Json)>, strict: bool)
    requires staged.Dir?
  {
    && WellFormedTree(staged) && ViewOf(staged).Some?
    && (forall p :: p in ViewOf(staged).value.paths ==> p in ViewOf(staged).value.content)
    && var sealed, manifest := Bundle.SealedTree(host, staged, core), Bundle.ManifestOf(host, staged, core);
       && sealed.Some? && manifest.Some? && WellFormedTree(sealed.value) && ViewOf(sealed.value) == ViewOf(staged)
       && (Bundle.Validation(host, sealed.value, strict).Ok? <==>
           (WithinLimits(ViewOf(staged).value) && |host.render(manifest.value)| <= MAX_FILE_BYTES &&
            (strict ==> Bundle.RuntimePinned(Json.Obj(core)))))
  }

  /**
   Whatever the runtime in its core: the bundle sealed over the staged files validates exactly when they
   and the manifest keep within the limits, and, where the runtime is asked for, it is the pinned one.
   */
  lemma StagedValidates(
    host: Bundle.Host, writer: Writer, left: seq<(string, Node)>, artifact: Artifact,
    core: seq<(string, Json.Json)>, readme: seq<(string, Json.Json)>, strict: bool)
    requires PlainFiles(left) && Eligibility.PlanBundle(artifact.capture).Ok?
    requires Files(writer, artifact, Eligibility.PlanBundle(artifact.capture).value, readme).Some?
    requires WriterAgrees(host, writer, artifact, Eligibility.PlanBundle(artifact.capture).value)
    requires Bundle.CoreReads(core, artifact.capture.signature)
    requires var staged := Staging(writer, left, artifact, readme);
      staged.Some? && Bundle.ManifestOf(host, staged.value, core).Some? ==>
        Bundle.HostWorks(host, Bundle.ManifestOf(host, staged.value, core).value)
    ensures var staged := Staging(writer, left, artifact, readme);
      staged.Some? && SealsExactly(host, staged.value, core, strict)
  {
    hide Eligibility.PlanBundle, Files, StagedTree, Leftover, PlainFiles, WellFormedTree, ViewOf, Portable;
    hide WriterAgrees;
    hide WithinLimits, Bundle.Validation, Bundle.HostWorks, Bundle.CoreReads, FileAt, Bundle.RegularFile, ExpectedOf;
    hide Bundle.CrossCheck, Bundle.RuntimePinned, Bundle.Sealed, Index, PutChild, Json.Property;
    var plan := Eligibility.PlanBundle(artifact.capture).value;
    StagedSource(writer, left, artifact, readme, "");
    StagedAcceptable(host.sha, writer, left, artifact, readme);
    StagingSucceeds(writer, left, artifact, plan, readme);
    StagedRequired(writer, left, artifact, readme);
    var staged := StagedTree(writer, Leftover(left), artifact, plan, readme).value;
    var manifest := Bundle.ManifestOf(host, staged, core).value;
    DerivedOutputsAreInvisible(staged, "manifest.json", host.render(manifest));
    var sealed := Bundle.SealedTree(host, staged, core).value;
    if WithinLimits(ViewOf(staged).value) {
      PlannedSignature(artifact.capture);
      CoreSignature(core, artifact.capture.signature);
      Agreement(host, writer, artifact, plan, staged, core);
      assert Bundle.Staged(host, staged, core) by { StagedFiles(staged, host, core); }
      Bundle.SealedBundleValidates(host, staged, core, artifact.capture.signature, strict);
    } else if Bundle.Validation(host, sealed, strict).Ok? {
      Bundle.ValidMeansViewed(host, sealed, strict);
      VerifiedIsInLimits(ViewOf(staged).value, Json.Property(Bundle.Validation(host, sealed, strict).value,
        "integrity").value, host.sha);
    }
  }

  lemma PlannedSignature(capture: Eligibility.Capture)
    requires Eligibility.PlanBundle(capture).Ok?
    ensures Base58.IsSignature(capture.signature)
  {
    hide Eligibility.DeriveAll, Base58.IsSignature, Base58.IsAddress, Eligibility.Defensible;
  }

  lemma CoreSignature(core: seq<(string, Json.Json)>, signature: string)
    requires Bundle.CoreReads(core, signature)
    ensures Json.Property(Json.Obj(core), "signature") == Some(Json.Str(signature))
  {
  }

  lemma StagedFiles(tree: Node, host: Bundle.Host, core: seq<(string, Json.Json)>)
    requires tree.Dir? && WellFormedTree(tree) && ViewOf(tree).Some?
    requires (forall p :: p in ViewOf(tree).value.paths ==> p in ViewOf(tree).value.content) &&
      WithinLimits(ViewOf(tree).value)
    requires FileAt(tree, "transaction.json").Some? && FileAt(tree, "original-execution.json").Some?
    requires FileAt(tree, "expected.json").Some? && FileAt(tree, "provenance.json").Some? &&
      FileAt(tree, "README.md").Some?
    requires Bundle.CrossCheck(host, tree, Json.Obj(core)) == None
    ensures Bundle.Staged(host, tree, core)
  {
    hide ViewOf, WellFormedTree, WithinLimits, FileAt, Bundle.CrossCheck, Bundle.RegularFile;
    Bundle.RequiredNames();
    forall name | name in Bundle.REQUIRED && name != "manifest.json" ensures Bundle.RegularFile(tree, name) {
      RequiredInLimits(tree, name);
    }
  }

  lemma PlannedTexts(plan: Eligibility.Plan)
    ensures ClassText(plan.classification.transactionClass) in Bundle.CLASSES
    ensures EligibilityText(plan.supported) in Bundle.STATUSES
  {
  }

  lemma PlannedCoreReads(capture: Eligibility.Capture, plan: Eligibility.Plan, details: Bundle.Details)
    ensures Bundle.CoreReads(PlannedCore(capture, plan, details), capture.signature)
    ensures Bundle.RuntimePinned(Json.Obj(PlannedCore(capture, plan, details)))
  {
    hide Bundle.CoreReads, Bundle.RuntimePinned, Bundle.CLASSES, Bundle.STATUSES;
    PlannedTexts(plan);
    Bundle.ManifestCoreReads(
      capture.signature, ClassText(plan.classification.transactionClass), EligibilityText(plan.supported), details);
  }

  /**
   In a directory that holds nothing, or nothing but account files of an earlier bundle, createBundle
   succeeds exactly when the plan can be made and the captured executables can be copied.
   */
  lemma CreationSucceeds(
    host: Bundle.Host, writer: Writer, left: seq<(string, Node)>, artifact: Artifact, details: Bundle.Details)
    requires PlainFiles(left)
    ensures Created(host, writer, Leftover(left), artifact, details).Some? <==>
      Eligibility.PlanBundle(artifact.capture).Ok? &&
        ProgramFiles(artifact.capture.programs, artifact.executables).Some?
    ensures Created(host, writer, Leftover(left), artifact, details).Some? ==>
      CreatedManifest(host, writer, Leftover(left), artifact, details).Some?
  {
    hide Eligibility.PlanBundle, ProgramFiles, EvidenceFiles, EnsureDirs, WriteFiles, Leftover, PlainFiles, PlannedCore;
    hide Index, Bundle.Sealed, WellFormedTree, ViewOf;
    var planned := Eligibility.PlanBundle(artifact.capture);
    if planned.Ok? {
      var core := PlannedCore(artifact.capture, planned.value, details);
      if Files(writer, artifact, planned.value, core).Some? {
        StagingSucceeds(writer, left, artifact, planned.value, core);
        StagedAcceptable(host.sha, writer, left, artifact, core);
      }
    }
  }

  /** And what it leaves there validates, pins included, exactly when files and manifest keep within the limits. */
  lemma CreatedBundleValidates(
    host: Bundle.Host, writer: Writer, left: seq<(string, Node)>, artifact: Artifact, details: Bundle.Details,
      strict: bool)
    requires PlainFiles(left) && Created(host, writer, Leftover(left), artifact, details).Some?
    requires Eligibility.PlanBundle(artifact.capture).Ok? &&
      WriterAgrees(host, writer, artifact, Eligibility.PlanBundle(artifact.capture).value)
    requires CreatedManifest(host, writer, Leftover(left), artifact, details).Some? &&
      Bundle.HostWorks(host, CreatedManifest(host, writer, Leftover(left), artifact, details).value)
    ensures var t := Created(host, writer, Leftover(left), artifact, details).value;
      && WellFormedTree(t) && ViewOf(t).Some?
      && (forall p :: p in ViewOf(t).value.paths ==> p in ViewOf(t).value.content)
      && (Bundle.Validation(host, t, strict).Ok? <==>
          WithinLimits(ViewOf(t).value) &&
          |host.render(CreatedManifest(host, writer, Leftover(left), artifact, details).value)| <= MAX_FILE_BYTES)
  {
    hide Eligibility.PlanBundle, Files, EnsureDirs, WriteFiles, Leftover, PlainFiles, PlannedCore, WriterAgrees;
    hide Bundle.HostWorks, Bundle.ManifestOf, Bundle.SealedTree, WellFormedTree, ViewOf, WithinLimits;
    hide Bundle.Validation;
    hide Bundle.CoreReads, Bundle.RuntimePinned;
    var plan := Eligibility.PlanBundle(artifact.capture).value;
    var core := PlannedCore(artifact.capture, plan, details);
    PlannedCoreReads(artifact.capture, plan, details);
    StagedValidates(host, writer, left, artifact, core, core, strict);
  }

  // ---------------------------------------------------------------------------------------
  // A bundle of few small files is within the limits

  lemma {:induction false} DistinctWithin(xs: seq<string>, ys: seq<string>)
    requires Distinct(xs) && forall x :: x in xs ==> x in ys
    ensures |xs| <= |ys|
  {
    if xs != [] {
      var first, rest := xs[0], xs[1..];
      assert first in ys;
      var i :| 0 <= i < |ys| && ys[i] == first;
      var others := ys[..i] + ys[i + 1..];
      forall x | x in rest ensures x in others {
        var k :| 0 <= k < |rest| && rest[k] == x;
        assert xs[0] != xs[k + 1];
        assert x in xs;
        var j :| 0 <= j < |ys| && ys[j] == x;
        assert if j < i then others[j] == x else others[j - 1] == x;
      }
      DistinctWithin(rest, others);
    }
  }

  lemma {:induction false} TotalAtMost(view: View, paths: seq<string>, size: nat)
    requires forall p :: p in paths ==> p in view.content && |view.content[p]| <= size
    ensures Integrity.Total(view, paths) <= size * |paths|
  {
    if paths != [] {
      var init := paths[..|paths| - 1];
      assert forall p :: p in init ==> p in paths;
      TotalAtMost(view, init, size);
      assert paths[|paths| - 1] in paths;
      assert size * |paths| == size * |init| + size;
    }
  }

  lemma FewSmallFiles(
    writer: Writer, left: seq<(string, Node)>, artifact: Artifact, core: seq<(string, Json.Json)>, size: nat)
    requires PlainFiles(left) && Eligibility.PlanBundle(artifact.capture).Ok?
    requires Files(writer, artifact, Eligibility.PlanBundle(artifact.capture).value, core).Some?
    requires var files :=
      Files(writer, artifact, Eligibility.PlanBundle(artifact.capture).value, core).value + LeftFiles(left);
      && (forall f :: f in files ==> |f.1| <= size)
      && |files| <= MAX_FILES && size <= MAX_FILE_BYTES && size * |files| <= MAX_TOTAL_BYTES
    ensures var staged :=
      StagedTree(writer, Leftover(left), artifact, Eligibility.PlanBundle(artifact.capture).value, core);
      && staged.Some? && ViewOf(staged.value).Some?
      && (forall p :: p in ViewOf(staged.value).value.paths ==> p in ViewOf(staged.value).value.content)
      && WithinLimits(ViewOf(staged.value).value)
  {
    hide Eligibility.PlanBundle, Files, StagedTree, Leftover, ValidName, WellFormedTree, ViewOf, Split, Integrity.Total;
    var plan := Eligibility.PlanBundle(artifact.capture).value;
    var files := Files(writer, artifact, plan, core).value + LeftFiles(left);
    var texts := Texts(files);
    StagedSource(writer, left, artifact, core, "");
    var staged := StagedTree(writer, Leftover(left), artifact, plan, core).value;
    var view := ViewOf(staged).value;
    ViewDistinct(staged);
    forall p | p in view.paths ensures p in texts && |view.content[p]| <= size {
      StagedSource(writer, left, artifact, core, p);
      JoinSplit(p, '/');
      var i :| 0 <= i < |files| && files[i] == (Split(p, '/'), view.content[p]);
      assert texts[i] == p;
    }
    DistinctWithin(view.paths, texts);
    TotalAtMost(view, view.paths, size);
    Larger(size, |view.paths|, |files|);
  }

  lemma Larger(size: nat, few: nat, many: nat)
    requires few <= many
    ensures size * few <= size * many
  {
  }
}
