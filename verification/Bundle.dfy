/** The seal of src/bundle.js:133-168 and its check, src/bundle-validation.js. */
module Bundle {
  import opened JsText
  import opened Json
  import opened Integrity
  import Base58

  /** What the runtime supplies: SHA-256 as hexadecimal text, UTF-8, and the two directions of JSON files. */
  datatype Host = Host(
    sha: Hash, utf8: string -> seq<Byte>, parse: seq<Byte> -> Option<Json>, render: Json -> seq<Byte>)

  /** The manifest reads back from its file, and a digest is never the empty text. */
  ghost predicate HostWorks(host: Host, manifest: Json) {
    host.parse(host.render(manifest)) == Some(manifest) && (forall b :: host.sha(b) != "")
  }

  /** The assumption collision resistance stands for. */
  ghost predicate HashInjective(host: Host) {
    (forall a, b :: host.sha(a) == host.sha(b) ==> a == b) && (forall s, t :: host.utf8(s) == host.utf8(t) ==> s == t)
  }

  const REQUIRED :=
    ["manifest.json", "transaction.json", "original-execution.json", "expected.json", "provenance.json", "README.md"]
  const CLASSES: set<string> :=
    {"SYSTEM_TRANSFER", "CLASSIC_SPL_TRANSFER", "SUPPORTED_DETERMINISTIC_FAILURE", "UNSUPPORTED_TRANSACTION_CLASS"}
  const STATUSES: set<string> := {"SUPPORTED", "UNSUPPORTED"}

  datatype Rejection = CORRUPTED_BUNDLE | INVALID_SCHEMA_VERSION | UNSUPPORTED_RUNTIME_MISMATCH | Thrown

  // ---------------------------------------------------------------------------------------
  // sha256Value over the manifest core

  function Without(ms: seq<(string, Json)>, key: string): seq<(string, Json)> {
    if ms == [] then []
    else Without(ms[..|ms| - 1], key) + (if ms[|ms| - 1].0 == key then [] else [ms[|ms| - 1]])
  }

  /** `{ ...manifestCore, integrity: suppliedIntegrity }`, without the hash it is compared to. */
  function CoreOf(manifest: Json): Json {
    if !manifest.Obj? then manifest
    else
      var integrity := Property(manifest, "integrity");
      var members := if integrity.Some? && integrity.value.Obj? then integrity.value.members else [];
      Obj(Without(manifest.members, "integrity") + [("integrity", Obj(Without(members, "manifestCoreSha256")))])
  }

  function CoreHash(host: Host, manifest: Json): string { host.sha(host.utf8(Stringify(CoreOf(manifest)))) }

  function RecordedHash(manifest: Json): Option<Json> {
    var integrity := Property(manifest, "integrity");
    if integrity.None? then None else Property(integrity.value, "manifestCoreSha256")
  }

  /** runtimeCompatibility, src/eligibility.js:41-48 */
  predicate RuntimePinned(manifest: Json) {
    var runtime := Property(manifest, "runtime");
    runtime.Some?
    && Property(runtime.value, "backend") == Some(Str("LiteSVM"))
    && Property(runtime.value, "version") == Some(Str("0.15.2"))
    && Property(runtime.value, "agave") == Some(Str("4.1.1"))
  }

  // ---------------------------------------------------------------------------------------
  // validateBundle

  predicate RegularFile(tree: Node, name: string)
    requires tree.Dir?
  {
    var child := Child(tree.children, name);
    child.Some? && child.value.File? && |child.value.bytes| <= MAX_FILE_BYTES
  }

  function ReadTop(host: Host, tree: Node, name: string): Option<Json>
    requires tree.Dir?
  {
    var child := Child(tree.children, name);
    if child.Some? && child.value.File? then host.parse(child.value.bytes) else None
  }

  predicate HasSignature(manifest: Json) {
    var signature := Property(manifest, "signature");
    signature.Some? && signature.value.Str? && Base58.IsSignature(signature.value.s)
  }

  predicate TextIn(v: Option<Json>, allowed: set<string>) { v.Some? && v.value.Str? && v.value.s in allowed }

  /** Lines 58-69: the files that must agree with the manifest. */
  function CrossCheck(host: Host, tree: Node, manifest: Json): Option<Rejection>
    requires tree.Dir?
  {
    var transaction, original :=
      ReadTop(host, tree, "transaction.json"), ReadTop(host, tree, "original-execution.json");
    var expected, provenance := ReadTop(host, tree, "expected.json"), ReadTop(host, tree, "provenance.json");
    if transaction.None? || original.None? || expected.None? || provenance.None? then Some(Thrown)
    else if transaction.value.Null? || original.value.Null? || provenance.value.Null? then Some(Thrown)
    else if Property(transaction.value, "signature") != Property(manifest, "signature") ||
            Property(original.value, "signature") != Property(manifest, "signature") then Some(CORRUPTED_BUNDLE)
    else
      var accounts := Property(provenance.value, "accounts");
      if accounts.None? || !accounts.value.Arr? then Some(CORRUPTED_BUNDLE) else None
  }

  /** The outcome of validation; a manifest is returned exactly when every guard lets it through. */
  ghost function Validation(host: Host, tree: Node, requireRuntime: bool): Result<Json, Rejection>
    requires tree.Dir?
  {
    var manifest := ReadTop(host, tree, "manifest.json");
    if exists name :: name in REQUIRED && !RegularFile(tree, name) then Err(CORRUPTED_BUNDLE)
    else if manifest.None? || manifest.value.Null? then Err(Thrown)
    else if Property(manifest.value, "schemaVersion") != Some(Str("0.1")) then Err(INVALID_SCHEMA_VERSION)
    else if !HasSignature(manifest.value) then Err(CORRUPTED_BUNDLE)
    else if !TextIn(Property(manifest.value, "transactionClass"), CLASSES) then Err(CORRUPTED_BUNDLE)
    else if !TextIn(Property(manifest.value, "eligibility"), STATUSES) then Err(CORRUPTED_BUNDLE)
    else if RecordedHash(manifest.value) != Some(Str(CoreHash(host, manifest.value))) then Err(CORRUPTED_BUNDLE)
    else if !IntegrityHolds(ViewOf(tree), Property(manifest.value, "integrity").value, host.sha)
      then Err(CORRUPTED_BUNDLE)
    else if requireRuntime && !RuntimePinned(manifest.value) then Err(UNSUPPORTED_RUNTIME_MISMATCH)
    else
      var cross := CrossCheck(host, tree, manifest.value);
      if cross.Some? then Err(cross.value) else Ok(manifest.value)
  }

  method ValidateBundle(host: Host, tree: Node, requireRuntime: bool) returns (r: Result<Json, Rejection>)
    requires tree.Dir? && WellFormedTree(tree)
    ensures r == Validation(host, tree, requireRuntime)
  {
    hide Base58.IsSignature, Property, CoreOf, CrossCheck, IntegrityHolds;
    for i := 0 to |REQUIRED|
      invariant forall k :: 0 <= k < i ==> RegularFile(tree, REQUIRED[k])
    {
      if !RegularFile(tree, REQUIRED[i]) { return Err(CORRUPTED_BUNDLE); }
    }
    var read := ReadTop(host, tree, "manifest.json");
    if read.None? || read.value.Null? { return Err(Thrown); }
    var manifest := read.value;
    if Property(manifest, "schemaVersion") != Some(Str("0.1")) { return Err(INVALID_SCHEMA_VERSION); }
    var signature := Property(manifest, "signature");
    if signature.None? || !signature.value.Str? { return Err(CORRUPTED_BUNDLE); }
    var valid := Base58.IsTransactionSignature(signature.value.s);
    if !valid { return Err(CORRUPTED_BUNDLE); }
    if !TextIn(Property(manifest, "transactionClass"), CLASSES) { return Err(CORRUPTED_BUNDLE); }
    if !TextIn(Property(manifest, "eligibility"), STATUSES) { return Err(CORRUPTED_BUNDLE); }
    if RecordedHash(manifest) != Some(Str(CoreHash(host, manifest))) { return Err(CORRUPTED_BUNDLE); }
    var integrity := VerifyIntegrity(tree, Property(manifest, "integrity").value, host.sha);
    if integrity.Err? { return Err(CORRUPTED_BUNDLE); }
    if requireRuntime && !RuntimePinned(manifest) { return Err(UNSUPPORTED_RUNTIME_MISMATCH); }
    var cross := CrossCheck(host, tree, manifest);
    if cross.Some? { return Err(cross.value); }
    r := Ok(manifest);
  }

  /** The pins are these three texts, each of them. */
  lemma PinsExactly(manifest: Json, backend: string, version: string, agave: string)
    ensures Property(manifest, "runtime").None? ==> !RuntimePinned(manifest)
    ensures Property(manifest, "runtime") ==
            Some(Obj([("backend", Str(backend)), ("version", Str(version)), ("agave", Str(agave))])) ==>
      (RuntimePinned(manifest) <==> backend == "LiteSVM" && version == "0.15.2" && agave == "4.1.1")
  {
    hide Property;
    var members := [("backend", Str(backend)), ("version", Str(version)), ("agave", Str(agave))];
    assert "backend"[0] != "version"[0] && |"agave"| == 5;
    PropertyAt(members, 0);
    PropertyAt(members, 1);
    PropertyAt(members, 2);
  }

  /** The six files a bundle cannot do without are there, as files of at most 25 MiB. */
  predicate AllPresent(tree: Node)
    requires tree.Dir?
  {
    forall name :: name in {"manifest.json", "transaction.json", "original-execution.json", "expected.json",
                            "provenance.json", "README.md"} ==>
      FileAt(tree, name).Some? && |FileAt(tree, name).value| <= 26214400
  }

  /** The manifest names a signature: a text that decodes to 64 bytes. */
  predicate Signed(manifest: Json) {
    match Property(manifest, "signature")
    case Some(Str(s)) => Base58.Decoded(s).Ok? && |Base58.Decoded(s).value| == 64
    case _ => false
  }

  lemma AllPresentMeans(tree: Node)
    requires tree.Dir?
    ensures AllPresent(tree) <==> forall name :: name in REQUIRED ==> RegularFile(tree, name)
  {
    hide Child;
    forall name
      ensures RegularFile(tree, name) <==> FileAt(tree, name).Some? && |FileAt(tree, name).value| <= 26214400
    {
    }
    hide RegularFile, FileAt;
    var names := {"manifest.json", "transaction.json", "original-execution.json", "expected.json", "provenance.json",
                  "README.md"};
    assert REQUIRED[0] in REQUIRED && REQUIRED[1] in REQUIRED && REQUIRED[2] in REQUIRED;
    assert REQUIRED[3] in REQUIRED && REQUIRED[4] in REQUIRED && REQUIRED[5] in REQUIRED;
    assert forall name :: name in names <==> name in REQUIRED;
  }

  lemma SignedMeans(manifest: Json)
    ensures Signed(manifest) <==> HasSignature(manifest)
  {
    hide Base58.Decoded, Property;
  }

  lemma NullIsUnsigned(manifest: Json)
    requires Signed(manifest)
    ensures !manifest.Null?
  {
    hide Base58.Decoded;
  }

  lemma ManifestHoldsMeans(host: Host, tree: Node, manifest: Json)
    requires tree.Dir?
    ensures ManifestHolds(host, tree, manifest) <==>
      && (forall name :: name in REQUIRED ==> RegularFile(tree, name))
      && ReadTop(host, tree, "manifest.json") == Some(manifest) && !manifest.Null?
      && Property(manifest, "schemaVersion") == Some(Str("0.1"))
      && HasSignature(manifest)
      && TextIn(Property(manifest, "transactionClass"), CLASSES) && TextIn(Property(manifest, "eligibility"), STATUSES)
      && RecordedHash(manifest) == Some(Str(CoreHash(host, manifest)))
      && Property(manifest, "integrity").Some?
      && IntegrityHolds(ViewOf(tree), Property(manifest, "integrity").value, host.sha)
  {
    hide Property, RecordedHash, CoreHash, IntegrityHolds, ViewOf, HasSignature, Signed, RegularFile, AllPresent;
    AllPresentMeans(tree);
    SignedMeans(manifest);
    if Signed(manifest) { NullIsUnsigned(manifest); }
    if AllPresent(tree) { ManifestRead(host, tree); }
  }

  lemma ManifestRead(host: Host, tree: Node)
    requires tree.Dir? && AllPresent(tree)
    ensures FileAt(tree, "manifest.json").Some?
    ensures ReadTop(host, tree, "manifest.json") == host.parse(FileAt(tree, "manifest.json").value)
  {
  }

  /** The manifest can be taken for one: everything validation asks of it before it opens other files. */
  ghost predicate ManifestHolds(host: Host, tree: Node, manifest: Json)
    requires tree.Dir?
  {
    && AllPresent(tree)
    && host.parse(FileAt(tree, "manifest.json").value) == Some(manifest)
    && Property(manifest, "schemaVersion") == Some(Str("0.1"))
    && Signed(manifest)
    && Property(manifest, "transactionClass") in
         {Some(Str("SYSTEM_TRANSFER")), Some(Str("CLASSIC_SPL_TRANSFER")),
          Some(Str("SUPPORTED_DETERMINISTIC_FAILURE")), Some(Str("UNSUPPORTED_TRANSACTION_CLASS"))}
    && Property(manifest, "eligibility") in {Some(Str("SUPPORTED")), Some(Str("UNSUPPORTED"))}
    && RecordedHash(manifest) == Some(Str(CoreHash(host, manifest)))
    && Property(manifest, "integrity").Some?
    && IntegrityHolds(ViewOf(tree), Property(manifest, "integrity").value, host.sha)
  }

  /** Transaction and original execution carry the manifest's signature, and the provenance lists accounts. */
  ghost predicate EvidenceAgrees(host: Host, tree: Node, manifest: Json)
    requires tree.Dir?
  {
    var transaction, original :=
      ReadTop(host, tree, "transaction.json"), ReadTop(host, tree, "original-execution.json");
    var provenance := ReadTop(host, tree, "provenance.json");
    && transaction.Some? && Property(transaction.value, "signature") == Property(manifest, "signature")
    && original.Some? && Property(original.value, "signature") == Property(manifest, "signature")
    && ReadTop(host, tree, "expected.json").Some?
    && provenance.Some? && Property(provenance.value, "accounts").Some? &&
       Property(provenance.value, "accounts").value.Arr?
  }

  lemma SignedIsNotNull(manifest: Json, v: Json)
    requires HasSignature(manifest) && Property(v, "signature") == Property(manifest, "signature")
    ensures !v.Null?
  {
  }

  lemma CrossCheckMeans(host: Host, tree: Node, manifest: Json)
    requires tree.Dir? && HasSignature(manifest)
    ensures CrossCheck(host, tree, manifest) == None <==> EvidenceAgrees(host, tree, manifest)
  {
    hide Property, ReadTop, HasSignature;
    if ReadTop(host, tree, "transaction.json").Some? && ReadTop(host, tree, "original-execution.json").Some? {
      var transaction, original :=
        ReadTop(host, tree, "transaction.json").value, ReadTop(host, tree, "original-execution.json").value;
      if Property(transaction, "signature") == Property(manifest, "signature") {
        SignedIsNotNull(manifest, transaction);
      }
      if Property(original, "signature") == Property(manifest, "signature") { SignedIsNotNull(manifest, original); }
    }
    if ReadTop(host, tree, "provenance.json").Some? { NullHasNone(ReadTop(host, tree, "provenance.json").value); }
  }

  lemma NullHasNone(v: Json)
    ensures v.Null? ==> Property(v, "accounts").None?
  {
  }

  /** A bundle is valid exactly when manifest, files and evidence hold together, and strictly only with the pins. */
  lemma ValidExactly(host: Host, tree: Node, strict: bool, manifest: Json)
    requires tree.Dir?
    ensures Validation(host, tree, strict) == Ok(manifest) <==>
      ManifestHolds(host, tree, manifest) && (strict ==> RuntimePinned(manifest)) &&
        EvidenceAgrees(host, tree, manifest)
  {
    hide Property, ReadTop, RegularFile, TextIn, RecordedHash, CoreHash, IntegrityHolds, RuntimePinned, ViewOf;
    hide HasSignature;
    hide CrossCheck, EvidenceAgrees, ManifestHolds;
    var read := ReadTop(host, tree, "manifest.json");
    ManifestHoldsMeans(host, tree, manifest);
    if read.Some? {
      HashNeedsIntegrity(read.value);
      if HasSignature(read.value) { CrossCheckMeans(host, tree, read.value); }
    }
  }

  lemma HashNeedsIntegrity(manifest: Json)
    ensures RecordedHash(manifest).Some? ==> Property(manifest, "integrity").Some?
  {
  }

  /** The codes of a rejection: what each of them says of the bundle. */
  lemma RejectionsMean(host: Host, tree: Node, strict: bool)
    requires tree.Dir?
    ensures Validation(host, tree, strict) == Err(INVALID_SCHEMA_VERSION) <==>
      var manifest := ReadTop(host, tree, "manifest.json");
      && AllPresent(tree)
      && manifest.Some? && !manifest.value.Null? && Property(manifest.value, "schemaVersion") != Some(Str("0.1"))
    ensures Validation(host, tree, strict) == Err(UNSUPPORTED_RUNTIME_MISMATCH) <==>
      var manifest := ReadTop(host, tree, "manifest.json");
      strict && manifest.Some? && ManifestHolds(host, tree, manifest.value) && !RuntimePinned(manifest.value)
    ensures Validation(host, tree, strict) == Err(Thrown) ==>
      var manifest := ReadTop(host, tree, "manifest.json");
      && AllPresent(tree)
      && (manifest.None? || manifest.value.Null? ||
          (ManifestHolds(host, tree, manifest.value) && !EvidenceAgrees(host, tree, manifest.value)))
  {
    hide Property, ReadTop, RegularFile, TextIn, RecordedHash, CoreHash, IntegrityHolds, RuntimePinned, ViewOf;
    hide HasSignature;
    hide EvidenceAgrees, CrossCheck, ManifestHolds, AllPresent;
    var read := ReadTop(host, tree, "manifest.json");
    AllPresentMeans(tree);
    if read.Some? {
      ManifestHoldsMeans(host, tree, read.value);
      HashNeedsIntegrity(read.value);
      CrossCheckCodes(host, tree, read.value);
      if HasSignature(read.value) { CrossCheckMeans(host, tree, read.value); }
    }
  }

  lemma CrossCheckCodes(host: Host, tree: Node, manifest: Json)
    requires tree.Dir?
    ensures CrossCheck(host, tree, manifest) in {None, Some(Thrown), Some(CORRUPTED_BUNDLE)}
  {
    hide Property, ReadTop;
  }

  // ---------------------------------------------------------------------------------------
  // One hash commits to the whole bundle

  lemma {:induction false} WithoutLookup(ms: seq<(string, Json)>, key: string, other: string)
    requires key != other
    ensures other in Keys(Without(ms, key)) <==> other in Keys(ms)
    ensures other in Keys(ms) ==> Lookup(Without(ms, key), other) == Lookup(ms, other)
  {
    if ms != [] {
      var init, last := ms[..|ms| - 1], ms[|ms| - 1];
      WithoutLookup(init, key, other);
      assert ms == init + [last];
      LookupAppend(init, [last], other);
      if last.0 == key {
        assert Keys([last]) == [last.0] && other !in Keys([last]);
        assert Without(ms, key) == Without(init, key);
      } else {
        LookupAppend(Without(init, key), [last], other);
      }
    }
  }

  lemma {:induction false} LookupAppend(a: seq<(string, Json)>, b: seq<(string, Json)>, key: string)
    ensures key in Keys(a + b) <==> key in Keys(a) || key in Keys(b)
    ensures key in Keys(a) ==> Lookup(a + b, key) == Lookup(a, key)
    ensures key !in Keys(a) && key in Keys(b) ==> Lookup(a + b, key) == Lookup(b, key)
  {
    assert Keys(a + b) == Keys(a) + Keys(b);
    if a == [] {
      assert a + b == b;
    } else {
      assert (a + b)[1..] == a[1..] + b;
      assert Keys(a) == [a[0].0] + Keys(a[1..]);
      LookupAppend(a[1..], b, key);
    }
  }

  lemma ReadFiles(manifest: Json, manifest': Json)
    requires manifest.Obj? && manifest'.Obj? && CoreOf(manifest) == CoreOf(manifest')
    requires RecordedHash(manifest).Some? && RecordedHash(manifest').Some?
    ensures Property(Property(manifest, "integrity").value, "files") ==
      Property(Property(manifest', "integrity").value, "files")
  {
    var a, b := Property(manifest, "integrity").value.members, Property(manifest', "integrity").value.members;
    var ca, cb := CoreOf(manifest).members, CoreOf(manifest').members;
    assert ca[|ca| - 1] == cb[|cb| - 1];
    assert |"files"| != |"manifestCoreSha256"|;
    WithoutLookup(a, "manifestCoreSha256", "files");
    WithoutLookup(b, "manifestCoreSha256", "files");
  }

  /** A field of the integrity record. */
  function IndexField(manifest: Json, key: string): Option<Json> {
    var integrity := Property(manifest, "integrity");
    if integrity.None? then None else Property(integrity.value, key)
  }

  /** Manifests with one core and one recorded hash agree in every field. */
  lemma SameCoreSameFields(m: Json, m': Json)
    requires m.Obj? && m'.Obj? && CoreOf(m) == CoreOf(m') && RecordedHash(m) == RecordedHash(m')
    requires RecordedHash(m).Some?
    ensures forall key :: key != "integrity" ==> Property(m, key) == Property(m', key)
    ensures forall key :: IndexField(m, key) == IndexField(m', key)
  {
    forall key | key != "integrity" ensures Property(m, key) == Property(m', key) {
      CoreField(m, key);
      CoreField(m', key);
    }
    forall key ensures IndexField(m, key) == IndexField(m', key) {
      if key != "manifestCoreSha256" {
        CoreIndexField(m, key);
        CoreIndexField(m', key);
      }
    }
  }

  lemma CoreField(m: Json, key: string)
    requires m.Obj? && key != "integrity"
    ensures Property(CoreOf(m), key) == Property(m, key)
  {
    hide Without;
    WithoutLookup(m.members, "integrity", key);
    var core := CoreOf(m).members;
    LookupAppend(core[..|core| - 1], [core[|core| - 1]], key);
    assert core == Without(m.members, "integrity") + [core[|core| - 1]];
    assert Keys([core[|core| - 1]]) == ["integrity"];
  }

  lemma CoreIndexField(m: Json, key: string)
    requires m.Obj? && RecordedHash(m).Some? && key != "manifestCoreSha256"
    ensures CoreOf(m).Obj? && CoreOf(m).members != []
    ensures Property(CoreOf(m).members[|CoreOf(m).members| - 1].1, key) == IndexField(m, key)
  {
    WithoutLookup(Property(m, "integrity").value.members, "manifestCoreSha256", key);
  }

  lemma ValidMeansViewed(host: Host, tree: Node, strict: bool)
    requires tree.Dir? && Validation(host, tree, strict).Ok?
    ensures ViewOf(tree).Some? && FileAt(tree, "manifest.json").Some?
    ensures ReadTop(host, tree, "manifest.json") == Some(Validation(host, tree, strict).value)
    ensures var m := Validation(host, tree, strict).value;
      && m.Obj? && Property(m, "integrity").Some?
      && RecordedHash(m) == Some(Str(CoreHash(host, m)))
      && IntegrityHolds(ViewOf(tree), Property(m, "integrity").value, host.sha)
  {
    hide CrossCheck, HasSignature, TextIn, CoreHash, RuntimePinned, RegularFile, ViewOf;
  }

  /**
   Two bundles that both validate and record the same core hash have the same manifest, field by field,
   and the same bytes in every file but the three derived outputs.
   */
  lemma CoreHashCommits(host: Host, tree: Node, tree': Node, strict: bool, strict': bool)
    requires HashInjective(host)
    requires tree.Dir? && WellFormedTree(tree) && Validation(host, tree, strict).Ok?
    requires tree'.Dir? && WellFormedTree(tree') && Validation(host, tree', strict').Ok?
    requires RecordedHash(Validation(host, tree, strict).value) == RecordedHash(Validation(host, tree', strict').value)
    ensures forall key :: key != "integrity" ==>
      Property(Validation(host, tree, strict).value, key) == Property(Validation(host, tree', strict').value, key)
    ensures forall key ::
      IndexField(Validation(host, tree, strict).value, key) == IndexField(Validation(host, tree', strict').value, key)
    ensures ViewOf(tree).Some? && ViewOf(tree').Some? && ViewOf(tree).value.content == ViewOf(tree').value.content
  {
    hide ViewOf, CoreOf, Stringify, Validation, Property, RecordedHash, WellFormedTree, IntegrityHolds;
    var m, m' := Validation(host, tree, strict).value, Validation(host, tree', strict').value;
    ValidMeansViewed(host, tree, strict);
    ValidMeansViewed(host, tree', strict');
    StringifyInjective(CoreOf(m), CoreOf(m'));
    ReadFiles(m, m');
    SameCoreSameFields(m, m');
    SameIndexSameContent(host.sha, tree, tree', Property(m, "integrity").value, Property(m', "integrity").value);
  }

  lemma SameIndexSameContent(sha: Hash, tree: Node, tree': Node, integrity: Json, integrity': Json)
    requires forall a, b :: sha(a) == sha(b) ==> a == b
    requires tree.Dir? && WellFormedTree(tree) && IntegrityHolds(ViewOf(tree), integrity, sha)
    requires tree'.Dir? && WellFormedTree(tree') && IntegrityHolds(ViewOf(tree'), integrity', sha)
    requires Property(integrity, "files") == Property(integrity', "files")
    ensures ViewOf(tree).value.content == ViewOf(tree').value.content
  {
    hide ViewOf;
    VerifiedFilesAreIndexed(tree, integrity, sha);
    VerifiedFilesAreIndexed(tree', integrity', sha);
    var c, c' := ViewOf(tree).value.content, ViewOf(tree').value.content;
    assert forall p :: p in c <==> p in c';
    forall p | p in c ensures c[p] == c'[p] {
      assert Str(sha(c[p])) == Str(sha(c'[p]));
    }
  }

  lemma ValidMeansRegular(host: Host, tree: Node, strict: bool, name: string)
    requires tree.Dir? && Validation(host, tree, strict).Ok? && name in REQUIRED
    ensures RegularFile(tree, name)
  {
    hide IntegrityHolds, CrossCheck, HasSignature, TextIn, RecordedHash, CoreHash, RuntimePinned;
  }

  /** In particular the files that replay and comparison read are the same. */
  lemma CoreHashFixesRequiredFiles(host: Host, tree: Node, tree': Node, strict: bool, strict': bool, name: string)
    requires HashInjective(host)
    requires tree.Dir? && WellFormedTree(tree) && Validation(host, tree, strict).Ok?
    requires tree'.Dir? && WellFormedTree(tree') && Validation(host, tree', strict').Ok?
    requires RecordedHash(Validation(host, tree, strict).value) == RecordedHash(Validation(host, tree', strict').value)
    requires name in REQUIRED && name != "manifest.json"
    ensures Child(tree.children, name) == Child(tree'.children, name)
  {
    hide ViewOf, Validation, RecordedHash, HashInjective, WellFormedTree, ValidName, IsDerived;
    CoreHashCommits(host, tree, tree', strict, strict');
    ValidMeansRegular(host, tree, strict, name);
    ValidMeansRegular(host, tree', strict', name);
    RequiredIsViewed(name);
    FileAtIsViewed(tree, name);
    FileAtIsViewed(tree', name);
  }

  lemma RequiredIsViewed(name: string)
    requires name in REQUIRED && name != "manifest.json"
    ensures !IsDerived(name) && ValidName(name)
  {
    assert |"replay.json"| == 11 && |"comparison.json"| == 15 && |"provenance.json"| == 15 &&
      "provenance.json"[0] == 'p';
    assert |"transaction.json"| == 16 && |"original-execution.json"| == 23 && |"expected.json"| == 13 &&
      |"README.md"| == 9;
    assert "comparison.json"[0] == 'c';
    NoSlashes();
  }

  lemma NoSlashes()
    ensures forall name :: name in REQUIRED ==> '/' !in name
  {
  }

  // ---------------------------------------------------------------------------------------
  // The seal of createBundle: index the files, hash the manifest, record the hash in it

  /** The manifest fields that validation does not read. */
  datatype Details = Details(
    toolVersion: Json, cluster: Json, slot: Json, reasons: Json, provenance: Json, provider: Json,
    featureSet: Json, capturedAt: Json, limitations: Json)

  const RUNTIME := Obj([("backend", Str("LiteSVM")), ("version", Str("0.15.2")), ("agave", Str("4.1.1"))])

  /** src/bundle.js:133-156, in property order. */
  function ManifestCore(
    signature: string, transactionClass: string, eligibility: string, d: Details): seq<(string, Json)> {
    [("schemaVersion", Str("0.1")), ("toolVersion", d.toolVersion), ("cluster", d.cluster),
     ("signature", Str(signature)), ("slot", d.slot), ("transactionClass", Str(transactionClass)),
     ("eligibility", Str(eligibility)), ("eligibilityReasons", d.reasons), ("stateProvenance", d.provenance),
     ("stateProvider", d.provider), ("runtime", RUNTIME), ("featureSet", d.featureSet),
     ("capturedAt", d.capturedAt), ("knownLimitations", d.limitations)]
  }

  function Sealed(host: Host, core: seq<(string, Json)>, index: Json): Json
    requires index.Obj?
  {
    var unsealed := Obj(core + [("integrity", index)]);
    Obj(core + [("integrity", WithCore(index, host.sha(host.utf8(Stringify(unsealed)))))])
  }

  /** None where building the index throws or manifest.json cannot be written. */
  method SealBundle(host: Host, tree: Node, core: seq<(string, Json)>) returns (r: Option<Node>)
    requires tree.Dir?
    ensures r == SealedTree(host, tree, core)
  {
    var index := BuildIntegrityIndex(tree, host.sha);
    if index.None? || !Integrity.Writable(tree, "manifest.json") { return None; }
    assert index.value.Obj?;
    r := Some(WriteTop(tree, "manifest.json", host.render(Sealed(host, core, index.value))));
  }

  /** The manifest of a directory, sealed; None where building the index throws. */
  function ManifestOf(host: Host, tree: Node, core: seq<(string, Json)>): Option<Json>
    requires tree.Dir?
  {
    var index := Index(tree, host.sha);
    if index.None? then None
    else
      assert index.value.Obj?;
      Some(Sealed(host, core, index.value))
  }

  function SealedTree(host: Host, tree: Node, core: seq<(string, Json)>): Option<Node>
    requires tree.Dir?
  {
    var manifest := ManifestOf(host, tree, core);
    if manifest.None? || !Integrity.Writable(tree, "manifest.json") then None
    else Some(WriteTop(tree, "manifest.json", host.render(manifest.value)))
  }

  lemma {:induction false} WithoutAbsent(ms: seq<(string, Json)>, key: string)
    requires key !in Keys(ms)
    ensures Without(ms, key) == ms
  {
    if ms != [] {
      var init, last := ms[..|ms| - 1], ms[|ms| - 1];
      assert Keys(ms) == Keys(init) + [last.0];
      WithoutAbsent(init, key);
      assert ms == init + [last];
    }
  }

  lemma WithoutLast(ms: seq<(string, Json)>, key: string, v: Json)
    requires key !in Keys(ms)
    ensures Without(ms + [(key, v)], key) == ms
    ensures Property(Obj(ms + [(key, v)]), key) == Some(v)
  {
    WithoutAbsent(ms, key);
    assert (ms + [(key, v)])[..|ms|] == ms;
    assert Keys([(key, v)])[0] == key;
    LookupAppend(ms, [(key, v)], key);
  }

  /** The hash taken before it was recorded is the hash recomputed from what was recorded. */
  lemma SealIsRecomputed(host: Host, core: seq<(string, Json)>, hashes: seq<(string, Json)>)
    requires "integrity" !in Keys(core)
    ensures var index := IndexJson(hashes); var manifest := Sealed(host, core, index);
      && CoreOf(manifest) == Obj(core + [("integrity", index)])
      && RecordedHash(manifest) == Some(Str(CoreHash(host, manifest)))
      && Property(manifest, "integrity") == Some(WithCore(index, CoreHash(host, manifest)))
  {
    hide Stringify, Property, Without;
    var index := IndexJson(hashes);
    var hash := host.sha(host.utf8(Stringify(Obj(core + [("integrity", index)]))));
    WithoutLast(core, "integrity", WithCore(index, hash));
    IndexLacksCore(hashes);
    WithoutLast(index.members, "manifestCoreSha256", Str(hash));
  }

  lemma IndexLacksCore(hashes: seq<(string, Json)>)
    ensures "manifestCoreSha256" !in Keys(IndexJson(hashes).members)
  {
    var keys := Keys(IndexJson(hashes).members);
    assert keys == ["algorithm", "files"];
    assert |"manifestCoreSha256"| > |"algorithm"|;
  }

  /** The values validation reads from a manifest, whoever assembled it. */
  predicate CoreReads(core: seq<(string, Json)>, signature: string) {
    && "integrity" !in Keys(core)
    && Property(Obj(core), "schemaVersion") == Some(Str("0.1"))
    && Property(Obj(core), "signature") == Some(Str(signature))
    && TextIn(Property(Obj(core), "transactionClass"), CLASSES)
    && TextIn(Property(Obj(core), "eligibility"), STATUSES)
  }

  lemma PropertyAt(ms: seq<(string, Json)>, i: nat)
    requires i < |ms| && forall j :: 0 <= j < i ==> ms[j].0 != ms[i].0
    ensures Property(Obj(ms), ms[i].0) == Some(ms[i].1)
  {
    assert Keys(ms)[i] == ms[i].0;
    if i > 0 {
      PropertyAt(ms[1..], i - 1);
    }
  }

  const FIELDS := ["schemaVersion", "toolVersion", "cluster", "signature", "slot", "transactionClass", "eligibility",
                   "eligibilityReasons", "stateProvenance", "stateProvider", "runtime", "featureSet", "capturedAt",
                     "knownLimitations"]

  /** A field name is told apart by its length and first letter. */
  function Tag(name: string): (nat, char) { (|name|, if name == "" then ' ' else name[0]) }

  lemma FieldTags()
    ensures forall i, j :: 0 <= i < j < |FIELDS| ==> FIELDS[i] != FIELDS[j]
    ensures "integrity" !in FIELDS
  {
    var tags := [(13, 's'), (11, 't'), (7, 'c'), (9, 's'), (4, 's'), (16, 't'), (11, 'e'),
                 (18, 'e'), (15, 's'), (13, 's'), (7, 'r'), (10, 'f'), (10, 'c'), (16, 'k')];
    assert forall i :: 0 <= i < |FIELDS| ==> Tag(FIELDS[i]) == tags[i];
    assert Tag("integrity") == (9, 'i');
    assert FIELDS[0][1] != FIELDS[9][1];
  }

  /** The manifest that createBundle assembles reads as validation expects. */
  lemma ManifestCoreReads(signature: string, transactionClass: string, eligibility: string, d: Details)
    requires transactionClass in CLASSES && eligibility in STATUSES
    ensures CoreReads(ManifestCore(signature, transactionClass, eligibility, d), signature)
    ensures RuntimePinned(Obj(ManifestCore(signature, transactionClass, eligibility, d)))
  {
    hide Property;
    RuntimeReads();
    var core := ManifestCore(signature, transactionClass, eligibility, d);
    FieldTags();
    assert Keys(core) == FIELDS;
    PropertyAt(core, 0);
    PropertyAt(core, 3);
    PropertyAt(core, 5);
    PropertyAt(core, 6);
    PropertyAt(core, 10);
  }

  /** Every field of an assembled manifest. */
  lemma ManifestFields(signature: string, transactionClass: string, eligibility: string, d: Details)
    ensures var m := Obj(ManifestCore(signature, transactionClass, eligibility, d));
      && Property(m, "schemaVersion") == Some(Str("0.1")) && Property(m, "signature") == Some(Str(signature))
      && Property(m, "transactionClass") == Some(Str(transactionClass))
      && Property(m, "eligibility") == Some(Str(eligibility)) && Property(m, "eligibilityReasons") == Some(d.reasons)
      && Property(m, "toolVersion") == Some(d.toolVersion) && Property(m, "cluster") == Some(d.cluster)
      && Property(m, "slot") == Some(d.slot) && Property(m, "stateProvenance") == Some(d.provenance)
      && Property(m, "stateProvider") == Some(d.provider) && Property(m, "featureSet") == Some(d.featureSet)
      && Property(m, "capturedAt") == Some(d.capturedAt) && Property(m, "knownLimitations") == Some(d.limitations)
  {
    hide Property;
    var core := ManifestCore(signature, transactionClass, eligibility, d);
    FieldTags();
    assert Keys(core) == FIELDS;
    forall i: nat | i < |core| ensures Property(Obj(core), FIELDS[i]) == Some(core[i].1) {
      assert Keys(core)[i] == FIELDS[i];
      PropertyAt(core, i);
    }
    FieldPlaces(Obj(core), core);
  }

  lemma FieldPlaces(m: Json, core: seq<(string, Json)>)
    requires |core| == |FIELDS| && forall i: nat :: i < |core| ==> Property(m, FIELDS[i]) == Some(core[i].1)
    ensures Property(m, "schemaVersion") == Some(core[0].1) && Property(m, "toolVersion") == Some(core[1].1)
    ensures Property(m, "cluster") == Some(core[2].1) && Property(m, "signature") == Some(core[3].1)
    ensures Property(m, "slot") == Some(core[4].1) && Property(m, "transactionClass") == Some(core[5].1)
    ensures Property(m, "eligibility") == Some(core[6].1) && Property(m, "eligibilityReasons") == Some(core[7].1)
    ensures Property(m, "stateProvenance") == Some(core[8].1) && Property(m, "stateProvider") == Some(core[9].1)
    ensures Property(m, "runtime") == Some(core[10].1) && Property(m, "featureSet") == Some(core[11].1)
    ensures Property(m, "capturedAt") == Some(core[12].1) && Property(m, "knownLimitations") == Some(core[13].1)
  {
    hide Property;
    assert FIELDS[0] == "schemaVersion" && FIELDS[1] == "toolVersion" && FIELDS[2] == "cluster";
    assert FIELDS[3] == "signature" && FIELDS[4] == "slot" && FIELDS[5] == "transactionClass";
    assert FIELDS[6] == "eligibility" && FIELDS[7] == "eligibilityReasons" && FIELDS[8] == "stateProvenance";
    assert FIELDS[9] == "stateProvider" && FIELDS[10] == "runtime" && FIELDS[11] == "featureSet";
    assert FIELDS[12] == "capturedAt" && FIELDS[13] == "knownLimitations";
  }

  /** What createBundle has staged before sealing: the required files, agreeing on the signature. */
  predicate Staged(host: Host, tree: Node, core: seq<(string, Json)>)
    requires tree.Dir?
  {
    (forall name :: name in REQUIRED && name != "manifest.json" ==> RegularFile(tree, name)) &&
    CrossCheck(host, tree, Obj(core)) == None
  }

  lemma CoreProperty(core: seq<(string, Json)>, integrity: Json, key: string)
    requires key != "integrity"
    ensures Property(Obj(core + [("integrity", integrity)]), key) == Property(Obj(core), key)
  {
    assert Keys([("integrity", integrity)]) == ["integrity"];
    LookupAppend(core, [("integrity", integrity)], key);
  }

  lemma FieldsAreNotIntegrity()
    ensures forall k :: k in FIELDS ==> k != "integrity"
    ensures FIELDS[0] in FIELDS && FIELDS[3] in FIELDS && FIELDS[5] in FIELDS && FIELDS[6] in FIELDS &&
      FIELDS[10] in FIELDS
  {
    FieldTags();
  }

  lemma SealedReads(host: Host, core: seq<(string, Json)>, index: Json, signature: string)
    requires index.Obj? && CoreReads(core, signature) && Base58.IsSignature(signature)
    ensures var m := Sealed(host, core, index);
      && Property(m, "schemaVersion") == Some(Str("0.1"))
      && Property(m, "signature") == Property(Obj(core), "signature") && HasSignature(m)
      && TextIn(Property(m, "transactionClass"), CLASSES) && TextIn(Property(m, "eligibility"), STATUSES)
      && (RuntimePinned(m) <==> RuntimePinned(Obj(core)))
  {
    hide Property, Stringify, Base58.IsSignature;
    var integrity := WithCore(index, host.sha(host.utf8(Stringify(Obj(core + [("integrity", index)])))));
    FieldsAreNotIntegrity();
    CoreProperty(core, integrity, FIELDS[0]);
    CoreProperty(core, integrity, FIELDS[3]);
    CoreProperty(core, integrity, FIELDS[5]);
    CoreProperty(core, integrity, FIELDS[6]);
    CoreProperty(core, integrity, FIELDS[10]);
  }

  lemma SealedField(host: Host, core: seq<(string, Json)>, index: Json)
    requires index.Obj?
    ensures Property(Sealed(host, core, index), "eligibility") == Property(Obj(core), "eligibility")
  {
    hide Property, Stringify;
    FieldsAreNotIntegrity();
    CoreProperty(core, WithCore(index, host.sha(host.utf8(Stringify(Obj(core + [("integrity", index)]))))), FIELDS[6]);
  }

  lemma PlannedField(signature: string, transactionClass: string, eligibility: string, d: Details)
    ensures Property(Obj(ManifestCore(signature, transactionClass, eligibility, d)), "eligibility") ==
      Some(Str(eligibility))
  {
    hide Property;
    var core := ManifestCore(signature, transactionClass, eligibility, d);
    FieldTags();
    assert Keys(core) == FIELDS;
    PropertyAt(core, 6);
  }

  lemma RuntimeReads()
    ensures Property(RUNTIME, "backend") == Some(Str("LiteSVM"))
    ensures Property(RUNTIME, "version") == Some(Str("0.15.2"))
    ensures Property(RUNTIME, "agave") == Some(Str("4.1.1"))
  {
    hide Property;
    assert "backend"[0] != "version"[0] && |"agave"| == 5;
    PropertyAt(RUNTIME.members, 0);
    PropertyAt(RUNTIME.members, 1);
    PropertyAt(RUNTIME.members, 2);
  }

  lemma RequiredNames()
    ensures forall name :: name in REQUIRED && name != "manifest.json" ==>
      name in {"transaction.json", "original-execution.json", "expected.json", "provenance.json", "README.md"}
    ensures "manifest.json" !in {"transaction.json", "original-execution.json", "expected.json", "provenance.json"}
  {
    assert |"manifest.json"| == 13 && |"transaction.json"| == 16 && |"original-execution.json"| == 23 &&
      |"provenance.json"| == 15;
    assert "manifest.json"[0] != "expected.json"[0];
  }

  lemma SealedTreeReads(host: Host, tree: Node, core: seq<(string, Json)>, m: Json)
    requires HostWorks(host, m) && tree.Dir? && WellFormedTree(tree) && Integrity.Writable(tree, "manifest.json")
    requires Staged(host, tree, core)
    requires Property(m, "signature") == Property(Obj(core), "signature")
    ensures var t := WriteTop(tree, "manifest.json", host.render(m));
      && WellFormedTree(t) && ViewOf(t) == ViewOf(tree)
      && ReadTop(host, t, "manifest.json") == Some(m)
      && CrossCheck(host, t, m) == None
      && ((exists name :: name in REQUIRED && !RegularFile(t, name)) <==> |host.render(m)| > MAX_FILE_BYTES)
  {
    hide Property, ViewOf, PutChild, WellFormedTree, WellFormed, HostWorks, CrossCheck, Staged;
    DerivedOutputsAreInvisible(tree, "manifest.json", host.render(m));
    var t := WriteTop(tree, "manifest.json", host.render(m));
    StagedFiles(host, tree, core);
    assert host.parse(host.render(m)) == Some(m) by { RenderedReads(host, m); }
    assert REQUIRED[0] in REQUIRED && "manifest.json" in REQUIRED;
    assert forall name :: name != "manifest.json" ==>
      ReadTop(host, t, name) == ReadTop(host, tree, name) && RegularFile(t, name) == RegularFile(tree, name);
    SameCross(host, tree, t, Obj(core), m);
    assert RegularFile(t, "manifest.json") <==> |host.render(m)| <= MAX_FILE_BYTES;
  }

  lemma StagedFiles(host: Host, tree: Node, core: seq<(string, Json)>)
    requires tree.Dir? && Staged(host, tree, core)
    ensures forall name :: name in REQUIRED && name != "manifest.json" ==> RegularFile(tree, name)
    ensures CrossCheck(host, tree, Obj(core)) == None
  {
  }

  lemma RenderedReads(host: Host, v: Json)
    requires HostWorks(host, v)
    ensures host.parse(host.render(v)) == Some(v)
  {
  }

  lemma SameCross(host: Host, tree: Node, tree': Node, m: Json, m': Json)
    requires tree.Dir? && tree'.Dir?
    requires forall name :: name != "manifest.json" ==> ReadTop(host, tree', name) == ReadTop(host, tree, name)
    requires Property(m', "signature") == Property(m, "signature")
    ensures CrossCheck(host, tree', m') == CrossCheck(host, tree, m)
  {
    hide Property, ReadTop;
    RequiredNames();
  }

  /** The files a bundle directory may hold for its own index to be accepted. */
  ghost predicate Acceptable(tree: Node) {
    ViewOf(tree).Some? &&
    (forall p :: p in ViewOf(tree).value.paths ==> p in ViewOf(tree).value.content && Portable(p)) &&
    WithinLimits(ViewOf(tree).value)
  }

  lemma AppendWellFormed(ms: seq<(string, Json)>, key: string, v: Json)
    requires WellFormed(Obj(ms)) && key !in Keys(ms) && WellFormed(v)
    ensures WellFormed(Obj(ms + [(key, v)]))
  {
    assert Keys(ms + [(key, v)]) == Keys(ms) + [key];
  }

  lemma IndexWellFormed(tree: Node, sha: Hash)
    requires tree.Dir? && WellFormedTree(tree) && Index(tree, sha).Some?
    ensures WellFormed(Index(tree, sha).value)
  {
    hide ViewOf, Open, Hashes;
    var paths := ViewOf(tree).value.paths;
    var hashes := Hashes(tree, paths, sha).value;
    ViewDistinct(tree);
    assert Keys(hashes) == paths;
    assert WellFormed(Obj(hashes));
    var keys := Keys(IndexJson(hashes).members);
    assert keys == ["algorithm", "files"] && |"algorithm"| != |"files"|;
  }

  /** A sealed manifest repeats no key, so it survives being written and read. */
  lemma SealedWellFormed(host: Host, tree: Node, core: seq<(string, Json)>)
    requires tree.Dir? && WellFormedTree(tree) && Index(tree, host.sha).Some?
    requires WellFormed(Obj(core)) && "integrity" !in Keys(core)
    ensures Index(tree, host.sha).value.Obj? && WellFormed(Sealed(host, core, Index(tree, host.sha).value))
  {
    hide Stringify, WellFormed, ViewOf, Hashes;
    var index := Index(tree, host.sha).value;
    var hash := host.sha(host.utf8(Stringify(Obj(core + [("integrity", index)]))));
    IndexWellFormed(tree, host.sha);
    IndexLacksCore(Hashes(tree, ViewOf(tree).value.paths, host.sha).value);
    TextWellFormed(hash);
    AppendWellFormed(index.members, "manifestCoreSha256", Str(hash));
    AppendWellFormed(core, "integrity", WithCore(index, hash));
  }

  lemma TextWellFormed(text: string)
    ensures WellFormed(Str(text))
  {
  }

  ghost predicate WellFormedDetails(d: Details) {
    WellFormed(d.toolVersion) && WellFormed(d.cluster) && WellFormed(d.slot) && WellFormed(d.reasons) &&
      WellFormed(d.provenance) &&
    WellFormed(d.provider) && WellFormed(d.featureSet) && WellFormed(d.capturedAt) && WellFormed(d.limitations)
  }

  lemma ManifestCoreWellFormed(signature: string, transactionClass: string, eligibility: string, d: Details)
    requires WellFormedDetails(d)
    ensures WellFormed(Obj(ManifestCore(signature, transactionClass, eligibility, d)))
  {
    var core := ManifestCore(signature, transactionClass, eligibility, d);
    FieldTags();
    assert Keys(core) == FIELDS;
    assert |"backend"| == 7 && |"version"| == 7 && "backend"[0] != "version"[0] && |"agave"| == 5;
    assert Keys(RUNTIME.members) == ["backend", "version", "agave"];
    assert WellFormed(RUNTIME);
  }

  /**
   A freshly sealed bundle validates exactly when its directory holds only ordinary files with
   portable names within the limits and the manifest itself is not too large, and, where the
   runtime is asked for, its core carries the pins.
   */
  lemma SealedBundleValidates(host: Host, tree: Node, core: seq<(string, Json)>, signature: string, strict: bool)
    requires tree.Dir? && WellFormedTree(tree) && Integrity.Writable(tree, "manifest.json")
    requires ManifestOf(host, tree, core).Some? ==> HostWorks(host, ManifestOf(host, tree, core).value)
    requires CoreReads(core, signature) && Base58.IsSignature(signature) && Staged(host, tree, core)
    ensures ManifestOf(host, tree, core).Some? ==> SealedTree(host, tree, core).Some?
    ensures (SealedTree(host, tree, core).Some? &&
      Validation(host, SealedTree(host, tree, core).value, strict).Ok?) <==>
      (Acceptable(tree) && ManifestOf(host, tree, core).Some? && (strict ==> RuntimePinned(Obj(core))) &&
       |host.render(ManifestOf(host, tree, core).value)| <= MAX_FILE_BYTES)
  {
    hide ViewOf, Hashes, Property, CoreOf, RecordedHash, HasSignature, TextIn, RuntimePinned, CrossCheck;
    hide Base58.IsSignature;
    hide Stringify, PutChild, Sealed, Staged, CoreReads, IntegrityHolds, RegularFile, ReadTop, WellFormed;
    var index := Index(tree, host.sha);
    if index.Some? {
      var hashes := Hashes(tree, ViewOf(tree).value.paths, host.sha).value;
      assert index.value == IndexJson(hashes);
      assert "integrity" !in Keys(core) by { CoreReadsKeys(core, signature); }
      SealIsRecomputed(host, core, hashes);
      SealedReads(host, core, index.value, signature);
      var m := Sealed(host, core, index.value);
      SealedTreeReads(host, tree, core, m);
      FreshIndexVerifies(tree, host.sha, CoreHash(host, m));
      assert !m.Null?  by { SealedIsObject(host, core, index.value); }
    }
  }

  lemma CoreReadsKeys(core: seq<(string, Json)>, signature: string)
    requires CoreReads(core, signature)
    ensures "integrity" !in Keys(core)
  {
  }

  lemma SealedIsObject(host: Host, core: seq<(string, Json)>, index: Json)
    requires index.Obj?
    ensures Sealed(host, core, index).Obj?
  {
  }
}
