/** One bundle from capture to assertion, and the commands that treat it badly. */
module Example {
  import opened JsText
  import opened Integrity
  import opened Bundle
  import opened Create
  import opened CreateValid
  import opened Records
  import opened Workflow
  import Base58
  import Compare
  import Eligibility
  import EndToEnd
  import Json
  import Lcs
  import Logs
  import Numerals
  import Provenance
  import Transaction

  // ---------------------------------------------------------------------------------------
  // A host whose digests spell out their input

  function EncodeText(text: string): seq<Byte> {
    if text == "" then []
    else
      var n := text[0] as int;
      [n / 0x1_0000, n / 0x100 % 0x100, n % 0x100] + EncodeText(text[1..])
  }

  function DecodeText(bytes: seq<Byte>): Option<string> {
    if bytes == [] then Some("")
    else if |bytes| < 3 then None
    else
      var n := bytes[0] as int * 0x1_0000 + bytes[1] as int * 0x100 + bytes[2] as int;
      var rest := DecodeText(bytes[3..]);
      if rest.None? || 0xD800 <= n < 0xE000 || n >= 0x11_0000 then None else Some([n as char] + rest.value)
  }

  lemma ThreeBytes(n: nat)
    requires n < 0x100_0000
    ensures n == n / 0x1_0000 * 0x1_0000 + n / 0x100 % 0x100 * 0x100 + n % 0x100
  {
    assert n / 0x100 == n / 0x1_0000 * 0x100 + n / 0x100 % 0x100;
  }

  lemma {:induction false} TextDecodes(text: string)
    ensures DecodeText(EncodeText(text)) == Some(text)
  {
    if text != "" {
      TextDecodes(text[1..]);
      ThreeBytes(text[0] as int);
      var bytes := EncodeText(text);
      assert bytes[3..] == EncodeText(text[1..]);
      assert bytes[0] as int * 0x1_0000 + bytes[1] as int * 0x100 + bytes[2] as int == text[0] as int;
      assert [text[0]] + text[1..] == text;
    }
  }

  function HexText(bytes: seq<Byte>): string {
    if bytes == [] then "h" else HexText(bytes[1..]) + [Json.HexChar(bytes[0] / 16), Json.HexChar(bytes[0] % 16)]
  }

  lemma {:induction false} HexTextInjective(a: seq<Byte>, b: seq<Byte>)
    requires HexText(a) == HexText(b)
    ensures a == b
  {
    HexLength(a);
    HexLength(b);
    if a != [] {
      var s, t := HexText(a), HexText(b);
      assert s[..|s| - 2] == HexText(a[1..]) && t[..|t| - 2] == HexText(b[1..]);
      HexTextInjective(a[1..], b[1..]);
      assert Json.HexChar(a[0] / 16) == s[|s| - 2] == Json.HexChar(b[0] / 16) &&
        Json.HexChar(a[0] % 16) == s[|s| - 1] == Json.HexChar(b[0] % 16);
      assert a[0] / 16 == b[0] / 16 && a[0] % 16 == b[0] % 16;
      assert a == [a[0]] + a[1..] && b == [b[0]] + b[1..];
    }
  }

  lemma {:induction false} HexLength(bytes: seq<Byte>)
    ensures |HexText(bytes)| == 2 * |bytes| + 1
  {
    if bytes != [] { HexLength(bytes[1..]); }
  }

  lemma {:induction false} EncodeInjective(s: string, t: string)
    requires EncodeText(s) == EncodeText(t)
    ensures s == t
  {
    TextDecodes(s);
    TextDecodes(t);
  }

  function Signature(): string { Base58.Encoded(Base58.Repeat(1, 64)) }

  /** The files of the example hold one byte each; this is what they stand for. */
  function Contents(manifest: Json.Json, bytes: seq<Byte>): Option<Json.Json> {
    if bytes == [0] then Some(manifest)
    else if bytes == [1] then Some(Json.Obj([("signature", Json.Str(Signature()))]))
    else if bytes == [2] then Some(Json.Obj([("accounts", Json.Arr([]))]))
    else None
  }

  function ExampleHost(manifest: Json.Json): Host {
    Host(HexText, EncodeText, (bytes: seq<Byte>) => Contents(manifest, bytes), (v: Json.Json) => [0])
  }

  lemma ExampleHostWorks(manifest: Json.Json)
    ensures HashInjective(ExampleHost(manifest)) && HostWorks(ExampleHost(manifest), manifest)
  {
    hide HexText, EncodeText;
    var host := ExampleHost(manifest);
    forall a, b | host.sha(a) == host.sha(b) ensures a == b {
      HexTextInjective(a, b);
    }
    forall s, t | host.utf8(s) == host.utf8(t) ensures s == t {
      EncodeInjective(s, t);
    }
    forall b ensures host.sha(b) != "" {
      HexLength(b);
    }
  }

  // ---------------------------------------------------------------------------------------
  // A System transfer of one lamport, and its plan

  const TRANSFER_DATA: seq<Byte> := [2, 0, 0, 0, 1, 0, 0, 0, 0, 0, 0, 0]

  function Payer(): string { Eligibility.SomeKey('A') }

  function Transfer(): Transaction.Tx {
    Transaction.Tx(
      [Payer(), SYSTEM], Transaction.Header(1, 0, 1),
      [Transaction.Instruction(None, Some(1), Some(Base58.Encoded(TRANSFER_DATA)), Some([0, 0]))], [], [], [],
      Json.Null, [10000, 1], [5000, 1], [], [], None)
  }

  /** The payer is seen as an empty System account. */
  function TransferCapture(): Eligibility.Capture {
    Eligibility.Capture(Signature(), Signature(), Transfer(), Transaction.Inspect(Transfer()),
                        [(Payer(), Some(Provenance.Observation(SYSTEM, [], false)))], [], [])
  }

  function TransferPlan(): Eligibility.Plan {
    Eligibility.Plan(
      Transaction.Classification(Transaction.SYSTEM_TRANSFER, None),
      [Provenance.Entry(Transaction.RoleOf(Transfer(), 0), "transaction_metadata", Provenance.PROVEN, true, true,
                        Some(Provenance.Account(Some(10000), [], SYSTEM, false))),
       Provenance.Entry(Transaction.RoleOf(Transfer(), 1), "pinned_runtime", Provenance.PROVEN, true, false, None)],
      Provenance.Summary(2, 0, 0, 0), true)
  }

  lemma TransferRuns()
    ensures var tx := Transfer();
      && Transaction.AllKeys(tx) == tx.accountKeys
      && Transaction.Inspect(tx).programIds == [SYSTEM]
      && Transaction.HasSystemTransfer(tx.accountKeys, tx.instructions) == Ok(true)
  {
    hide Base58.Encoded, Base58.Decoded;
    var tx := Transfer();
    var ins := tx.instructions[0];
    Base58.DecodeEncode(TRANSFER_DATA);
    assert Transaction.AllKeys(tx) == tx.accountKeys;
    assert Transaction.Invoked(tx) == [ins] && Transaction.Invoked(tx)[..0] == [];
    assert TRANSFER_DATA[..4] == [2, 0, 0, 0];
    TransferTag();
  }

  lemma TransferTag()
    ensures Numerals.ValueLE([2, 0, 0, 0], 256) == 2
  {
    var one: seq<nat> := [2];
    var two, three, four := one + [0], one + [0, 0], one + [0, 0, 0];
    assert one[..0] == [] && two[..1] == one && three[..2] == two && four[..3] == three;
    assert Numerals.ValueLE(one, 256) == 2 by { assert Numerals.Pow(256, 0) == 1; }
    assert Numerals.ValueLE(two, 256) == 2 && Numerals.ValueLE(three, 256) == 2;
    assert four == [2, 0, 0, 0];
  }

  lemma SystemIsAddress()
    ensures Base58.IsAddress(SYSTEM)
  {
    hide Base58.Decoded;
    var zeros := Base58.Repeat(0, 32);
    assert zeros == Numerals.Zeros(32) + [];
    Numerals.LeadingZerosOf(32, []);
    Numerals.ValueZeros(32, [], 256);
    Base58.DecodeEncode(zeros);
    assert Base58.Encoded(zeros) == SYSTEM;
  }

  lemma TransferAddresses()
    ensures Base58.IsSignature(Signature())
    ensures var roles := Transaction.Inspect(Transfer()).accountRoles;
      |roles| == 2 && forall r :: r in roles ==> Base58.IsAddress(r.pubkey)
    ensures Payer() != SYSTEM
  {
    hide Base58.Encoded, Base58.IsAddress, Transaction.Programs;
    Base58.DecodeEncode(Base58.Repeat(1, 64));
    Eligibility.SomeKeyIsAddress('A');
    SystemIsAddress();
    assert |Payer()| == 43 && |SYSTEM| == 32;
    assert Transaction.AllKeys(Transfer()) == Transfer().accountKeys;
  }

  lemma TransferObserved(pubkey: string)
    ensures Eligibility.LastObserved(TransferCapture().observed, pubkey) ==
      if pubkey == Payer() then Some(Provenance.Observation(SYSTEM, [], false)) else None
  {
    hide Base58.Encoded, Transaction.Inspect, Eligibility.SomeKey;
    var observed := TransferCapture().observed;
    assert observed[..0] == [];
  }

  lemma TransferEntries()
    ensures var capture := TransferCapture();
      Eligibility.DeriveAll(capture.metadata.accountRoles, capture.observed, capture.metadata,
        TransferPlan().classification) ==
        Ok(TransferPlan().entries)
  {
    hide Base58.Encoded, Transaction.Programs, Transaction.Invoked, Provenance.Derive, Eligibility.LastObserved;
    hide Base58.IsAddress;
    hide Payer;
    var capture := TransferCapture();
    var roles := capture.metadata.accountRoles;
    TransferRuns();
    TransferAddresses();
    TransferObserved(Payer());
    TransferObserved(SYSTEM);
    TransferDerives(roles[0], roles[1], capture.metadata);
    TwoDerived(roles, capture.observed, capture.metadata, TransferPlan().classification, TransferPlan().entries);
  }

  lemma TwoDerived(
    roles: seq<Role>, observed: Eligibility.Observed, metadata: Transaction.Metadata, c: Transaction.Classification,
    entries: seq<Provenance.Entry>)
    requires |roles| == 2 && |entries| == 2
    requires forall i :: 0 <= i < 2 ==>
      Provenance.Derive(roles[i], Eligibility.LastObserved(observed, roles[i].pubkey), metadata, c.transactionClass,
        c.details) ==
        Ok(entries[i])
    ensures Eligibility.DeriveAll(roles, observed, metadata, c) == Ok(entries)
  {
    hide Provenance.Derive, Eligibility.LastObserved;
    var rest := roles[1..];
    assert rest == [roles[1]] && rest[1..] == [];
    assert [entries[1]] + [] == [entries[1]];
    assert Eligibility.DeriveAll(rest, observed, metadata, c) == Ok([entries[1]]);
    assert entries == [entries[0]] + [entries[1]];
  }

  lemma TransferDerives(first: Role, second: Role, metadata: Transaction.Metadata)
    requires first.index == 0 && first.pubkey != SYSTEM && second.pubkey == SYSTEM
    requires metadata.programIds == [SYSTEM] && metadata.preBalances == [10000, 1]
    ensures Provenance.Derive(first, Some(Provenance.Observation(SYSTEM, [], false)), metadata,
      Transaction.SYSTEM_TRANSFER, None) ==
      Ok(Provenance.Entry(first, "transaction_metadata", Provenance.PROVEN, true, true,
                          Some(Provenance.Account(Some(10000), [], SYSTEM, false))))
    ensures Provenance.Derive(second, None, metadata, Transaction.SYSTEM_TRANSFER, None) ==
      Ok(Provenance.Entry(second, "pinned_runtime", Provenance.PROVEN, true, false, None))
  {
  }

  lemma TransferPlans()
    ensures Eligibility.PlanBundle(TransferCapture()) == Ok(TransferPlan())
  {
    hide Base58.IsSignature, Base58.IsAddress, Base58.Encoded, Eligibility.DeriveAll, Transaction.HasSystemTransfer;
    hide Transaction.Programs, Transaction.ClassicSpl, Transaction.Invoked, Eligibility.SomeKey;
    var capture := TransferCapture();
    TransferRuns();
    TransferAddresses();
    TransferEntries();
    assert SYSTEM in capture.metadata.programIds;
    SummaryOfTwo(TransferPlan().entries);
  }

  lemma CountOfTwo(entries: seq<Provenance.Entry>, p: Provenance.Provenance)
    requires |entries| == 2
    ensures Provenance.Count(entries, p) ==
      (if entries[0].provenance == p then 1 else 0) + (if entries[1].provenance == p then 1 else 0)
  {
    var one := entries[..1];
    assert one[..0] == [] && Provenance.Count([], p) == 0;
    assert Provenance.Count(one, p) == if entries[0].provenance == p then 1 else 0;
  }

  lemma SummaryOfTwo(entries: seq<Provenance.Entry>)
    requires |entries| == 2 && entries[0].provenance == Provenance.PROVEN && entries[1].provenance == Provenance.PROVEN
    ensures Provenance.Summarize(entries) == Provenance.Summary(2, 0, 0, 0)
  {
    hide Provenance.Count;
    CountOfTwo(entries, Provenance.PROVEN);
    CountOfTwo(entries, Provenance.INFERRED);
    CountOfTwo(entries, Provenance.CURRENT_ONLY);
    CountOfTwo(entries, Provenance.UNKNOWN);
  }

  // ---------------------------------------------------------------------------------------
  // The bundle, over account files left from before or none, with its own runtime pins or others

  function ExampleWriter(): Writer {
    Writer((entry: Provenance.Entry) => [7], (c: Eligibility.Capture, r: Recorded) => [1], (e: Compare.Expected) => [2],
           (c: Eligibility.Capture, p: Eligibility.Plan) => [2], (lookups: seq<string>) => [7],
           (core: seq<(string, Json.Json)>) => [7])
  }

  function ExampleArtifact(): Artifact {
    Artifact(TransferCapture(), Recorded(Is(150), Json.Null, Json.Null, Logs.Written([])), [1], (name: string) => None)
  }

  const DETAILS := Details(
    Json.Null, Json.Null, Json.Null, Json.Null, Json.Null, Json.Null, Json.Null, Json.Null, Json.Null)

  function PinnedCore(): seq<(string, Json.Json)> { PlannedCore(TransferCapture(), TransferPlan(), DETAILS) }

  const OTHER_RUNTIME :=
    Json.Obj([("backend", Json.Str("LiteSVM")), ("version", Json.Str("0.14.0")), ("agave", Json.Str("4.1.1"))])

  /** The same manifest, from a tool with another runtime. */
  function OtherCore(): seq<(string, Json.Json)> { PinnedCore()[10 := ("runtime", OTHER_RUNTIME)] }

  ghost function ExampleStaged(left: seq<(string, Node)>): (tree: Node)
    ensures tree.Dir?
  {
    var staged := StagedTree(ExampleWriter(), Leftover(left), ExampleArtifact(), TransferPlan(), PinnedCore());
    if staged.Some? then staged.value else Dir([])
  }

  ghost function ExampleManifest(left: seq<(string, Node)>, core: seq<(string, Json.Json)>): Json.Json {
    var manifest := ManifestOf(ExampleHost(Json.Null), ExampleStaged(left), core);
    if manifest.Some? then manifest.value else Json.Null
  }

  ghost function HostOf(left: seq<(string, Node)>, core: seq<(string, Json.Json)>): Host {
    ExampleHost(ExampleManifest(left, core))
  }

  ghost function ExampleBundle(left: seq<(string, Node)>, core: seq<(string, Json.Json)>): (tree: Node)
    ensures tree.Dir?
  {
    var sealed := SealedTree(HostOf(left, core), ExampleStaged(left), core);
    if sealed.Some? then sealed.value else Dir([])
  }

  /** At most one small file left from before. */
  ghost predicate Few(left: seq<(string, Node)>) {
    PlainFiles(left) && |left| <= 1 && forall i :: 0 <= i < |left| ==> |left[i].1.bytes| <= 1
  }

  lemma ManifestIgnoresReading(a: Json.Json, b: Json.Json, tree: Node, core: seq<(string, Json.Json)>)
    requires tree.Dir?
    ensures ManifestOf(ExampleHost(a), tree, core) == ManifestOf(ExampleHost(b), tree, core)
  {
    hide Index, Json.Stringify;
  }

  lemma ExampleFiles(left: seq<(string, Node)>)
    requires Few(left)
    ensures Files(ExampleWriter(), ExampleArtifact(), TransferPlan(), PinnedCore()).Some?
    ensures var files :=
      Files(ExampleWriter(), ExampleArtifact(), TransferPlan(), PinnedCore()).value + LeftFiles(left);
      |files| <= 9 && forall f :: f in files ==> |f.1| <= 1
  {
    hide PinnedCore, ExpectedOf, ValidName, TransferCapture, AccountName;
    var plan := TransferPlan();
    assert ProgramFiles([], ExampleArtifact().executables) == Some([]);
    assert ExampleArtifact().capture.programs == [] by { NoPrograms(); }
    var accounts, evidence, others :=
      AccountFiles(ExampleWriter(), plan.entries), EvidenceFiles(ExampleWriter(), ExampleArtifact(), plan,
        PinnedCore()), LeftFiles(left);
    assert forall f :: f in accounts ==> |f.1| <= 1;
    assert forall f :: f in others ==> |f.1| <= 1;
    ExampleEvidence();
    assert |accounts| == 2 && |evidence| == 6;
  }

  lemma NoPrograms()
    ensures TransferCapture().programs == []
  {
  }

  lemma ExampleEvidence()
    ensures forall f ::
      f in EvidenceFiles(ExampleWriter(), ExampleArtifact(), TransferPlan(), PinnedCore()) ==> |f.1| <= 1
  {
    hide PinnedCore, ExpectedOf, TransferCapture, TransferPlan;
  }

  lemma ExampleAgrees(manifest: Json.Json)
    ensures WriterAgrees(ExampleHost(manifest), ExampleWriter(), ExampleArtifact(), TransferPlan())
  {
    hide Signature, ExpectedOf, TransferPlan;
    OneMember("signature", Json.Str(Signature()));
    OneMember("accounts", Json.Arr([]));
    assert ExampleArtifact().capture.signature == Signature();
  }

  lemma OneMember(key: string, v: Json.Json)
    ensures Json.Property(Json.Obj([(key, v)]), key) == Some(v)
  {
    assert Json.Keys([(key, v)])[0] == key;
  }

  /** Either core makes a bundle that validates, strictly only with the pins. */
  lemma ExampleValidates(left: seq<(string, Node)>, core: seq<(string, Json.Json)>, strict: bool)
    requires Few(left) && CoreReads(core, Signature())
    ensures var tree := ExampleBundle(left, core);
      && WellFormedTree(tree) && ViewOf(tree) == ViewOf(ExampleStaged(left))
      && SealedTree(HostOf(left, core), ExampleStaged(left), core) == Some(tree)
      && ManifestOf(HostOf(left, core), ExampleStaged(left), core) == Some(ExampleManifest(left, core))
      && (Validation(HostOf(left, core), tree, strict).Ok? <==> (strict ==> RuntimePinned(Json.Obj(core))))
      && (Validation(HostOf(left, core), tree, strict).Ok? ==>
            Validation(HostOf(left, core), tree, strict).value == ExampleManifest(left, core))
  {
    hide TransferPlan, TransferCapture, PinnedCore, Files, StagedTree, Leftover, PlainFiles, WellFormedTree, ViewOf;
    hide Validation;
    hide WriterAgrees, CoreReads, RuntimePinned, Sealed, Index, WithinLimits, HashInjective, Signature;
    hide Eligibility.PlanBundle;
    TransferPlans();
    assert ExampleArtifact().capture == TransferCapture();
    assert TransferCapture().signature == Signature() by { CaptureSignature(); }
    ExampleFiles(left);
    FewSmallFiles(ExampleWriter(), left, ExampleArtifact(), PinnedCore(), 1);
    ManifestIgnoresReading(ExampleManifest(left, core), Json.Null, ExampleStaged(left), core);
    ExampleHostWorks(ExampleManifest(left, core));
    ExampleAgrees(ExampleManifest(left, core));
    StagedValidates(HostOf(left, core), ExampleWriter(), left, ExampleArtifact(), core, PinnedCore(), strict);
    EndToEnd.SealedManifest(HostOf(left, core), ExampleStaged(left), core, strict);
  }

  lemma CaptureSignature()
    ensures TransferCapture().signature == Signature()
  {
  }

  /** With its own pins, it is what createBundle makes of the capture. */
  lemma ExampleIsCreated(left: seq<(string, Node)>)
    requires Few(left)
    ensures Created(HostOf(left, PinnedCore()), ExampleWriter(), Leftover(left), ExampleArtifact(), DETAILS) ==
      Some(ExampleBundle(left, PinnedCore()))
    ensures CreatedManifest(HostOf(left, PinnedCore()), ExampleWriter(), Leftover(left), ExampleArtifact(), DETAILS) ==
      Some(ExampleManifest(left, PinnedCore()))
  {
    hide TransferPlan, TransferCapture, StagedTree, Leftover, PlainFiles, WellFormedTree, ViewOf, Validation;
    hide CoreReads, RuntimePinned, Sealed, Index, WithinLimits, HashInjective, Signature, Eligibility.PlanBundle;
    hide ManifestCore;
    hide SealedTree, ManifestOf;
    TransferPlans();
    assert ExampleArtifact().capture == TransferCapture();
    assert TransferCapture().signature == Signature() by { CaptureSignature(); }
    PlannedCoreReads(TransferCapture(), TransferPlan(), DETAILS);
    ExampleValidates(left, PinnedCore(), true);
    ExampleStages(left);
  }

  lemma ExampleStages(left: seq<(string, Node)>)
    requires Few(left)
    ensures StagedTree(ExampleWriter(), Leftover(left), ExampleArtifact(), TransferPlan(), PinnedCore()) ==
      Some(ExampleStaged(left))
    ensures WellFormedTree(ExampleStaged(left)) && ViewOf(ExampleStaged(left)).Some?
    ensures FileAt(ExampleStaged(left), "expected.json") == Some([2])
    ensures FileAt(ExampleStaged(left), "original-execution.json") == Some([1])
    ensures forall name :: name in MUTABLE_OUTPUTS ==> Integrity.Writable(ExampleStaged(left), name)
  {
    hide TransferPlan, TransferCapture, PinnedCore, Files, StagedTree, Leftover, PlainFiles, WellFormedTree, ViewOf;
    hide FileAt;
    hide Eligibility.PlanBundle;
    TransferPlans();
    assert ExampleArtifact().capture == TransferCapture();
    ExampleFiles(left);
    StagedSource(ExampleWriter(), left, ExampleArtifact(), PinnedCore(), "");
    StagedRequired(ExampleWriter(), left, ExampleArtifact(), PinnedCore());
    StagingSucceeds(ExampleWriter(), left, ExampleArtifact(), TransferPlan(), PinnedCore());
  }

  // ---------------------------------------------------------------------------------------
  // The tool, and two replays

  function ExactReplay(): Compare.Replay {
    Compare.Replay(None, Is(true), Json.Null, Some([]), Is(150), [Compare.PostAccount(Payer(), 5000, [])], Json.Null,
      Json.Null)
  }

  function FailingReplay(): Compare.Replay { ExactReplay().(success := Is(false)) }

  function RefusedReplay(): Compare.Replay {
    Compare.Replay(Some("UNSUPPORTED"), Is(false), Json.Null, None, Undefined, [], Json.Null, Json.Null)
  }

  function ReadExpected(bytes: seq<Byte>): Compare.Expected {
    if bytes == [2] then ExpectedOf(ExampleArtifact())
      else Compare.Expected(Undefined, Json.Null, None, Undefined, Json.Null, Json.Null)
  }

  function ReadOriginal(bytes: seq<Byte>): Compare.Original {
    if bytes == [1] then OriginalOf(TransferCapture()) else Compare.Original([], [], [])
  }

  function ReadReplay(bytes: seq<Byte>): Option<Compare.Replay> {
    if bytes == [4] then Some(RefusedReplay())
    else if bytes == [5] then Some(ExactReplay())
    else if bytes == [6] then Some(FailingReplay())
    else None
  }

  ghost function ExampleTool(left: seq<(string, Node)>, core: seq<(string, Json.Json)>): Tool {
    Tool(HostOf(left, core), ReadExpected, ReadOriginal, ReadReplay, (m: Json.Json) => [4],
         (m: Json.Json, e: Compare.Expected, o: Compare.Original, r: Compare.Replay) => [3])
  }

  lemma ExampleToolWorks(left: seq<(string, Node)>, core: seq<(string, Json.Json)>)
    ensures ToolWorks(ExampleTool(left, core)) && HashInjective(ExampleTool(left, core).host)
    ensures EndToEnd.WriterWorks(ExampleTool(left, core), ExampleWriter(), ExampleArtifact())
  {
    hide ExampleManifest, TransferCapture, Logs.ReadBack, Logs.Written, Signature, HexText, EncodeText;
    ExampleHostWorks(ExampleManifest(left, core));
    assert ExampleArtifact().capture == TransferCapture();
  }

  /** Every dimension agrees with the captured transaction, or the result does not. */
  lemma ExampleVerdicts()
    ensures var expected, original := ExpectedOf(ExampleArtifact()), OriginalOf(TransferCapture());
      && AgreesExactly(expected, original, ExactReplay())
      && Compare.Verdict(expected, original, ExactReplay(), "SUPPORTED") == Ok(Compare.EXACT)
      && Compare.Verdict(expected, original, FailingReplay(), "SUPPORTED") == Ok(Compare.FAILED)
  {
    hide Compare.PostBalanceChecks, Compare.PostTokenChecks, Lcs.Similarity, Json.Stable, Compare.CanonicalReturnData;
    hide Transaction.Programs, Signature, Logs.Written, Payer, Compare.StateHolds, Logs.ReadBack;
    Logs.LogsSurviveExactly([]);
    var expected, original := ExpectedOf(ExampleArtifact()), OriginalOf(TransferCapture());
    assert expected == Compare.Expected(Is(true), Json.Null, Some([]), Is(150), Json.Null, Json.Null) by {
      assert ExampleArtifact().capture.metadata.err == Json.Null;
    }
    ExampleState();
    Compare.ExactMeans(expected, original, ExactReplay(), "SUPPORTED");
  }

  lemma ExampleState()
    ensures Compare.StateHolds(OriginalOf(TransferCapture()), ExactReplay())
  {
    hide Transaction.Programs, Signature, Payer;
    var original := OriginalOf(TransferCapture());
    assert Transaction.AllKeys(Transfer()) == [Payer(), SYSTEM];
    assert original.accountRoles[0].pubkey == Payer() && !original.accountRoles[1].writable;
    assert ExactReplay().postAccounts[0].pubkey == Payer();
  }

  lemma CoreEligibility(left: seq<(string, Node)>, core: seq<(string, Json.Json)>)
    requires Few(left) && CoreReads(core, Signature())
    requires Json.Property(Json.Obj(core), "eligibility") == Some(Json.Str("SUPPORTED"))
    ensures EligibilityOf(ExampleManifest(left, core)) == "SUPPORTED"
  {
    hide Json.Property, ExampleStaged, CoreReads, Sealed, ViewOf, Hashes;
    ExampleValidates(left, core, false);
    ManifestIgnoresReading(ExampleManifest(left, core), Json.Null, ExampleStaged(left), core);
    SealedField(HostOf(left, core), core, Index(ExampleStaged(left), HexText).value);
  }

  lemma PinnedCoreReads()
    ensures CoreReads(PinnedCore(), Signature()) && RuntimePinned(Json.Obj(PinnedCore()))
    ensures Json.Property(Json.Obj(PinnedCore()), "eligibility") == Some(Json.Str("SUPPORTED"))
  {
    hide CoreReads, RuntimePinned, ManifestCore, Signature;
    PlannedCoreReads(TransferCapture(), TransferPlan(), DETAILS);
    assert TransferCapture().signature == Signature();
    PlannedField(Signature(), "SYSTEM_TRANSFER", "SUPPORTED", DETAILS);
  }

  lemma OtherCoreReads()
    ensures CoreReads(OtherCore(), Signature()) && !RuntimePinned(Json.Obj(OtherCore()))
    ensures Json.Property(Json.Obj(OtherCore()), "eligibility") == Some(Json.Str("SUPPORTED"))
  {
    hide Json.Property, TransferCapture, TransferPlan, Signature;
    var core := OtherCore();
    CorePlace();
    FieldTags();
    assert Json.Keys(core) == FIELDS;
    PropertyAt(core, 0);
    PropertyAt(core, 3);
    PropertyAt(core, 5);
    PropertyAt(core, 6);
    PropertyAt(core, 10);
    OtherVersion();
  }

  lemma CorePlace()
    ensures PinnedCore() == ManifestCore(Signature(), "SYSTEM_TRANSFER", "SUPPORTED", DETAILS)
    ensures |PinnedCore()| == 14
  {
    hide Signature;
  }

  lemma OtherVersion()
    ensures Json.Property(OTHER_RUNTIME, "version") == Some(Json.Str("0.14.0")) && "0.14.0" != "0.15.2"
  {
    hide Json.Property;
    assert "backend"[0] != "version"[0] && "0.14.0"[3] != "0.15.2"[3];
    PropertyAt(OTHER_RUNTIME.members, 1);
  }

  // ---------------------------------------------------------------------------------------
  // What the commands make of it

  /** The bundle with a replay in place. */
  ghost function WithReplay(left: seq<(string, Node)>, core: seq<(string, Json.Json)>, bytes: seq<Byte>): (tree: Node)
    ensures tree.Dir?
  {
    WriteTop(ExampleBundle(left, core), "replay.json", bytes)
  }

  /** A sealed directory differs from the staged one in its manifest. */
  lemma SealedFiles(host: Host, tree: Node, core: seq<(string, Json.Json)>, name: string)
    requires tree.Dir? && WellFormedTree(tree) && SealedTree(host, tree, core).Some? && name != "manifest.json"
    ensures var t := SealedTree(host, tree, core).value;
      t.Dir? && FileAt(t, name) == FileAt(tree, name) &&
        (Integrity.Writable(t, name) <==> Integrity.Writable(tree, name))
  {
    hide ViewOf, WellFormedTree, PutChild, ManifestOf;
    DerivedOutputsAreInvisible(tree, "manifest.json", host.render(ManifestOf(host, tree, core).value));
  }

  lemma ExampleSealed(left: seq<(string, Node)>, core: seq<(string, Json.Json)>)
    requires Few(left) && CoreReads(core, Signature())
    ensures var tree := ExampleBundle(left, core);
      && WellFormedTree(tree) && Integrity.Writable(tree, "replay.json") && Integrity.Writable(tree, "comparison.json")
      && FileAt(tree, "expected.json") == Some([2]) && FileAt(tree, "original-execution.json") == Some([1])
  {
    hide ViewOf, WellFormedTree, Validation, CoreReads, RuntimePinned, ExampleStaged, ValidName, IsDerived, FileAt;
    hide HostOf;
    hide ExampleManifest, Few, ManifestOf, Signature, ExampleBundle, SealedTree, Integrity.Writable;
    var host, staged := HostOf(left, core), ExampleStaged(left);
    ExampleValidates(left, core, false);
    ExampleStages(left);
    OutputNames();
    EvidenceIsNotDerived();
    SealedFiles(host, staged, core, "replay.json");
    SealedFiles(host, staged, core, "comparison.json");
    SealedFiles(host, staged, core, "expected.json");
    SealedFiles(host, staged, core, "original-execution.json");
  }

  lemma ExampleLaunches(left: seq<(string, Node)>, core: seq<(string, Json.Json)>)
    requires Few(left) && CoreReads(core, Signature())
    requires Json.Property(Json.Obj(core), "eligibility") == Some(Json.Str("SUPPORTED"))
    ensures var host, tree := HostOf(left, core), ExampleBundle(left, core);
      && Validation(host, tree, false).Ok? && EligibilityOf(Validation(host, tree, false).value) == "SUPPORTED"
      && (RuntimePinned(Validation(host, tree, false).value) <==> RuntimePinned(Json.Obj(core)))
  {
    hide WellFormedTree, Validation, CoreReads, RuntimePinned, ExampleStaged, Json.Property, ExampleManifest, Few;
    hide ManifestOf, Signature, ExampleBundle, SealedTree, ViewOf;
    ExampleValidates(left, core, false);
    ExampleValidates(left, core, true);
    CoreEligibility(left, core);
    StrictIsStronger(HostOf(left, core), ExampleBundle(left, core));
  }

  /** What every use of the example needs to know of it. */
  lemma ExampleFacts(left: seq<(string, Node)>, core: seq<(string, Json.Json)>, bytes: seq<Byte>)
    requires Few(left) && CoreReads(core, Signature())
    requires Json.Property(Json.Obj(core), "eligibility") == Some(Json.Str("SUPPORTED"))
    ensures var host, tree, after := HostOf(left, core), ExampleBundle(left, core), WithReplay(left, core, bytes);
      && WellFormedTree(tree) && WellFormedTree(after) && SameBundle(tree, after)
      && Validation(host, tree, false).Ok? && Validation(host, after, false) == Validation(host, tree, false)
      && EligibilityOf(Validation(host, tree, false).value) == "SUPPORTED"
      && (RuntimePinned(Validation(host, tree, false).value) <==> RuntimePinned(Json.Obj(core)))
      && Integrity.Writable(tree, "replay.json") && Integrity.Writable(after, "comparison.json")
      && FileAt(after, "replay.json") == Some(bytes)
      && FileAt(after, "expected.json") == Some([2]) && FileAt(after, "original-execution.json") == Some([1])
  {
    hide ViewOf, WellFormedTree, Validation, PutChild, CoreReads, RuntimePinned, ValidName, IsDerived, Json.Property;
    hide Few, Signature, ExampleBundle, HostOf;
    var host, tree := HostOf(left, core), ExampleBundle(left, core);
    ExampleSealed(left, core);
    ExampleLaunches(left, core);
    OutputNames();
    EvidenceIsNotDerived();
    DerivedOutputsAreInvisible(tree, "replay.json", bytes);
    assert SameBundle(tree, WithReplay(left, core, bytes));
    SameBundleSameValidation(host, tree, WithReplay(left, core, bytes), false);
  }

  lemma EvidenceIsNotDerived()
    ensures "expected.json" !in MUTABLE_OUTPUTS && "original-execution.json" !in MUTABLE_OUTPUTS
  {
    assert |"expected.json"| == 13 && |"original-execution.json"| == 23 && "expected.json"[0] == 'e' &&
      "manifest.json"[0] == 'm';
  }

  lemma ExampleReads(left: seq<(string, Node)>, core: seq<(string, Json.Json)>, tree: Node)
    requires tree.Dir? && FileAt(tree, "expected.json") == Some([2]) &&
      FileAt(tree, "original-execution.json") == Some([1])
    ensures ExpectedAt(ExampleTool(left, core), tree) == ExpectedOf(ExampleArtifact())
    ensures OriginalAt(ExampleTool(left, core), tree) == OriginalOf(TransferCapture())
    ensures Reading(ExampleTool(left, core), [5]) == Some(ExactReplay()) &&
      Reading(ExampleTool(left, core), [6]) == Some(FailingReplay())
  {
    hide ExpectedOf, OriginalOf, FileAt, TransferCapture, ExampleManifest;
  }

  /**
   Every assumption of the theorem about the whole path is met by this capture, host, tool and writer,
   and an assertion passes on the bundle created from them.
   */
  lemma PassingExample()
    ensures var tool, tree := ExampleTool([], PinnedCore()), ExampleBundle([], PinnedCore());
      && ToolWorks(tool) && HashInjective(tool.host) && EndToEnd.WriterWorks(tool, ExampleWriter(), ExampleArtifact())
      && CapturedFrom(ExampleArtifact(), [])
      && Created(tool.host, ExampleWriter(), Dir([]), ExampleArtifact(), DETAILS) == Some(tree)
      && CreatedManifest(tool.host, ExampleWriter(), Dir([]), ExampleArtifact(), DETAILS).Some?
      && HostWorks(tool.host, CreatedManifest(tool.host, ExampleWriter(), Dir([]), ExampleArtifact(), DETAILS).value)
      && Launchable(tool.host, tree)
    ensures var tool, tree := ExampleTool([], PinnedCore()), ExampleBundle([], PinnedCore());
      var outcome := AssertStep(tool, tree, AssertOptions(None, true, InBundle, ""), Finished(Some([5]), true)).outcome;
      outcome.Passed? && outcome.status == Compare.EXACT
  {
    hide Validation, AssertStep, PinnedCore, ExampleBundle, ExampleManifest, WellFormedTree, ToolWorks, HashInjective;
    hide HostWorks;
    hide Created, CreatedManifest, EndToEnd.WriterWorks, CapturedFrom, RuntimePinned, ExpectedOf, OriginalOf;
    hide Compare.Verdict;
    hide CoreReads, Json.Property, SameBundle, FileAt, ExactReplay, FailingReplay, TransferCapture, EligibilityOf;
    hide PutChild, Signature;
    var tool, tree := ExampleTool([], PinnedCore()), ExampleBundle([], PinnedCore());
    NothingLeft();
    PinnedCoreReads();
    ExampleToolWorks([], PinnedCore());
    ExampleIsCreated([]);
    ExampleHostWorks(ExampleManifest([], PinnedCore()));
    ExampleCaptured();
    ExampleFacts([], PinnedCore(), [5]);
    var after := WithReplay([], PinnedCore(), [5]);
    StrictIsStronger(tool.host, tree);
    StrictIsStronger(tool.host, after);
    FreshIsAssertOnReplay(tool, tree, "", [5]);
    ExampleReads([], PinnedCore(), after);
    ExampleVerdicts();
    AssertOnReplay(tool, after, [5], Compare.EXACT, NotBuilt);
  }

  lemma NothingLeft()
    ensures Few([]) && Leftover([]) == Dir([])
  {
  }

  lemma ExampleCaptured()
    ensures CapturedFrom(ExampleArtifact(), [])
  {
    hide Transaction.Inspect, Signature, Logs.Written;
    assert ExampleArtifact().capture == TransferCapture();
    assert Transaction.Groups(Transfer()) == [];
  }

  /**
   `compare B --out B/expected.json` on that bundle with its replay: the verdict is EXACT, and the bundle
   no longer validates.
   */
  lemma ComparedIntoEvidence(path: Path)
    requires path == ["expected.json"]
    ensures var tool, tree := ExampleTool([], PinnedCore()), WithReplay([], PinnedCore(), [5]);
      && Validation(tool.host, tree, true).Ok?
      && CompareStep(tool, tree, Bundled, Inside(path)).outcome == Compared(Compare.EXACT)
      && Validation(tool.host, CompareStep(tool, tree, Bundled, Inside(path)).tree, false).Err?
  {
    hide Validation, PinnedCore, ExampleBundle, ExampleManifest, WellFormedTree, HashInjective, RuntimePinned;
    hide ExpectedOf, BytesAt;
    hide CoreReads, Json.Property, SameBundle, FileAt, ExactReplay, FailingReplay, TransferCapture, EligibilityOf;
    hide Signature;
    hide CompareStep, OriginalOf, Compare.Verdict, WithReplay, ValidName, IsDerived, ToolWorks;
    var tool, tree := ExampleTool([], PinnedCore()), WithReplay([], PinnedCore(), [5]);
    NothingLeft();
    PinnedCoreReads();
    ExampleToolWorks([], PinnedCore());
    ExampleFacts([], PinnedCore(), [5]);
    StrictIsStronger(tool.host, tree);
    ExampleReads([], PinnedCore(), tree);
    ExampleVerdicts();
    AssertOnReplay(tool, tree, [5], Compare.EXACT, NotBuilt);
    OutputNames();
    PathTexts(path, "expected.json");
    CompareIntoEvidence(tool, tree, Bundled, path);
    FileAtIsBytes(tree, "expected.json");
    assert ReportOf(tool, tree, Bundled) == [3];
  }

  /** The same bundle made by a tool with another runtime earns EXACT, and replay and assert refuse it. */
  lemma OtherPinsEarnExact(options: AssertOptions, backend: Backend)
    ensures var tool, tree := ExampleTool([], OtherCore()), WithReplay([], OtherCore(), [5]);
      && Validation(tool.host, tree, false).Ok? && !RuntimePinned(Validation(tool.host, tree, false).value)
      && CompareStep(tool, tree, Bundled, InBundle).outcome == Compared(Compare.EXACT)
      && ReplayStep(tool, tree, options.output, backend).outcome in {Refused, WriteError}
      && AssertStep(tool, tree, options, backend).outcome == AssertError
  {
    hide Validation, OtherCore, ExampleBundle, ExampleManifest, WellFormedTree, HashInjective, RuntimePinned;
    hide ExpectedOf;
    hide CoreReads, Json.Property, SameBundle, FileAt, ExactReplay, FailingReplay, TransferCapture, EligibilityOf;
    hide Signature;
    hide CompareStep, ReplayStep, AssertStep, OriginalOf, Compare.Verdict, WithReplay, AgreesExactly, ToolWorks;
    var tool, tree := ExampleTool([], OtherCore()), WithReplay([], OtherCore(), [5]);
    NothingLeft();
    OtherCoreReads();
    ExampleToolWorks([], OtherCore());
    ExampleFacts([], OtherCore(), [5]);
    ExampleReads([], OtherCore(), tree);
    ExampleVerdicts();
    UnpinnedEarnsExact(tool, tree, Bundled, options, backend);
  }

  /**
   An execution that FAILED, directed elsewhere by `assert --fresh --out x`: the assertion passes with the
   EXACT of the replay it found. Directed into the bundle, the same execution is a regression.
   */
  lemma RedirectedFailurePasses()
    ensures var tool, tree := ExampleTool([], PinnedCore()), WithReplay([], PinnedCore(), [5]);
      var redirected :=
        AssertStep(tool, tree, AssertOptions(None, true, Elsewhere(true), ""), Finished(Some([6]), true)).outcome;
      var direct := AssertStep(tool, tree, AssertOptions(None, true, InBundle, ""), Finished(Some([6]), true)).outcome;
      redirected.Passed? && redirected.status == Compare.EXACT && direct == Regression(Compare.FAILED)
  {
    hide Validation, PinnedCore, ExampleBundle, ExampleManifest, WellFormedTree, HashInjective, RuntimePinned;
    hide ExpectedOf, HostOf;
    hide CoreReads, Json.Property, SameBundle, ExactReplay, FailingReplay, TransferCapture, EligibilityOf, Signature;
    hide PutChild;
    hide AssertStep, OriginalOf, Compare.Verdict, ToolWorks;
    var tool, tree := ExampleTool([], PinnedCore()), WithReplay([], PinnedCore(), [5]);
    NothingLeft();
    PinnedCoreReads();
    ExampleToolWorks([], PinnedCore());
    ExampleFacts([], PinnedCore(), [5]);
    ExampleFacts([], PinnedCore(), [6]);
    StrictIsStronger(tool.host, tree);
    ExampleReads([], PinnedCore(), tree);
    ExampleVerdicts();
    RedirectedFreshRepeatsOldVerdict(tool, tree, "", Some([6]));
    AssertOnReplay(tool, tree, [5], Compare.EXACT, NotBuilt);
    FreshIsAssertOnReplay(tool, tree, "", [6]);
    OverwrittenReplay(tool, tree, [6]);
    AssertOnReplay(tool, WriteTop(tree, "replay.json", [6]), [6], Compare.FAILED, NotBuilt);
  }

  lemma OverwrittenReplay(tool: Tool, tree: Node, bytes: seq<Byte>)
    requires tree.Dir? && WellFormedTree(tree) && Integrity.Writable(tree, "replay.json")
    requires Validation(tool.host, tree, true).Ok?
    requires Integrity.Writable(tree, "comparison.json")
    ensures var after := WriteTop(tree, "replay.json", bytes);
      && Validation(tool.host, after, true) == Validation(tool.host, tree, true)
      && Integrity.Writable(after, "comparison.json")
      && FileAt(after, "replay.json") == Some(bytes)
      && FileAt(after, "expected.json") == FileAt(tree, "expected.json")
      && FileAt(after, "original-execution.json") == FileAt(tree, "original-execution.json")
  {
    hide Validation, WellFormedTree, ViewOf, PutChild, ValidName, IsDerived;
    OutputNames();
    EvidenceIsNotDerived();
    DerivedOutputsAreInvisible(tree, "replay.json", bytes);
    assert SameBundle(tree, WriteTop(tree, "replay.json", bytes));
    SameBundleSameValidation(tool.host, tree, WriteTop(tree, "replay.json", bytes), true);
  }

  function Stale(): seq<(string, Node)> { [("stale.json", File([9]))] }

  /** Created over a directory with one account file in it, the bundle validates and the runner loads that file. */
  lemma StaleFixtureIsLoaded()
    ensures var host := HostOf(Stale(), PinnedCore());
      var created := Created(host, ExampleWriter(), Leftover(Stale()), ExampleArtifact(), DETAILS);
      && created == Some(ExampleBundle(Stale(), PinnedCore()))
      && Validation(host, created.value, true).Ok?
      && EndToEnd.Loadable("stale.json") && BytesAt(created.value, ["accounts", "stale.json"]) == Some([9])
      && !EndToEnd.OnlyFixtures(ExampleWriter(), TransferPlan().entries, created.value)
  {
    hide Validation, PinnedCore, ExampleBundle, ExampleManifest, WellFormedTree, RuntimePinned, BytesAt;
    hide TransferCapture, Created;
    hide CoreReads, Json.Property, Signature, Leftover, HostOf, LastWrite, TransferPlan, ExampleArtifact;
    hide Eligibility.PlanBundle;
    hide EndToEnd.OnlyFixtures, EndToEnd.Loadable, AccountName, Few, ExampleWriter, PlainFiles, Stale;
    StaleIsFew();
    PinnedCoreReads();
    ExampleIsCreated(Stale());
    ExampleValidates(Stale(), PinnedCore(), true);
    LeftoverKeeps(Stale());
    CreatedAccounts(HostOf(Stale(), PinnedCore()), ExampleWriter(), Leftover(Stale()), ExampleArtifact(), DETAILS,
      "stale.json");
    assert Eligibility.PlanBundle(ExampleArtifact().capture) == Ok(TransferPlan()) by {
      TransferPlans();
      ExampleCapture();
    }
    EndToEnd.AccountWrites(ExampleWriter(), TransferPlan().entries, "stale.json");
    StaleIsNotPlanned();
    UnplannedFile(ExampleWriter(), TransferPlan().entries, ExampleBundle(Stale(), PinnedCore()), "stale.json");
  }

  lemma ExampleCapture()
    ensures ExampleArtifact().capture == TransferCapture()
  {
  }

  lemma StaleIsFew()
    ensures Few(Stale())
    ensures BytesAt(Leftover(Stale()), ["accounts", "stale.json"]) == Some([9])
    ensures EndToEnd.Loadable("stale.json") && PlainFiles(Stale())
  {
    assert Stale()[1..] == [];
    assert "stale.json"[5..] == ".json";
  }

  lemma PlannedKeys()
    ensures forall e :: e in TransferPlan().entries ==> |e.role.pubkey| in {43, 32}
  {
    hide Signature, Transaction.Programs;
    assert Transaction.AllKeys(Transfer()) == [Payer(), SYSTEM];
    assert |Payer()| == 43 && |SYSTEM| == 32;
  }

  lemma StaleIsNotPlanned()
    ensures forall e :: e in TransferPlan().entries ==> "stale.json" != AccountName(e.role.pubkey)
  {
    hide TransferPlan;
    PlannedKeys();
    assert |"stale.json"| == 10;
  }

  lemma UnplannedFile(writer: Writer, entries: seq<Provenance.Entry>, tree: Node, name: string)
    requires EndToEnd.Loadable(name) && BytesAt(tree, ["accounts", name]).Some?
    requires forall e :: e in entries ==> name != AccountName(e.role.pubkey)
    ensures !EndToEnd.OnlyFixtures(writer, entries, tree)
  {
    hide BytesAt, EndToEnd.Loadable, AccountName;
  }
}
