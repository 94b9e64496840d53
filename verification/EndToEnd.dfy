/** From capture to assertion: what a passing assertion on a created bundle says about the captured transaction. */
module EndToEnd {
  import opened JsText
  import opened Integrity
  import opened Bundle
  import opened Create
  import opened Splitting
  import opened Workflow
  import Base58
  import Compare
  import Eligibility
  import Json
  import Lcs
  import Logs
  import Numerals
  import Provenance
  import Records
  import Transaction

  /** The comparison reads back what createBundle wrote of the recorded execution. */
  ghost predicate WriterWorks(tool: Tool, writer: Writer, artifact: Artifact) {
    && tool.expected(writer.expected(ExpectedOf(artifact))) == ExpectedOf(artifact)
    && tool.original(writer.original(artifact.capture, artifact.recorded)) == OriginalOf(artifact.capture)
  }

  // ---------------------------------------------------------------------------------------
  // The manifest of a created bundle

  lemma PlannedCoreWellFormed(capture: Eligibility.Capture, plan: Eligibility.Plan, details: Details)
    requires WellFormedDetails(details)
    ensures Json.WellFormed(Json.Obj(PlannedCore(capture, plan, details)))
    ensures "integrity" !in Json.Keys(PlannedCore(capture, plan, details))
  {
    hide Json.WellFormed, Json.Property;
    ManifestCoreWellFormed(capture.signature, ClassText(plan.classification.transactionClass),
      EligibilityText(plan.supported), details);
    FieldTags();
    assert Json.Keys(PlannedCore(capture, plan, details)) == FIELDS;
  }

  /** The manifest of a created bundle repeats no key, as a manifest must to read back through JSON.parse. */
  lemma CreatedManifestWellFormed(host: Host, writer: Writer, base: Node, artifact: Artifact, details: Details)
    requires base.Dir? && WellFormedTree(base) && WellFormedDetails(details)
    requires CreatedManifest(host, writer, base, artifact, details).Some?
    ensures Json.WellFormed(CreatedManifest(host, writer, base, artifact, details).value)
  {
    hide Eligibility.PlanBundle, WriteFiles, EnsureDirs, Files, PlannedCore, Index, Sealed, WellFormedTree;
    hide ValidPaths, Json.WellFormed, WellFormedDetails;
    var plan := Eligibility.PlanBundle(artifact.capture).value;
    var core := PlannedCore(artifact.capture, plan, details);
    var staged := StagedTree(writer, base, artifact, plan, core).value;
    EnsureDirsKeep(base);
    FilesValid(writer, artifact, core);
    FilesKeep(EnsureDirs(base).value, Files(writer, artifact, plan, core).value);
    PlannedCoreWellFormed(artifact.capture, plan, details);
    SealedWellFormed(host, staged, core);
  }

  lemma SealedEligibility(
    host: Host, tree: Node, capture: Eligibility.Capture, plan: Eligibility.Plan, details: Details)
    requires tree.Dir? && ManifestOf(host, tree, PlannedCore(capture, plan, details)).Some?
    ensures EligibilityOf(ManifestOf(host, tree, PlannedCore(capture, plan, details)).value) ==
      EligibilityText(plan.supported)
  {
    hide Json.Property, ManifestCore, Sealed, ViewOf, Hashes;
    SealedField(host, PlannedCore(capture, plan, details), Index(tree, host.sha).value);
    PlannedField(capture.signature, ClassText(plan.classification.transactionClass), EligibilityText(plan.supported),
      details);
  }

  /** The manifest of a sealed directory is the one the seal wrote. */
  lemma SealedManifest(host: Host, tree: Node, core: seq<(string, Json.Json)>, strict: bool)
    requires tree.Dir? && WellFormedTree(tree) && SealedTree(host, tree, core).Some?
    requires HostWorks(host, ManifestOf(host, tree, core).value)
    ensures var t := SealedTree(host, tree, core).value;
      && t.Dir? && WellFormedTree(t)
      && (Validation(host, t, strict).Ok? ==> Validation(host, t, strict).value == ManifestOf(host, tree, core).value)
  {
    hide ViewOf, ManifestOf, PutChild, WellFormedTree, Validation;
    var m := ManifestOf(host, tree, core).value;
    DerivedOutputsAreInvisible(tree, "manifest.json", host.render(m));
    var t := SealedTree(host, tree, core).value;
    RenderedReads(host, m);
    FileReads(host, t, "manifest.json");
    if Validation(host, t, strict).Ok? { ValidMeansViewed(host, t, strict); }
  }

  /** A created bundle that validates calls itself eligible exactly when its plan was SUPPORTED. */
  lemma CreatedEligibility(host: Host, writer: Writer, base: Node, artifact: Artifact, details: Details)
    requires base.Dir? && WellFormedTree(base) && Created(host, writer, base, artifact, details).Some?
    requires HostWorks(host, CreatedManifest(host, writer, base, artifact, details).value)
    requires Validation(host, Created(host, writer, base, artifact, details).value, false).Ok?
    ensures Eligibility.PlanBundle(artifact.capture).Ok?
    ensures EligibilityOf(Validation(host, Created(host, writer, base, artifact, details).value, false).value) ==
      EligibilityText(Eligibility.PlanBundle(artifact.capture).value.supported)
  {
    hide Eligibility.PlanBundle, WriteFiles, EnsureDirs, Files, PlannedCore, Index, ManifestOf, PutChild;
    hide WellFormedTree;
    hide Validation, EligibilityOf;
    hide HostWorks, ValidPaths, Sealed;
    var plan := Eligibility.PlanBundle(artifact.capture).value;
    var core := PlannedCore(artifact.capture, plan, details);
    var staged := StagedTree(writer, base, artifact, plan, core).value;
    EnsureDirsKeep(base);
    FilesValid(writer, artifact, core);
    FilesKeep(EnsureDirs(base).value, Files(writer, artifact, plan, core).value);
    SealedManifest(host, staged, core, false);
    SealedEligibility(host, staged, artifact.capture, plan, details);
  }

  // ---------------------------------------------------------------------------------------
  // The fixtures the runner is given

  /** Directories with one view hold the same files, the derived outputs apart. */
  lemma SameViewSameBytes(tree: Node, tree': Node, parts: seq<string>)
    requires tree.Dir? && WellFormedTree(tree) && tree'.Dir? && WellFormedTree(tree')
    requires ViewOf(tree).Some? && ViewOf(tree) == ViewOf(tree') && !IsDerived(PathText(parts))
    ensures BytesAt(tree, parts) == BytesAt(tree', parts)
  {
    hide ViewOf, WellFormedTree, BytesAt, ValidName, IsDerived, PathText;
    BytesBelow(tree, []);
    BytesBelow(tree', []);
    if BytesAt(tree, parts).Some? { BytesNames(tree, parts); }
    if BytesAt(tree', parts).Some? { BytesNames(tree', parts); }
    if parts != [] && forall p :: p in parts ==> ValidName(p) {
      WrittenContent(tree, parts);
      WrittenContent(tree', parts);
    }
  }

  lemma BelowAccountsIsNotDerived(name: string)
    ensures !IsDerived(PathText(["accounts", name]))
  {
    var path := PathText(["accounts", name]);
    JoinAppend(["accounts"], name, '/');
    assert ["accounts"] + [name] == ["accounts", name];
    assert path == "accounts" + ['/'] + name;
    assert path[0] == 'a' && "manifest.json"[0] == 'm' && "replay.json"[0] == 'r' && "comparison.json"[0] == 'c';
  }

  /** A created bundle after a run of commands. */
  ghost function AfterRun(
    tool: Tool, writer: Writer, base: Node, artifact: Artifact, details: Details, steps: seq<Step>): (now: Node)
    requires base.Dir? && Created(tool.host, writer, base, artifact, details).Some?
    ensures now.Dir?
  {
    Run(tool, Created(tool.host, writer, base, artifact, details).value, steps)
  }

  /** The names of accounts/ the runner loads, by their extension: crates/repro-replay/src/main.rs:89-92. */
  predicate Loadable(name: string) { |name| > 5 && name[|name| - 5..] == ".json" }

  /** Every account file the runner loads is a fixture of the plan. */
  ghost predicate OnlyFixtures(writer: Writer, entries: seq<Provenance.Entry>, tree: Node) {
    forall name :: Loadable(name) && BytesAt(tree, ["accounts", name]).Some? ==>
      exists e ::
        e in entries && name == AccountName(e.role.pubkey) &&
          BytesAt(tree, ["accounts", name]) == Some(writer.account(e))
  }

  ghost predicate OnlyPlannedNames(entries: seq<Provenance.Entry>, tree: Node) {
    forall name :: Loadable(name) && BytesAt(tree, ["accounts", name]).Some? ==>
      exists e :: e in entries && name == AccountName(e.role.pubkey)
  }

  /** No later entry is for the same account; an inspected transaction names each account once. */
  predicate LastOfItsKey(entries: seq<Provenance.Entry>, i: nat)
    requires i < |entries|
  {
    forall j :: i < j < |entries| ==> entries[j].role.pubkey != entries[i].role.pubkey
  }

  /** The account files as createBundle left them. */
  lemma CreatedFixtures(host: Host, writer: Writer, base: Node, artifact: Artifact, details: Details)
    requires base.Dir? && WellFormedTree(base) && Created(host, writer, base, artifact, details).Some?
    ensures Eligibility.PlanBundle(artifact.capture).Ok?
    ensures var t := Created(host, writer, base, artifact, details).value;
      var entries := Eligibility.PlanBundle(artifact.capture).value.entries;
      && (forall i :: 0 <= i < |entries| && LastOfItsKey(entries, i) ==>
            BytesAt(t, AccountFile(entries[i])) == Some(writer.account(entries[i])))
      && (OnlyFixtures(writer, entries, t) <==> OnlyPlannedNames(entries, base))
  {
    hide Eligibility.PlanBundle, Created, BytesAt, WellFormedTree, LastWrite, AccountName;
    CreatedAccounts(host, writer, base, artifact, details, "");
    var t := Created(host, writer, base, artifact, details).value;
    var entries := Eligibility.PlanBundle(artifact.capture).value.entries;
    var files := AccountFiles(writer, entries);
    forall i | 0 <= i < |entries| && LastOfItsKey(entries, i)
      ensures BytesAt(t, AccountFile(entries[i])) == Some(writer.account(entries[i]))
    {
      forall j | i < j < |files| ensures files[j].0 != files[i].0 {
        NamesDiffer(entries[j].role.pubkey, entries[i].role.pubkey);
      }
      LastWriteAt(files, i);
      CreatedAccounts(host, writer, base, artifact, details, AccountName(entries[i].role.pubkey));
    }
    forall name
      ensures BytesAt(t, ["accounts", name]) ==
        if LastWrite(files, ["accounts", name]).Some? then LastWrite(files, ["accounts", name])
          else BytesAt(base, ["accounts", name])
      ensures LastWrite(files, ["accounts", name]).Some? <==>
        exists e :: e in entries && name == AccountName(e.role.pubkey)
      ensures LastWrite(files, ["accounts", name]).Some? ==>
        exists e ::
          e in entries && name == AccountName(e.role.pubkey) &&
            LastWrite(files, ["accounts", name]) == Some(writer.account(e))
    {
      CreatedAccounts(host, writer, base, artifact, details, name);
      AccountWrites(writer, entries, name);
    }
  }

  lemma NamesDiffer(a: string, b: string)
    requires a != b
    ensures ["accounts", AccountName(a)] != ["accounts", AccountName(b)]
  {
    assert AccountName(a)[..|AccountName(a)| - 5] == a && AccountName(b)[..|AccountName(b)| - 5] == b;
    assert ["accounts", AccountName(a)][1] == AccountName(a) && ["accounts", AccountName(b)][1] == AccountName(b);
  }

  lemma AccountWrites(writer: Writer, entries: seq<Provenance.Entry>, name: string)
    ensures var written := LastWrite(AccountFiles(writer, entries), ["accounts", name]);
      && (written.Some? <==> exists e :: e in entries && name == AccountName(e.role.pubkey))
      && (written.Some? ==> exists e ::
           e in entries && name == AccountName(e.role.pubkey) && written == Some(writer.account(e)))
  {
    hide LastWrite, AccountName;
    var files := AccountFiles(writer, entries);
    var written := LastWrite(files, ["accounts", name]);
    LastWriteIsOne(files, ["accounts", name]);
    if written.Some? {
      var i :| 0 <= i < |files| && files[i] == (["accounts", name], written.value);
      assert entries[i] in entries && AccountFile(entries[i])[1] == name;
    }
    if e :| e in entries && name == AccountName(e.role.pubkey) {
      var i :| 0 <= i < |entries| && entries[i] == e;
      assert files[i] in files && files[i].0 == ["accounts", name];
    }
  }

  /**
   Whatever commands were run on a created bundle: as long as it validates, the runner finds for every
   account the fixture its plan derived. It is given nothing else if and only if the directory held no
   loadable account file of another name when the bundle was created.
   */
  lemma FixturesSurvive(tool: Tool, writer: Writer, base: Node, artifact: Artifact, details: Details, steps: seq<Step>)
    requires ToolWorks(tool) && HashInjective(tool.host) && base.Dir? && WellFormedTree(base)
    requires Created(tool.host, writer, base, artifact, details).Some?
    requires Validation(tool.host, AfterRun(tool, writer, base, artifact, details, steps), false).Ok?
    ensures Eligibility.PlanBundle(artifact.capture).Ok?
    ensures var now := AfterRun(tool, writer, base, artifact, details, steps);
      var entries := Eligibility.PlanBundle(artifact.capture).value.entries;
      && (forall i :: 0 <= i < |entries| && LastOfItsKey(entries, i) ==>
            Loadable(AccountName(entries[i].role.pubkey)) &&
            BytesAt(now, AccountFile(entries[i])) == Some(writer.account(entries[i])))
      && (OnlyFixtures(writer, entries, now) <==> OnlyPlannedNames(entries, base))
  {
    hide Eligibility.PlanBundle, Created, BytesAt, WellFormedTree, Reached, Validation, Run, ViewOf, ToolWorks;
    hide HashInjective, AccountName;
    hide PathText, IsDerived;
    var t := Created(tool.host, writer, base, artifact, details).value;
    CreatedWellFormed(tool.host, writer, base, artifact, details);
    CreatedFixtures(tool.host, writer, base, artifact, details);
    RunKeepsBundle(tool, t, steps);
    var now := Run(tool, t, steps);
    ReachedTrees(tool.host, t, now);
    ValidMeansViewed(tool.host, now, false);
    forall name ensures BytesAt(now, ["accounts", name]) == BytesAt(t, ["accounts", name]) {
      BelowAccountsIsNotDerived(name);
      SameViewSameBytes(t, now, ["accounts", name]);
    }
    PlannedNamesLoad(artifact.capture);
  }

  lemma PlannedNamesLoad(capture: Eligibility.Capture)
    requires Eligibility.PlanBundle(capture).Ok?
    ensures forall e :: e in Eligibility.PlanBundle(capture).value.entries ==> Loadable(AccountName(e.role.pubkey))
  {
    hide Eligibility.PlanBundle, Base58.Decoded;
    PlanAddresses(capture);
    assert Base58.Decoded("") == Ok([]) by { NothingDecodes(); }
    forall e | e in Eligibility.PlanBundle(capture).value.entries ensures Loadable(AccountName(e.role.pubkey)) {
      assert e.role.pubkey != "";
      assert AccountName(e.role.pubkey)[|e.role.pubkey|..] == ".json";
    }
  }

  lemma NothingDecodes()
    ensures Base58.Decoded("") == Ok([])
  {
    Base58.DecodeEncode([]);
  }

  lemma CreatedWellFormed(host: Host, writer: Writer, base: Node, artifact: Artifact, details: Details)
    requires base.Dir? && WellFormedTree(base) && Created(host, writer, base, artifact, details).Some?
    ensures WellFormedTree(Created(host, writer, base, artifact, details).value)
  {
    hide Created, WellFormedTree, BytesAt, Files, LastWrite, Eligibility.PlanBundle;
    assert |["manifest.json"]| == 1;
    CreatedBytes(host, writer, base, artifact, details, []);
  }

  // ---------------------------------------------------------------------------------------
  // The whole path

  /** The account a replay reports for an address: the last one of it in the list. */
  predicate Reported(accounts: seq<Compare.PostAccount>, k: nat, pubkey: string)
    requires k < |accounts|
  {
    accounts[k].pubkey == pubkey && forall j :: k < j < |accounts| ==> accounts[j].pubkey != pubkey
  }

  /** An address ends with these lamports; one that is not reported holds none. */
  ghost predicate EndsWith(accounts: seq<Compare.PostAccount>, pubkey: string, lamports: int) {
    || (lamports == 0 && forall a :: a in accounts ==> a.pubkey != pubkey)
    || exists k: nat :: k < |accounts| && Reported(accounts, k, pubkey) && accounts[k].lamports == lamports
  }

  /** An address ends as a token account of this amount, in the 64-bit field after mint and owner. */
  ghost predicate EndsWithTokens(accounts: seq<Compare.PostAccount>, pubkey: string, amount: string) {
    exists k: nat ::
      k < |accounts| && Reported(accounts, k, pubkey) && |accounts[k].data| >= 72 &&
        amount == Json.Decimal(Numerals.ValueLE(accounts[k].data[64..72], 256))
  }

  /**
   The end state of a transaction, position by position of its message: every key it may write ends with
   the recorded balance, and every recorded token balance is found at its key.
   */
  ghost predicate EndsAlike(tx: Transaction.Tx, accounts: seq<Compare.PostAccount>) {
    var keys := Transaction.AllKeys(tx);
    && (forall i: nat :: i < |keys| && Transaction.WritableAt(tx, i) ==>
          i < |tx.postBalances| && EndsWith(accounts, keys[i], tx.postBalances[i]))
    && (forall b :: b in tx.postTokenBalances ==>
          b.accountIndex < |keys| && EndsWithTokens(accounts, keys[b.accountIndex], b.amount))
  }

  lemma {:induction false} LastIsReported(accounts: seq<Compare.PostAccount>, pubkey: string) returns (k: nat)
    requires Compare.LastAccount(accounts, pubkey).Some?
    ensures k < |accounts| && Reported(accounts, k, pubkey) &&
      accounts[k] == Compare.LastAccount(accounts, pubkey).value
  {
    k := |accounts| - 1;
    if accounts[k].pubkey != pubkey { k := LastIsReported(accounts[..k], pubkey); }
  }

  lemma {:induction false} ReportedIsLast(accounts: seq<Compare.PostAccount>, k: nat, pubkey: string)
    requires k < |accounts| && Reported(accounts, k, pubkey)
    ensures Compare.LastAccount(accounts, pubkey) == Some(accounts[k])
  {
    if k < |accounts| - 1 { ReportedIsLast(accounts[..|accounts| - 1], k, pubkey); }
  }

  lemma EndsWithIsLast(accounts: seq<Compare.PostAccount>, pubkey: string, lamports: int)
    ensures var last := Compare.LastAccount(accounts, pubkey);
      EndsWith(accounts, pubkey, lamports) <==> lamports == if last.Some? then last.value.lamports else 0
  {
    hide Reported;
    if Compare.LastAccount(accounts, pubkey).Some? { var _ := LastIsReported(accounts, pubkey); }
    if k: nat :| k < |accounts| && Reported(accounts, k, pubkey) && accounts[k].lamports == lamports {
      ReportedIsLast(accounts, k, pubkey);
    }
  }

  lemma EndsWithTokensIsLast(accounts: seq<Compare.PostAccount>, pubkey: string, amount: string)
    ensures var last := Compare.LastAccount(accounts, pubkey);
      EndsWithTokens(accounts, pubkey, amount) <==>
        last.Some? && |last.value.data| >= 72 && amount == Json.Decimal(Compare.ReadU64LE(last.value.data, 64))
  {
    hide Reported, Compare.LastAccount, Json.Decimal;
    if Compare.LastAccount(accounts, pubkey).Some? { var _ := LastIsReported(accounts, pubkey); }
    if EndsWithTokens(accounts, pubkey, amount) {
      var k: nat :| k < |accounts| && Reported(accounts, k, pubkey) && |accounts[k].data| >= 72 &&
        amount == Json.Decimal(Numerals.ValueLE(accounts[k].data[64..72], 256));
      ReportedIsLast(accounts, k, pubkey);
    }
  }

  lemma {:induction false} LastRoleAt(roles: seq<Records.Role>, i: nat)
    requires forall k :: 0 <= k < |roles| ==> roles[k].index == k
    ensures Compare.LastRole(roles, i) == if i < |roles| then Some(roles[i].pubkey) else None
  {
    if roles != [] { LastRoleAt(roles[..|roles| - 1], i); }
  }

  /** The comparator's state checks on the recorded roles are the end state of the transaction. */
  lemma StateHoldsIsEndsAlike(tx: Transaction.Tx, replay: Compare.Replay)
    ensures Compare.StateHolds(Compare.Original(Transaction.Roles(tx), tx.postBalances, tx.postTokenBalances),
      replay) <==>
      EndsAlike(tx, replay.postAccounts)
  {
    hide Compare.LastAccount, EndsWith, EndsWithTokens, Transaction.WritableAt, Json.Decimal, Compare.ReadU64LE;
    var original := Compare.Original(Transaction.Roles(tx), tx.postBalances, tx.postTokenBalances);
    var keys, roles := Transaction.AllKeys(tx), Transaction.Roles(tx);
    forall i: nat | i < |keys|
      ensures roles[i] in roles && (roles[i].writable <==> Transaction.WritableAt(tx, i))
      ensures Compare.BalanceHolds(original, replay, roles[i]) <==>
        i < |tx.postBalances| && EndsWith(replay.postAccounts, keys[i], tx.postBalances[i])
    {
      Transaction.RolesMean(tx, i);
      if i < |tx.postBalances| { EndsWithIsLast(replay.postAccounts, keys[i], tx.postBalances[i]); }
    }
    forall b | b in tx.postTokenBalances
      ensures Compare.TokenHolds(original, replay, b) <==>
        b.accountIndex < |keys| && EndsWithTokens(replay.postAccounts, keys[b.accountIndex], b.amount)
    {
      LastRoleAt(roles, b.accountIndex);
      if b.accountIndex < |keys| { EndsWithTokensIsLast(replay.postAccounts, keys[b.accountIndex], b.amount); }
    }
    hide Transaction.Roles, Compare.BalanceHolds, Compare.TokenHolds;
    BalancesAtPositions(tx, original, replay);
  }

  lemma BalancesAtPositions(tx: Transaction.Tx, original: Compare.Original, replay: Compare.Replay)
    requires original.accountRoles == Transaction.Roles(tx)
    ensures (forall r :: r in original.accountRoles && r.writable ==> Compare.BalanceHolds(original, replay, r)) <==>
      forall i: nat :: i < |Transaction.AllKeys(tx)| && Transaction.WritableAt(tx, i) ==>
        Compare.BalanceHolds(original, replay, Transaction.Roles(tx)[i])
  {
    hide Compare.BalanceHolds, Transaction.WritableAt;
    var roles := Transaction.Roles(tx);
    forall i: nat | i < |roles| ensures roles[i] in roles && (roles[i].writable <==> Transaction.WritableAt(tx, i)) {
      Transaction.RolesMean(tx, i);
    }
    assert forall r :: r in roles ==> exists i: nat :: i < |roles| && roles[i] == r;
  }

  /**
   A replay that agrees with a captured transaction: result, error, end state and inner instructions,
   compute units within 1% where both are counted, and at least 95% of its log; all of the log counts
   where no line was lost on the way.
   */
  ghost predicate Reproduces(artifact: Artifact, lines: seq<string>, replay: Compare.Replay) {
    var tx := artifact.capture.tx;
    && replay.success == Records.Is(tx.err.Null?)
    && Compare.CanonicalError(tx.err).Ok? && Compare.CanonicalError(tx.err) == Compare.CanonicalError(replay.error)
    && EndsAlike(tx, replay.postAccounts)
    && Compare.ComputeWithin(artifact.recorded.computeUnits, replay.computeUnits)
    && InnerGroups(replay.innerInstructions) == Transaction.Groups(tx)
    && Lcs.Similarity(Logs.ReadBack(Logs.Written(lines)), Compare.Lines(replay.logs)) >= 0.95
    && (Logs.Plain(lines) ==> Lcs.Similarity(lines, Compare.Lines(replay.logs)) >= 0.95)
  }

  /**
   A bundle is created from a capture, over whatever the directory held, and then exposed to any run of
   commands, with outputs anywhere and replay.json overwritten at will. If an assertion with the
   default accept list still passes, the plan was SUPPORTED and the transaction ran only the programs
   of its class; the replay it judged reproduces the captured transaction; and every account the
   plan marked for replay still has its fixture in the directory, starting from the recorded
   pre-balance, and the runner loads nothing else unless the directory held a loadable account file of
   another name to begin with.
   */
  lemma PassingAssertionMeansSupported(
    tool: Tool, writer: Writer, base: Node, artifact: Artifact, details: Details, lines: seq<string>,
    steps: seq<Step>, options: AssertOptions, backend: Backend)
    requires ToolWorks(tool) && HashInjective(tool.host) && WriterWorks(tool, writer, artifact)
    requires base.Dir? && WellFormedTree(base) && CapturedFrom(artifact, lines)
    requires Created(tool.host, writer, base, artifact, details).Some? && options.accept == ""
    requires HostWorks(tool.host, CreatedManifest(tool.host, writer, base, artifact, details).value)
    requires AssertStep(tool, AfterRun(tool, writer, base, artifact, details, steps), options, backend).outcome.Passed?
    ensures Eligibility.PlanBundle(artifact.capture).Ok?
    ensures var plan := Eligibility.PlanBundle(artifact.capture).value;
      && plan.supported && plan.summary.currentOnly == 0 && plan.summary.unknown == 0
      && (Transaction.RunsOnly(artifact.capture.tx, {Records.SYSTEM, Records.COMPUTE_BUDGET}) ||
          Transaction.RunsOnly(artifact.capture.tx, {Records.TOKEN, Records.COMPUTE_BUDGET}))
    ensures var now := AfterRun(tool, writer, base, artifact, details, steps);
      Judged(tool, now, options, backend).Some? &&
      Reproduces(artifact, lines, Judged(tool, now, options, backend).value)
    ensures var now := AfterRun(tool, writer, base, artifact, details, steps);
      var entries, tx := Eligibility.PlanBundle(artifact.capture).value.entries, artifact.capture.tx;
      && |entries| == |Transaction.AllKeys(tx)|
      && (OnlyFixtures(writer, entries, now) <==> OnlyPlannedNames(entries, base))
      && forall i :: 0 <= i < |entries| && LastOfItsKey(entries, i) ==>
           && Loadable(AccountName(entries[i].role.pubkey))
           && BytesAt(now, AccountFile(entries[i])) == Some(writer.account(entries[i]))
           && (Eligibility.Loaded(entries[i]).Some? ==>
                 Eligibility.Loaded(entries[i]).value.lamports == Compare.At(tx.preBalances, i))
  {
    hide Eligibility.PlanBundle, Created, Validation, AssertStep, Run, WellFormedTree, Transaction.RunsOnly;
    hide Reproduces, BytesAt, Loadable, Sealed, CreatedManifest;
    hide OnlyFixtures, OnlyPlannedNames, EligibilityOf, ToolWorks, HostWorks, HashInjective, WriterWorks, Judged;
    hide RuntimePinned, Json.WellFormed, Reached, AccountName;
    var capture := artifact.capture;
    var t := Created(tool.host, writer, base, artifact, details).value;
    CreatedWellFormed(tool.host, writer, base, artifact, details);
    PassingAssertionReproduces(tool, writer, base, artifact, details, lines, steps, options, backend);
    CreatedEligibility(tool.host, writer, base, artifact, details);
    Eligibility.SupportedExactly(capture);
    Eligibility.SupportedRunsOnlyRuntime(capture);
    FixturesSurvive(tool, writer, base, artifact, details, steps);
    forall i | 0 <= i < |Eligibility.PlanBundle(capture).value.entries|
      ensures Eligibility.Loaded(Eligibility.PlanBundle(capture).value.entries[i]).Some? ==>
        Eligibility.Loaded(Eligibility.PlanBundle(capture).value.entries[i]).value.lamports ==
          Compare.At(capture.tx.preBalances, i)
    {
      PlanCoversRoles(capture);
      Eligibility.LoadedLamportsAreRecorded(capture, i);
    }
    PlanCoversRoles(capture);
  }

  lemma PlanCoversRoles(capture: Eligibility.Capture)
    requires Eligibility.PlanBundle(capture).Ok?
    ensures |Eligibility.PlanBundle(capture).value.entries| == |capture.metadata.accountRoles|
  {
    hide Eligibility.DeriveAll, Transaction.ClassifyTransaction, Eligibility.Defensible;
    var classification := Eligibility.PlanBundle(capture).value.classification;
    Eligibility.DerivedEntries(capture.metadata.accountRoles, capture.observed, capture.metadata, classification);
  }

  lemma PassingAssertionReproduces(
    tool: Tool, writer: Writer, base: Node, artifact: Artifact, details: Details,
    lines: seq<string>, steps: seq<Step>, options: AssertOptions, backend: Backend)
    requires ToolWorks(tool) && HashInjective(tool.host) && WriterWorks(tool, writer, artifact) && base.Dir? &&
      WellFormedTree(base)
    requires CapturedFrom(artifact, lines)
    requires Created(tool.host, writer, base, artifact, details).Some? && options.accept == ""
    requires AssertStep(tool, AfterRun(tool, writer, base, artifact, details, steps), options, backend).outcome.Passed?
    ensures Launchable(tool.host, Created(tool.host, writer, base, artifact, details).value)
    ensures var now := AfterRun(tool, writer, base, artifact, details, steps);
      && Validation(tool.host, now, false).Ok?
      && Judged(tool, now, options, backend).Some?
      && Reproduces(artifact, lines, Judged(tool, now, options, backend).value)
  {
    hide Created, Validation, AfterReplay, Run, WellFormedTree, BytesAt, Judged, Launchable, ToolWorks;
    hide HashInjective, CompareStep;
    hide Compare.CanonicalError, Compare.StateHolds, Json.Denote, Lcs.Similarity, Logs.ReadBack, Json.WellFormed;
    hide FileAt, Transaction.Roles, Logs.Written, Logs.Plain, Transaction.Groups, EndsAlike, Compare.ComputeWithin;
    var t := Created(tool.host, writer, base, artifact, details).value;
    var now := Run(tool, t, steps);
    CreatedWellFormed(tool.host, writer, base, artifact, details);
    PassingAssertionOverRuns(tool, t, steps, options, backend);
    StrictIsStronger(tool.host, now);
    CreatedEvidence(tool.host, writer, base, artifact, details);
    FileAtIsBytes(t, "expected.json");
    FileAtIsBytes(t, "original-execution.json");
    assert ExpectedAt(tool, t) == ExpectedOf(artifact);
    assert OriginalAt(tool, t) == OriginalOf(artifact.capture);
    StateHoldsIsEndsAlike(artifact.capture.tx, Judged(tool, now, options, backend).value);
    Logs.LogsSurviveExactly(lines);
  }

  /** An account file left over from before is sealed with the rest, and found by every run. */
  lemma StaleFixtureStays(
    tool: Tool, writer: Writer, base: Node, artifact: Artifact, details: Details, steps: seq<Step>, name: string)
    requires ToolWorks(tool) && HashInjective(tool.host) && base.Dir? && WellFormedTree(base)
    requires Created(tool.host, writer, base, artifact, details).Some?
    requires Validation(tool.host, AfterRun(tool, writer, base, artifact, details, steps), false).Ok?
    requires Eligibility.PlanBundle(artifact.capture).Ok?
    requires forall e ::
      e in Eligibility.PlanBundle(artifact.capture).value.entries ==> name != AccountName(e.role.pubkey)
    ensures BytesAt(AfterRun(tool, writer, base, artifact, details, steps), ["accounts", name]) ==
            BytesAt(base, ["accounts", name])
  {
    hide Eligibility.PlanBundle, Created, BytesAt, WellFormedTree, Reached, Validation, Run, ViewOf, ToolWorks;
    hide HashInjective, AccountName;
    hide PathText, IsDerived, LastWrite;
    var t := Created(tool.host, writer, base, artifact, details).value;
    CreatedWellFormed(tool.host, writer, base, artifact, details);
    CreatedAccounts(tool.host, writer, base, artifact, details, name);
    AccountWrites(writer, Eligibility.PlanBundle(artifact.capture).value.entries, name);
    RunKeepsBundle(tool, t, steps);
    var now := Run(tool, t, steps);
    ReachedTrees(tool.host, t, now);
    ValidMeansViewed(tool.host, now, false);
    BelowAccountsIsNotDerived(name);
    SameViewSameBytes(t, now, ["accounts", name]);
  }

  /** A replay that agrees with a captured transaction in everything, as far as logs.txt kept its log. */
  ghost predicate ReproducesExactly(artifact: Artifact, lines: seq<string>, replay: Compare.Replay) {
    var tx, recorded := artifact.capture.tx, artifact.recorded;
    && replay.status != Some("UNSUPPORTED")
    && replay.success == Records.Is(tx.err.Null?)
    && Compare.CanonicalError(tx.err).Ok? && Compare.CanonicalError(tx.err) == Compare.CanonicalError(replay.error)
    && EndsAlike(tx, replay.postAccounts)
    && Compare.Lines(replay.logs) == Logs.ReadBack(Logs.Written(lines))
    && replay.computeUnits == recorded.computeUnits
    && Json.Denote(Compare.OrNoItems(replay.innerInstructions)) ==
       Json.Denote(Compare.OrNoItems(recorded.innerInstructions))
    && Compare.SameReturnData(recorded.returnData, replay.returnData)
  }

  /**
   Comparing a replay with a created bundle, after any run whose outputs are harmless, reports EXACT if
   and only if the plan was SUPPORTED and the replay agrees with the captured transaction in everything.
   */
  lemma ExactOnCreatedBundle(
    tool: Tool, writer: Writer, base: Node, artifact: Artifact, details: Details, lines: seq<string>,
    steps: seq<Step>, source: Source)
    requires ToolWorks(tool) && WriterWorks(tool, writer, artifact)
    requires base.Dir? && WellFormedTree(base) && CapturedFrom(artifact, lines)
    requires Created(tool.host, writer, base, artifact, details).Some?
    requires HostWorks(tool.host, CreatedManifest(tool.host, writer, base, artifact, details).value)
    requires forall step :: step in steps ==> HarmlessStep(step)
    requires Comparable(tool, AfterRun(tool, writer, base, artifact, details, steps), source)
    ensures Eligibility.PlanBundle(artifact.capture).Ok?
    ensures var now := AfterRun(tool, writer, base, artifact, details, steps);
      CompareStep(tool, now, source, InBundle).outcome == Compared(Compare.EXACT) <==>
        Eligibility.PlanBundle(artifact.capture).value.supported &&
        ReproducesExactly(artifact, lines, JudgedReplay(tool, now, source).value)
    ensures Logs.Plain(lines) <==> Logs.ReadBack(Logs.Written(lines)) == lines
  {
    hide Created, Validation, Run, WellFormedTree, BytesAt, JudgedReplay, ToolWorks, CompareStep, SameBundle, ViewOf;
    hide Compare.CanonicalError, Compare.StateHolds, Json.Denote, Logs.ReadBack, Json.WellFormed, HarmlessStep;
    hide FileAt, Transaction.Roles, Logs.Written, Logs.Plain, EndsAlike, Compare.Verdict, EligibilityOf, Created;
    hide Eligibility.PlanBundle, HostWorks, CreatedManifest, Compare.SameReturnData, Compare.WellFormedSides;
    var t := Created(tool.host, writer, base, artifact, details).value;
    var now := Run(tool, t, steps);
    CreatedWellFormed(tool.host, writer, base, artifact, details);
    HarmlessRunKeepsBundle(tool, t, steps);
    SameEvidence(tool.host, t, now);
    CreatedEligibility(tool.host, writer, base, artifact, details);
    CreatedEvidence(tool.host, writer, base, artifact, details);
    FileAtIsBytes(t, "expected.json");
    FileAtIsBytes(t, "original-execution.json");
    assert ExpectedAt(tool, now) == ExpectedOf(artifact);
    assert OriginalAt(tool, now) == OriginalOf(artifact.capture);
    var replay := JudgedReplay(tool, now, source).value;
    SourceWellFormed(tool, now, source);
    ComparedVerdict(tool, now, source, Compare.EXACT);
    Compare.ExactMeans(ExpectedOf(artifact), OriginalOf(artifact.capture), replay,
                       EligibilityOf(Validation(tool.host, now, false).value));
    StateHoldsIsEndsAlike(artifact.capture.tx, replay);
    Logs.LogsSurviveExactly(lines);
    assert |"SUPPORTED"| != |"UNSUPPORTED"|;
  }

  lemma SameEvidence(host: Host, tree: Node, tree': Node)
    requires SameBundle(tree, tree') && Validation(host, tree', false).Ok?
    ensures Validation(host, tree, false) == Validation(host, tree', false)
    ensures FileAt(tree, "expected.json") == FileAt(tree', "expected.json")
    ensures FileAt(tree, "original-execution.json") == FileAt(tree', "original-execution.json")
  {
    hide SameBundle, Validation, WellFormedTree, FileAt;
    SameBundleSameValidation(host, tree, tree', false);
    SameBundleTrees(tree, tree');
    StartReached(host, tree);
    SameBundleReached(host, tree, tree, tree');
    ReachedEvidence(host, tree, tree', "expected.json");
    ReachedEvidence(host, tree, tree', "original-execution.json");
  }

  /** What a manifest says of a capture: its signature, its class and whether it is eligible. */
  predicate ManifestSays(m: Json.Json, capture: Eligibility.Capture, plan: Eligibility.Plan) {
    && Json.Property(m, "signature") == Some(Json.Str(capture.signature))
    && Json.Property(m, "eligibility") == Some(Json.Str(if plan.supported then "SUPPORTED" else "UNSUPPORTED"))
    && Json.Property(m, "transactionClass") == Some(Json.Str(
         match plan.classification.transactionClass
         case SYSTEM_TRANSFER => "SYSTEM_TRANSFER"
         case CLASSIC_SPL_TRANSFER => "CLASSIC_SPL_TRANSFER"
         case SUPPORTED_DETERMINISTIC_FAILURE => "SUPPORTED_DETERMINISTIC_FAILURE"
         case UNSUPPORTED_TRANSACTION_CLASS => "UNSUPPORTED_TRANSACTION_CLASS"))
  }

  lemma PlannedSays(capture: Eligibility.Capture, plan: Eligibility.Plan, details: Details)
    ensures ManifestSays(Json.Obj(PlannedCore(capture, plan, details)), capture, plan)
  {
    hide Json.Property, ManifestCore;
    ManifestFields(capture.signature, ClassText(plan.classification.transactionClass), EligibilityText(plan.supported),
      details);
  }

  lemma SealedSays(
    host: Host, core: seq<(string, Json.Json)>, index: Json.Json, capture: Eligibility.Capture, plan: Eligibility.Plan)
    requires index.Obj? && ManifestSays(Json.Obj(core), capture, plan)
    ensures ManifestSays(Sealed(host, core, index), capture, plan)
  {
    hide Json.Property, Json.Stringify;
    assert |"integrity"| == 9 && "integrity"[0] == 'i' && |"signature"| == 9 && "signature"[0] == 's';
    assert |"eligibility"| == 11 && |"transactionClass"| == 16;
    var integrity := WithCore(index, host.sha(host.utf8(Json.Stringify(Json.Obj(core + [("integrity", index)])))));
    CoreProperty(core, integrity, "signature");
    CoreProperty(core, integrity, "eligibility");
    CoreProperty(core, integrity, "transactionClass");
  }

  /** The manifest of a created bundle says what its plan found. */
  lemma CreatedManifestReads(host: Host, writer: Writer, base: Node, artifact: Artifact, details: Details)
    requires base.Dir? && CreatedManifest(host, writer, base, artifact, details).Some?
    ensures Eligibility.PlanBundle(artifact.capture).Ok?
    ensures ManifestSays(CreatedManifest(host, writer, base, artifact, details).value, artifact.capture,
                         Eligibility.PlanBundle(artifact.capture).value)
  {
    hide Eligibility.PlanBundle, StagedTree, Index, PlannedCore, Sealed, ManifestSays;
    var plan := Eligibility.PlanBundle(artifact.capture).value;
    var core := PlannedCore(artifact.capture, plan, details);
    var tree := StagedTree(writer, base, artifact, plan, core).value;
    IndexIsObject(tree, host.sha);
    PlannedSays(artifact.capture, plan, details);
    SealedSays(host, core, Index(tree, host.sha).value, artifact.capture, plan);
  }

  lemma IndexIsObject(tree: Node, sha: Hash)
    requires Index(tree, sha).Some?
    ensures Index(tree, sha).value.Obj?
  {
  }
}
