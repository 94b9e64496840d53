/** src/eligibility.js and the planning part of src/bundle.js: whether a bundle may claim a faithful replay. */
module Eligibility {
  import opened JsText
  import opened Records
  import opened Transaction
  import opened Provenance
  import Base58
  import Compare

  /** A captured program; its executable file is present only when current program bytes were stored. */
  datatype Program = Program(programId: string, executableFile: Option<string>, loader: Option<string>)

  datatype Reason =
    | UnsupportedTransactionClass
    | UnsupportedAltHistoricalState(tables: seq<string>)
    | UnsupportedAccountPrestate(accounts: seq<string>)
    | UnsupportedProgramProvenance(programs: seq<string>)
    | UnsupportedUpgradeableProgramVersion(programs: seq<string>)

  predicate UnsafeAccount(e: Entry) { e.relevant && (e.provenance == CURRENT_ONLY || e.provenance == UNKNOWN) }

  predicate UnsafeProgram(p: Program) {
    p.executableFile.Some? && p.executableFile.value != "" && p.programId !in RUNTIME_PROGRAMS
  }

  predicate Includes(text: string, part: string) {
    exists i :: 0 <= i <= |text| && part <= text[i..]
  }

  predicate Upgradeable(p: Program) { p.loader.Some? && Includes(p.loader.value, "Upgradeab1e") }

  function UnsafeAccounts(entries: seq<Entry>): (us: seq<Entry>)
    ensures forall e :: e in us <==> e in entries && UnsafeAccount(e)
  {
    if entries == [] then []
    else (if UnsafeAccount(entries[0]) then [entries[0]] else []) + UnsafeAccounts(entries[1..])
  }

  function UnsafePrograms(programs: seq<Program>): (us: seq<Program>)
    ensures forall p :: p in us <==> p in programs && UnsafeProgram(p)
  {
    if programs == [] then []
    else (if UnsafeProgram(programs[0]) then [programs[0]] else []) + UnsafePrograms(programs[1..])
  }

  function AccountKeys(entries: seq<Entry>): seq<string> {
    seq(|entries|, i requires 0 <= i < |entries| => entries[i].role.pubkey)
  }

  function ProgramKeys(programs: seq<Program>): seq<string> {
    seq(|programs|, i requires 0 <= i < |programs| => programs[i].programId)
  }

  /** No reason applies; each conjunct is the negation of one of them. */
  predicate Defensible(transactionClass: Class, entries: seq<Entry>, programs: seq<Program>, lookups: seq<string>) {
    && transactionClass != UNSUPPORTED_TRANSACTION_CLASS
    && lookups == []
    && (forall e :: e in entries ==> !UnsafeAccount(e))
    && (forall p :: p in programs ==> !UnsafeProgram(p))
  }

  function When(condition: bool, reason: Reason): seq<Reason> { if condition then [reason] else [] }

  /** The reasons in the order they are reported. */
  function Reasons(
    transactionClass: Class, entries: seq<Entry>, programs: seq<Program>, lookups: seq<string>): seq<Reason> {
    var accounts, executables := UnsafeAccounts(entries), UnsafePrograms(programs);
    When(transactionClass == UNSUPPORTED_TRANSACTION_CLASS, UnsupportedTransactionClass)
    + When(lookups != [], UnsupportedAltHistoricalState(lookups))
    + When(accounts != [], UnsupportedAccountPrestate(AccountKeys(accounts)))
    + When(executables != [], UnsupportedProgramProvenance(ProgramKeys(executables)))
    + When(
      exists p :: p in executables && Upgradeable(p), UnsupportedUpgradeableProgramVersion(ProgramKeys(executables)))
  }

  /** Reasons are pushed one by one; the status is SUPPORTED when none was: nothing speaks against the bundle. */
  method EvaluateEligibility(transactionClass: Class, entries: seq<Entry>, programs: seq<Program>, lookups: seq<string>)
    returns (supported: bool, reasons: seq<Reason>)
    ensures reasons == Reasons(transactionClass, entries, programs, lookups)
    ensures supported <==> reasons == []
    ensures supported <==> Defensible(transactionClass, entries, programs, lookups)
  {
    hide UnsafeAccount, UnsafeProgram, Upgradeable, AccountKeys, ProgramKeys, UnsafeAccounts, UnsafePrograms;
    hide Defensible, Reasons;
    reasons := [];
    if transactionClass == UNSUPPORTED_TRANSACTION_CLASS {
      reasons := reasons + [UnsupportedTransactionClass];
    }
    ghost var r1 := When(transactionClass == UNSUPPORTED_TRANSACTION_CLASS, UnsupportedTransactionClass);
    assert reasons == r1;
    if |lookups| > 0 {
      reasons := reasons + [UnsupportedAltHistoricalState(lookups)];
    }
    ghost var r2 := When(lookups != [], UnsupportedAltHistoricalState(lookups));
    assert reasons == r1 + r2;
    var unsafeAccounts := UnsafeAccounts(entries);
    if |unsafeAccounts| > 0 {
      reasons := reasons + [UnsupportedAccountPrestate(AccountKeys(unsafeAccounts))];
    }
    ghost var r3 := When(unsafeAccounts != [], UnsupportedAccountPrestate(AccountKeys(unsafeAccounts)));
    assert reasons == r1 + r2 + r3;
    var unsafePrograms := UnsafePrograms(programs);
    if |unsafePrograms| > 0 {
      reasons := reasons + [UnsupportedProgramProvenance(ProgramKeys(unsafePrograms))];
      if exists p :: p in unsafePrograms && Upgradeable(p) {
        reasons := reasons + [UnsupportedUpgradeableProgramVersion(ProgramKeys(unsafePrograms))];
      }
    }
    ghost var r4 := When(unsafePrograms != [], UnsupportedProgramProvenance(ProgramKeys(unsafePrograms)));
    ghost var r5 :=
      When(exists p :: p in unsafePrograms && Upgradeable(p),
           UnsupportedUpgradeableProgramVersion(ProgramKeys(unsafePrograms)));
    assert reasons == r1 + r2 + r3 + r4 + r5;
    ReasonsParts(transactionClass, entries, programs, lookups, r1, r2, r3, r4, r5);
    supported := |reasons| == 0;
  }

  lemma ReasonsParts(transactionClass: Class, entries: seq<Entry>, programs: seq<Program>, lookups: seq<string>,
                     r1: seq<Reason>, r2: seq<Reason>, r3: seq<Reason>, r4: seq<Reason>, r5: seq<Reason>)
    requires r1 == When(transactionClass == UNSUPPORTED_TRANSACTION_CLASS, UnsupportedTransactionClass)
    requires r2 == When(lookups != [], UnsupportedAltHistoricalState(lookups))
    requires var us := UnsafeAccounts(entries); r3 == When(us != [], UnsupportedAccountPrestate(AccountKeys(us)))
    requires var us := UnsafePrograms(programs);
      && r4 == When(us != [], UnsupportedProgramProvenance(ProgramKeys(us)))
      && r5 == When(exists p :: p in us && Upgradeable(p), UnsupportedUpgradeableProgramVersion(ProgramKeys(us)))
    ensures r1 + r2 + r3 + r4 + r5 == Reasons(transactionClass, entries, programs, lookups)
    ensures r1 + r2 + r3 + r4 + r5 == [] <==> Defensible(transactionClass, entries, programs, lookups)
  {
    hide UnsafeAccount, UnsafeProgram, Upgradeable, AccountKeys, ProgramKeys;
    var accounts, executables := UnsafeAccounts(entries), UnsafePrograms(programs);
    assert accounts != [] ==> accounts[0] in accounts;
    assert executables != [] ==> executables[0] in executables;
  }

  // ---------------------------------------------------------------------------------------
  // The plan of a bundle, src/bundle.js:57-85

  /** accounts.json: what the node answered for each address; the last answer for an address is kept. */
  type Observed = seq<(string, Option<Observation>)>

  function LastObserved(observed: Observed, pubkey: string): Option<Observation> {
    if observed == [] then None
    else
      var last := observed[|observed| - 1];
      if last.0 == pubkey then last.1 else LastObserved(observed[..|observed| - 1], pubkey)
  }

  datatype Capture = Capture(
    signature: string, metadataSignature: string, tx: Tx, metadata: Metadata,
    observed: Observed, programs: seq<Program>, lookups: seq<string>)

  datatype Plan = Plan(classification: Classification, entries: seq<Entry>, summary: Summary, supported: bool)

  datatype PlanFailure = BadSignature | BadAccountAddress | BadProgramAddress | BadInstructionData(c: char)
    | Underivable(failure: Failure)

  function DeriveAll(
    roles: seq<Role>, observed: Observed, metadata: Metadata, c: Classification): Result<seq<Entry>, Failure> {
    if roles == [] then Ok([])
    else
      var first := Derive(roles[0], LastObserved(observed, roles[0].pubkey), metadata, c.transactionClass, c.details);
      if first.Err? then Err(first.error)
      else
        var rest := DeriveAll(roles[1..], observed, metadata, c);
        if rest.Err? then rest else Ok([first.value] + rest.value)
  }

  function PlanBundle(capture: Capture): Result<Plan, PlanFailure> {
    if !Base58.IsSignature(capture.signature) || capture.signature != capture.metadataSignature then Err(BadSignature)
    else if !(forall r :: r in capture.metadata.accountRoles ==> Base58.IsAddress(r.pubkey)) then Err(BadAccountAddress)
    else if !(forall p :: p in capture.programs ==> Base58.IsAddress(p.programId)) then Err(BadProgramAddress)
    else
      match ClassifyTransaction(capture.tx, capture.metadata)
      case Err(c) => Err(BadInstructionData(c))
      case Ok(classification) =>
        match DeriveAll(capture.metadata.accountRoles, capture.observed, capture.metadata, classification)
        case Err(f) => Err(Underivable(f))
        case Ok(entries) =>
          Ok(Plan(classification, entries, Summarize(entries),
                  Defensible(classification.transactionClass, entries, capture.programs, capture.lookups)))
  }

  lemma {:induction false} DeriveAllNext(
    roles: seq<Role>, i: nat, observed: Observed, metadata: Metadata, c: Classification)
    requires i < |roles|
    ensures var before := DeriveAll(roles[..i], observed, metadata, c);
      var next := Derive(roles[i], LastObserved(observed, roles[i].pubkey), metadata, c.transactionClass, c.details);
      DeriveAll(roles[..i + 1], observed, metadata, c) ==
        if before.Err? then before else if next.Err? then Err(next.error) else Ok(before.value + [next.value])
    decreases i
  {
    hide Derive, LastObserved;
    if i == 0 {
      assert roles[..1][1..] == [] && roles[..0] == [] && roles[..1][0] == roles[0];
      var only := Derive(roles[0], LastObserved(observed, roles[0].pubkey), metadata, c.transactionClass, c.details);
      if only.Ok? { assert [only.value] + [] == [] + [only.value]; }
    } else {
      assert roles[..i + 1][1..] == roles[1..][..i] && roles[..i][1..] == roles[1..][..i - 1];
      assert roles[1..][i - 1] == roles[i];
      DeriveAllNext(roles[1..], i - 1, observed, metadata, c);
      assert roles[..i + 1][0] == roles[0] && roles[..i][0] == roles[0];
      var first := Derive(roles[0], LastObserved(observed, roles[0].pubkey), metadata, c.transactionClass, c.details);
      var middle := DeriveAll(roles[1..][..i - 1], observed, metadata, c);
      var last := Derive(roles[i], LastObserved(observed, roles[i].pubkey), metadata, c.transactionClass, c.details);
      if first.Ok? && middle.Ok? && last.Ok? {
        assert [first.value] + (middle.value + [last.value]) == [first.value] + middle.value + [last.value];
      }
    }
  }

  lemma {:induction false} DeriveAllPrefix(
    roles: seq<Role>, i: nat, observed: Observed, metadata: Metadata, c: Classification)
    requires i <= |roles| && DeriveAll(roles[..i], observed, metadata, c).Err?
    ensures DeriveAll(roles, observed, metadata, c) == DeriveAll(roles[..i], observed, metadata, c)
    decreases |roles| - i
  {
    hide Derive, LastObserved;
    if i < |roles| {
      DeriveAllNext(roles, i, observed, metadata, c);
      DeriveAllPrefix(roles, i + 1, observed, metadata, c);
    } else {
      assert roles[..i] == roles;
    }
  }

  /** The accounts of a plan, one role after the other. */
  method PlanAccounts(capture: Capture, c: Classification) returns (entries: Result<seq<Entry>, Failure>)
    ensures entries == DeriveAll(capture.metadata.accountRoles, capture.observed, capture.metadata, c)
  {
    hide Derive, LastObserved;
    var roles, planned := capture.metadata.accountRoles, [];
    for i := 0 to |roles|
      invariant DeriveAll(roles[..i], capture.observed, capture.metadata, c) == Ok(planned)
    {
      var entry :=
        Derive(roles[i], LastObserved(capture.observed, roles[i].pubkey), capture.metadata, c.transactionClass,
          c.details);
      DeriveAllNext(roles, i, capture.observed, capture.metadata, c);
      if entry.Err? {
        DeriveAllPrefix(roles, i + 1, capture.observed, capture.metadata, c);
        return Err(entry.error);
      }
      planned := planned + [entry.value];
    }
    assert roles[..|roles|] == roles;
    entries := Ok(planned);
  }

  /** createBundle up to the eligibility decision: the guards in their order, then the plan. */
  method PlanCapture(capture: Capture) returns (r: Result<Plan, PlanFailure>)
    ensures r == PlanBundle(capture)
  {
    hide Base58.IsSignature, Base58.IsAddress, ClassifyTransaction, DeriveAll, Defensible, Summarize;
    var valid := Base58.IsTransactionSignature(capture.signature);
    if !valid || capture.signature != capture.metadataSignature { return Err(BadSignature); }
    var roles, programs := capture.metadata.accountRoles, capture.programs;
    for i := 0 to |roles|
      invariant forall k :: 0 <= k < i ==> Base58.IsAddress(roles[k].pubkey)
    {
      var ok := Base58.IsBase58Address(roles[i].pubkey);
      if !ok { return Err(BadAccountAddress); }
    }
    for i := 0 to |programs|
      invariant forall k :: 0 <= k < i ==> Base58.IsAddress(programs[k].programId)
    {
      var ok := Base58.IsBase58Address(programs[i].programId);
      if !ok { return Err(BadProgramAddress); }
    }
    var classification := ClassifyTransaction(capture.tx, capture.metadata);
    if classification.Err? { return Err(BadInstructionData(classification.error)); }
    var entries := PlanAccounts(capture, classification.value);
    if entries.Err? { return Err(Underivable(entries.error)); }
    var supported, _ :=
      EvaluateEligibility(classification.value.transactionClass, entries.value, programs, capture.lookups);
    var summary := SummarizeProvenance(entries.value);
    r := Ok(Plan(classification.value, entries.value, summary, supported));
  }

  lemma {:induction false} DerivedEntries(roles: seq<Role>, observed: Observed, metadata: Metadata, c: Classification)
    requires DeriveAll(roles, observed, metadata, c).Ok?
    ensures var entries := DeriveAll(roles, observed, metadata, c).value;
      && |entries| == |roles|
      && forall i :: 0 <= i < |roles| ==>
           Derive(roles[i], LastObserved(observed, roles[i].pubkey), metadata, c.transactionClass, c.details) ==
             Ok(entries[i])
  {
    hide Derive;
    if roles != [] {
      DerivedEntries(roles[1..], observed, metadata, c);
    }
  }

  lemma AlwaysRelevant(
    role: Role, current: Option<Observation>, metadata: Metadata, transactionClass: Class,
    details: Option<SplDetails>)
    ensures var e := Derive(role, current, metadata, transactionClass, details);
      e.Ok? ==> e.value.relevant && e.value.role == role
  {
    hide TokenAccountOf;
  }

  /**
   A plan is SUPPORTED exactly when its class is allowlisted, no lookup table is described, its
   summary counts nothing CURRENT_ONLY or UNKNOWN, and no captured executable lies outside the
   runtime; the four counts always cover every account.
   */
  lemma SupportedExactly(capture: Capture)
    requires PlanBundle(capture).Ok?
    ensures var plan := PlanBundle(capture).value; var s := plan.summary;
      && (plan.supported <==>
            && plan.classification.transactionClass != UNSUPPORTED_TRANSACTION_CLASS
            && capture.lookups == []
            && s.currentOnly == 0 && s.unknown == 0
            && forall p ::
               p in capture.programs && p.executableFile.Some? && p.executableFile.value != "" ==>
                 p.programId in RUNTIME_PROGRAMS)
      && s.proven + s.inferred + s.currentOnly + s.unknown == |capture.metadata.accountRoles|
  {
    hide Derive, DeriveAll, ClassifyTransaction, Base58.IsAddress, Base58.IsSignature, Count;
    var plan := PlanBundle(capture).value;
    forall e | e in plan.entries ensures e.relevant {
      DerivedEntries(capture.metadata.accountRoles, capture.observed, capture.metadata, plan.classification);
      var i :| 0 <= i < |plan.entries| && plan.entries[i] == e;
      var role := capture.metadata.accountRoles[i];
      AlwaysRelevant(role, LastObserved(capture.observed, role.pubkey), capture.metadata,
                     plan.classification.transactionClass, plan.classification.details);
    }
    CountZero(plan.entries, CURRENT_ONLY);
    CountZero(plan.entries, UNKNOWN);
    CountsCover(plan.entries);
    DerivedEntries(capture.metadata.accountRoles, capture.observed, capture.metadata, plan.classification);
  }

  lemma {:induction false} CountsCover(entries: seq<Entry>)
    ensures Count(entries, PROVEN) + Count(entries, INFERRED) + Count(entries, CURRENT_ONLY) +
      Count(entries, UNKNOWN) == |entries|
  {
    if entries != [] { CountsCover(entries[..|entries| - 1]); }
  }

  // ---------------------------------------------------------------------------------------
  // Current state is never used as historical state

  /** What the runner loads for an account: its fixture when marked for replay. */
  function Loaded(e: Entry): Option<Account> { if e.replayUse then e.preState else None }

  /** An empty System account without lamports: to the runtime, no account at all. */
  predicate Void(a: Option<Account>) {
    a.Some? ==> Contents(a.value) == (Some(0), [], SYSTEM)
  }

  predicate SameState(a: Option<Account>, b: Option<Account>) {
    (Void(a) && Void(b)) || (a.Some? && b.Some? && Contents(a.value) == Contents(b.value))
  }

  lemma SupportedEntriesAgree(
    role: Role, current: Option<Observation>, current': Option<Observation>,
    metadata: Metadata, transactionClass: Class, details: Option<SplDetails>, e: Entry, e': Entry)
    requires Derive(role, current, metadata, transactionClass, details) == Ok(e) && !UnsafeAccount(e)
    requires Derive(role, current', metadata, transactionClass, details) == Ok(e') && !UnsafeAccount(e')
    ensures SameState(Loaded(e), Loaded(e'))
  {
    hide TokenAccountOf, MintAccountOf;
  }

  /**
   Two captures of one transaction, however different the accounts they observed: if both plans are
   SUPPORTED, the runner is given the same state for every account.
   */
  lemma SupportedPlansLoadSameState(capture: Capture, observed': Observed)
    requires PlanBundle(capture).Ok? && PlanBundle(capture).value.supported
    requires var other := PlanBundle(capture.(observed := observed')); other.Ok? && other.value.supported
    ensures var es := PlanBundle(capture).value.entries;
      var es' := PlanBundle(capture.(observed := observed')).value.entries;
      && |es| == |es'| == |capture.metadata.accountRoles|
      && forall i :: 0 <= i < |es| ==> SameState(Loaded(es[i]), Loaded(es'[i]))
  {
    hide Derive, DeriveAll, ClassifyTransaction, Base58.IsAddress, Base58.IsSignature, SameState;
    var other := capture.(observed := observed');
    var plan, plan' := PlanBundle(capture).value, PlanBundle(other).value;
    var c := plan.classification;
    assert plan'.classification == c;
    DerivedEntries(capture.metadata.accountRoles, capture.observed, capture.metadata, c);
    DerivedEntries(capture.metadata.accountRoles, observed', capture.metadata, c);
    forall i | 0 <= i < |plan.entries| ensures SameState(Loaded(plan.entries[i]), Loaded(plan'.entries[i])) {
      var role := capture.metadata.accountRoles[i];
      assert plan.entries[i] in plan.entries && plan'.entries[i] in plan'.entries;
      SupportedEntriesAgree(role, LastObserved(capture.observed, role.pubkey), LastObserved(observed', role.pubkey),
                            capture.metadata, c.transactionClass, c.details, plan.entries[i], plan'.entries[i]);
    }
  }

  /** Whatever a plan marks for replay starts from the pre-balance the transaction recorded. */
  lemma LoadedLamportsAreRecorded(capture: Capture, i: nat)
    requires PlanBundle(capture).Ok? && i < |capture.metadata.accountRoles|
    ensures |PlanBundle(capture).value.entries| == |capture.metadata.accountRoles|
    ensures var e := PlanBundle(capture).value.entries[i];
      Loaded(e).Some? ==>
        Loaded(e).value.lamports == Compare.At(capture.metadata.preBalances, capture.metadata.accountRoles[i].index)
  {
    hide Derive, DeriveAll, ClassifyTransaction, Base58.IsAddress, Base58.IsSignature;
    var plan := PlanBundle(capture).value;
    var c := plan.classification;
    DerivedEntries(capture.metadata.accountRoles, capture.observed, capture.metadata, c);
    var role := capture.metadata.accountRoles[i];
    var current := LastObserved(capture.observed, role.pubkey);
    if plan.entries[i].replayUse {
      ObservationCannotShapeFixture(role, current, current, capture.metadata, c.transactionClass, c.details);
    }
  }

  /** A SUPPORTED plan of an inspected transaction runs nothing but the programs of its class. */
  lemma SupportedRunsOnlyRuntime(capture: Capture)
    requires capture.metadata == Inspect(capture.tx)
    requires PlanBundle(capture).Ok? && PlanBundle(capture).value.supported
    ensures RunsOnly(capture.tx, {SYSTEM, COMPUTE_BUDGET}) ||
            (RunsOnly(capture.tx, {TOKEN, COMPUTE_BUDGET}) && Groups(capture.tx) == [])
  {
    hide Derive, DeriveAll, Summarize, ClassifyTransaction, Base58.IsAddress, Base58.IsSignature, RunsOnly, Groups;
    hide Inspect;
    var plan := PlanBundle(capture).value;
    assert plan.classification.transactionClass != UNSUPPORTED_TRANSACTION_CLASS;
    if plan.classification.transactionClass == CLASSIC_SPL_TRANSFER {
      SplClassSound(capture.tx);
    } else {
      SystemClassSound(capture.tx);
    }
  }

  // ---------------------------------------------------------------------------------------
  // A transfer that classifies and cannot be derived

  const TRANSFER: seq<Byte> := [3, 1, 0, 0, 0, 0, 0, 0, 0]

  /** Another key for every letter. */
  function SomeKey(c: char): string { seq(43, _ => c) }

  /** A token account holding one token of a mint whose name is no base-58 text. */
  function UnreadableBalance(index: nat): TokenBalance { TokenBalance(index, "0", Some(SomeKey('A')), "1", 0) }

  function UnreadableTransfer(): Tx {
    var balances := [UnreadableBalance(1), UnreadableBalance(2)];
    Tx([SomeKey('A'), SomeKey('B'), SomeKey('C'), TOKEN], Header(1, 0, 1),
       [Instruction(None, Some(3), Some(Base58.Encoded(TRANSFER)), Some([1, 2, 0]))], [], [], [],
       Json.Null, [5, 5, 5, 1], [4, 5, 5, 1], balances, balances, None)
  }

  function UnreadableCapture(): Capture {
    var signature := Base58.Encoded(Base58.Repeat(1, 64));
    Capture(signature, signature, UnreadableTransfer(), Inspect(UnreadableTransfer()), [], [], [])
  }

  lemma ChunksInAlphabet(left: string, right: string)
    requires Base58.InAlphabet(left) && Base58.InAlphabet(right)
    ensures Base58.InAlphabet(left + right)
  {
    hide Base58.Index;
  }

  lemma TokenInAlphabet()
    ensures Base58.InAlphabet(TOKEN) && |TOKEN| == 43 && TOKEN[0] == 'T'
  {
    hide Base58.InAlphabet;
    var c0, c1, c2, c3, c4 := "Tokenkeg", "QfeZyiNwAJ", "bNbGKPFXC", "WuBvf9Ss", "623VQ5DA";
    assert TOKEN == c0 + c1 + c2 + c3 + c4;
    ShortInAlphabet();
    ChunksInAlphabet(c0, c1);
    ChunksInAlphabet(c0 + c1, c2);
    ChunksInAlphabet(c0 + c1 + c2, c3);
    ChunksInAlphabet(c0 + c1 + c2 + c3, c4);
  }

  lemma ShortInAlphabet()
    ensures Base58.InAlphabet("Tokenkeg") && Base58.InAlphabet("QfeZyiNwAJ") && Base58.InAlphabet("bNbGKPFXC")
    ensures Base58.InAlphabet("WuBvf9Ss") && Base58.InAlphabet("623VQ5DA")
  {
  }

  lemma SomeKeyIsAddress(c: char)
    requires c in {'A', 'B', 'C'}
    ensures Base58.IsAddress(SomeKey(c)) && SomeKey(c)[0] == c
  {
    Base58.LongTextsAreAddresses(SomeKey(c));
  }

  lemma TokenIsAddress()
    ensures Base58.IsAddress(TOKEN)
  {
    hide Base58.IsAddress, Base58.InAlphabet;
    TokenInAlphabet();
    Base58.LongTextsAreAddresses(TOKEN);
  }

  const UNREADABLE_DETAILS := SplDetails(false, 1, 2, 0, None, "0")

  lemma UnreadableSpl()
    ensures var metadata := Inspect(UnreadableTransfer());
      && SplOf(TRANSFER, [1, 2, 0], metadata) == Some(UNREADABLE_DETAILS)
      && FindBalance(metadata.preTokenBalances, 1) == Some(UnreadableBalance(1))
  {
    hide Programs, Invoked, Base58.Encoded;
    var tx := UnreadableTransfer();
    var metadata := Inspect(tx);
    assert |WRAPPED_SOL_MINT| > |"0"|;
    assert AllKeys(tx) == tx.accountKeys;
    assert FindRole(metadata.accountRoles, 0) == Some(metadata.accountRoles[0]);
    assert metadata.accountRoles[0].pubkey == SomeKey('A') && metadata.accountRoles[0].signer;
    assert metadata.preTokenBalances[1..][0].accountIndex == 2;
  }

  lemma UnreadablePrograms()
    ensures var tx := UnreadableTransfer(); var ins := tx.instructions[0];
      && ProgramOf(tx.accountKeys, ins) == Some(TOKEN)
      && HasSystemTransfer(tx.accountKeys, tx.instructions) == Ok(false)
      && TokenInstructions(tx.accountKeys, tx.instructions) == [ins]
      && InstructionData(ins) == Ok(TRANSFER)
      && Inspect(tx).programIds == [TOKEN]
  {
    hide Base58.Encoded, Base58.Decoded;
    var tx := UnreadableTransfer();
    var ins := tx.instructions[0];
    Base58.DecodeEncode(TRANSFER);
    assert |TOKEN| == 43 && |SYSTEM| == 32;
    assert AllKeys(tx) == tx.accountKeys;
    assert tx.instructions[1..] == [] && Invoked(tx) == [ins] && Invoked(tx)[..0] == [];
  }

  /**
   A response whose token balances name an unreadable mint passes every guard of the SPL class and
   then stops the planning of its bundle.
   */
  lemma UnreadableMintStopsPlanning()
    ensures var capture := UnreadableCapture();
      && ClassifyTransaction(capture.tx, capture.metadata) ==
         Ok(Classification(CLASSIC_SPL_TRANSFER, Some(UNREADABLE_DETAILS)))
      && PlanBundle(capture) == Err(Underivable(BadAddress('0')))
  {
    hide Base58.Encoded, Base58.Decoded, SplOf, Programs, Invoked, HasSystemTransfer, TokenInstructions;
    hide InstructionData, Derive;
    var capture := UnreadableCapture();
    UnreadableSpl();
    UnreadablePrograms();
    UnreadableRoles();
    Base58.DecodeEncode(Base58.Repeat(1, 64));
    var roles := capture.metadata.accountRoles;
    assert roles[1..][0] == roles[1];
    UnreadableDerives();
  }

  lemma UnreadableRoles()
    ensures var roles := Inspect(UnreadableTransfer()).accountRoles;
      |roles| == 4 && forall r :: r in roles ==> Base58.IsAddress(r.pubkey)
  {
    hide Base58.IsAddress, Base58.Encoded, Programs, Invoked;
    var tx := UnreadableTransfer();
    SomeKeyIsAddress('A');
    SomeKeyIsAddress('B');
    SomeKeyIsAddress('C');
    TokenIsAddress();
    assert AllKeys(tx) == tx.accountKeys;
  }

  lemma UnreadableAccount(lamports: Option<int>)
    ensures TokenAccountOf(UnreadableBalance(1), lamports) == Err(BadAddress('0'))
  {
    hide TokenData;
    assert Base58.Index('0').None? && "0"[0] == '0';
    assert !Base58.InAlphabet("0");
  }

  lemma UnreadableSpend(role: Role, metadata: Metadata)
    requires role.index == 1 && !IsRuntimeProgram(role, metadata)
    requires FindBalance(metadata.preTokenBalances, 1) == Some(UnreadableBalance(1))
    ensures Derive(role, None, metadata, CLASSIC_SPL_TRANSFER, Some(UNREADABLE_DETAILS)) == Err(BadAddress('0'))
  {
    hide TokenAccountOf, IsRuntimeProgram, UnreadableBalance;
    UnreadableAccount(Compare.At(metadata.preBalances, 1));
  }

  lemma UnreadableDerives()
    ensures var metadata := Inspect(UnreadableTransfer()); var roles := metadata.accountRoles;
      && Derive(roles[0], None, metadata, CLASSIC_SPL_TRANSFER, Some(UNREADABLE_DETAILS)).Ok?
      && Derive(roles[1], None, metadata, CLASSIC_SPL_TRANSFER, Some(UNREADABLE_DETAILS)) == Err(BadAddress('0'))
  {
    hide Base58.Encoded, Programs, Invoked, TokenAccountOf, DeriveGeneral, SplOf, SomeKey, Base58.IsAddress;
    hide Base58.InAlphabet;
    var tx := UnreadableTransfer();
    var metadata := Inspect(tx);
    UnreadablePrograms();
    UnreadableSpl();
    SomeKeyIsAddress('A');
    SomeKeyIsAddress('B');
    TokenInAlphabet();
    assert AllKeys(tx) == tx.accountKeys;
    assert metadata.accountRoles[0].pubkey != TOKEN && metadata.accountRoles[1].pubkey != TOKEN;
    UnreadableSpend(metadata.accountRoles[1], metadata);
  }

  // ---------------------------------------------------------------------------------------
  // What a SUPPORTED plan leaves out, and what the reasons name

  /** A writable account goes without a fixture only if the runtime supplies it, or it is an absent, empty authority. */
  lemma SupportedWritable(capture: Capture, i: nat)
    requires PlanBundle(capture).Ok? && PlanBundle(capture).value.supported && i < |capture.metadata.accountRoles|
    requires |PlanBundle(capture).value.entries| == |capture.metadata.accountRoles|
    requires capture.metadata.accountRoles[i].writable && Loaded(PlanBundle(capture).value.entries[i]).None?
    ensures var role, c := capture.metadata.accountRoles[i], PlanBundle(capture).value.classification;
      || IsRuntimeProgram(role, capture.metadata)
      || (c.transactionClass == CLASSIC_SPL_TRANSFER && c.details.Some? && role.index == c.details.value.authority &&
          Compare.At(capture.metadata.preBalances, role.index) == Some(0) &&
          LastObserved(capture.observed, role.pubkey).None?)
  {
    hide Derive, DeriveAll, ClassifyTransaction, Base58.IsAddress, Base58.IsSignature, IsRuntimeProgram;
    var plan := PlanBundle(capture).value;
    var c, role := plan.classification, capture.metadata.accountRoles[i];
    DerivedEntries(capture.metadata.accountRoles, capture.observed, capture.metadata, c);
    ProvenanceExactly(role, LastObserved(capture.observed, role.pubkey), capture.metadata, c.transactionClass,
      c.details);
    assert plan.entries[i] in plan.entries;
  }

  /** The last answer for an address is the one that counts. */
  lemma {:induction false} ObservedIsLast(observed: Observed, i: nat)
    requires i < |observed| && forall j :: i < j < |observed| ==> observed[j].0 != observed[i].0
    ensures LastObserved(observed, observed[i].0) == observed[i].1
  {
    if i < |observed| - 1 { ObservedIsLast(observed[..|observed| - 1], i); }
  }

  lemma {:induction false} NotObserved(observed: Observed, pubkey: string)
    requires forall o :: o in observed ==> o.0 != pubkey
    ensures LastObserved(observed, pubkey) == None
  {
    if observed != [] {
      var init := observed[..|observed| - 1];
      assert observed[|observed| - 1] in observed && forall o :: o in init ==> o in observed;
      NotObserved(init, pubkey);
    }
  }

  lemma AccountKeysAppend(a: seq<Entry>, b: seq<Entry>)
    ensures AccountKeys(a + b) == AccountKeys(a) + AccountKeys(b)
  {
  }

  lemma ProgramKeysAppend(a: seq<Program>, b: seq<Program>)
    ensures ProgramKeys(a + b) == ProgramKeys(a) + ProgramKeys(b)
  {
  }

  lemma {:induction false} UnsafeAccountsAppend(a: seq<Entry>, b: seq<Entry>)
    ensures UnsafeAccounts(a + b) == UnsafeAccounts(a) + UnsafeAccounts(b)
  {
    hide UnsafeAccount;
    if a == [] {
      assert a + b == b;
    } else {
      assert (a + b)[1..] == a[1..] + b;
      UnsafeAccountsAppend(a[1..], b);
    }
  }

  lemma {:induction false} UnsafeProgramsAppend(a: seq<Program>, b: seq<Program>)
    ensures UnsafePrograms(a + b) == UnsafePrograms(a) + UnsafePrograms(b)
  {
    hide UnsafeProgram;
    if a == [] {
      assert a + b == b;
    } else {
      assert (a + b)[1..] == a[1..] + b;
      UnsafeProgramsAppend(a[1..], b);
    }
  }

  lemma AccountNamed(e: Entry)
    ensures AccountKeys(UnsafeAccounts([])) == []
    ensures AccountKeys(UnsafeAccounts([e])) ==
      if e.relevant && e.provenance in {CURRENT_ONLY, UNKNOWN} then [e.role.pubkey] else []
  {
    assert [e][1..] == [];
  }

  lemma ProgramNamed(p: Program)
    ensures ProgramKeys(UnsafePrograms([])) == []
    ensures ProgramKeys(UnsafePrograms([p])) ==
      if p.executableFile in {None, Some("")} || p.programId in RUNTIME_PROGRAMS then [] else [p.programId]
  {
    hide RUNTIME_PROGRAMS;
    assert [p][1..] == [];
  }

  /** The accounts named are the unsafe ones, in their order: relevant, and CURRENT_ONLY or UNKNOWN. */
  lemma AccountsNamed(before: seq<Entry>, e: Entry, after: seq<Entry>)
    ensures AccountKeys(UnsafeAccounts([])) == []
    ensures AccountKeys(UnsafeAccounts(before + [e] + after)) ==
      AccountKeys(UnsafeAccounts(before)) +
      (if e.relevant && e.provenance in {CURRENT_ONLY, UNKNOWN} then [e.role.pubkey] else []) +
      AccountKeys(UnsafeAccounts(after))
  {
    hide UnsafeAccounts, AccountKeys;
    AccountNamed(e);
    UnsafeAccountsAppend(before + [e], after);
    UnsafeAccountsAppend(before, [e]);
    AccountKeysAppend(UnsafeAccounts(before) + UnsafeAccounts([e]), UnsafeAccounts(after));
    AccountKeysAppend(UnsafeAccounts(before), UnsafeAccounts([e]));
  }

  /** The programs named are those captured with an executable outside the runtime, in their order. */
  lemma ProgramsNamed(before: seq<Program>, p: Program, after: seq<Program>)
    ensures ProgramKeys(UnsafePrograms([])) == []
    ensures ProgramKeys(UnsafePrograms(before + [p] + after)) ==
      ProgramKeys(UnsafePrograms(before)) +
      (if p.executableFile in {None, Some("")} || p.programId in RUNTIME_PROGRAMS then [] else [p.programId]) +
      ProgramKeys(UnsafePrograms(after))
  {
    hide UnsafePrograms, ProgramKeys, RUNTIME_PROGRAMS;
    ProgramNamed(p);
    UnsafeProgramsAppend(before + [p], after);
    UnsafeProgramsAppend(before, [p]);
    ProgramKeysAppend(UnsafePrograms(before) + UnsafePrograms([p]), UnsafePrograms(after));
    ProgramKeysAppend(UnsafePrograms(before), UnsafePrograms([p]));
  }

  /** Each reason is given exactly when it applies; an upgradeable program is one whose loader says so. */
  lemma ReasonsExactly(transactionClass: Class, entries: seq<Entry>, programs: seq<Program>, lookups: seq<string>)
    ensures var reasons := Reasons(transactionClass, entries, programs, lookups);
      && (UnsupportedTransactionClass in reasons <==> transactionClass == UNSUPPORTED_TRANSACTION_CLASS)
      && (forall tables :: UnsupportedAltHistoricalState(tables) in reasons <==> tables == lookups != [])
      && (forall keys :: UnsupportedAccountPrestate(keys) in reasons <==>
           keys == AccountKeys(UnsafeAccounts(entries)) != [])
      && (forall ids :: UnsupportedProgramProvenance(ids) in reasons <==>
           ids == ProgramKeys(UnsafePrograms(programs)) != [])
      && (forall ids :: UnsupportedUpgradeableProgramVersion(ids) in reasons <==>
            ids == ProgramKeys(UnsafePrograms(programs)) &&
            exists p :: p in programs && UnsafeProgram(p) && LoaderSays(p, "Upgradeab1e"))
  {
    hide UnsafeAccount, UnsafeProgram, RUNTIME_PROGRAMS, Reasons, Upgradeable, LoaderSays, AccountKeys, ProgramKeys;
    hide UnsafeAccounts, UnsafePrograms, Includes;
    forall reason
      ensures reason in Reasons(transactionClass, entries, programs, lookups) <==>
        Applies(transactionClass, entries, programs, lookups, reason)
    {
      ReasonIn(transactionClass, entries, programs, lookups, reason);
    }
    NamesNothing(entries, programs);
    forall p ensures Upgradeable(p) <==> LoaderSays(p, "Upgradeab1e") {
      IncludesMeans(p);
    }
  }

  lemma NamesNothing(entries: seq<Entry>, programs: seq<Program>)
    ensures AccountKeys(UnsafeAccounts(entries)) == [] <==> UnsafeAccounts(entries) == []
    ensures ProgramKeys(UnsafePrograms(programs)) == [] <==> UnsafePrograms(programs) == []
  {
    hide UnsafeAccounts, UnsafePrograms;
  }

  predicate Applies(
    transactionClass: Class, entries: seq<Entry>, programs: seq<Program>, lookups: seq<string>, reason: Reason)
  {
    var accounts, executables := UnsafeAccounts(entries), UnsafePrograms(programs);
    match reason
    case UnsupportedTransactionClass => transactionClass == UNSUPPORTED_TRANSACTION_CLASS
    case UnsupportedAltHistoricalState(tables) => tables == lookups && lookups != []
    case UnsupportedAccountPrestate(keys) => accounts != [] && keys == AccountKeys(accounts)
    case UnsupportedProgramProvenance(ids) => executables != [] && ids == ProgramKeys(executables)
    case UnsupportedUpgradeableProgramVersion(ids) =>
      (exists p :: p in executables && Upgradeable(p)) && ids == ProgramKeys(executables)
  }

  lemma WhenIn(condition: bool, given: Reason, reason: Reason)
    ensures reason in When(condition, given) <==> condition && reason == given
  {
  }

  lemma ReasonIn(
    transactionClass: Class, entries: seq<Entry>, programs: seq<Program>, lookups: seq<string>, reason: Reason)
    ensures reason in Reasons(transactionClass, entries, programs, lookups) <==>
      Applies(transactionClass, entries, programs, lookups, reason)
  {
    hide When, AccountKeys, ProgramKeys, Upgradeable, UnsafeAccounts, UnsafePrograms, UnsafeProgram, UnsafeAccount;
    var accounts, executables := UnsafeAccounts(entries), UnsafePrograms(programs);
    WhenIn(transactionClass == UNSUPPORTED_TRANSACTION_CLASS, UnsupportedTransactionClass, reason);
    WhenIn(lookups != [], UnsupportedAltHistoricalState(lookups), reason);
    WhenIn(accounts != [], UnsupportedAccountPrestate(AccountKeys(accounts)), reason);
    WhenIn(executables != [], UnsupportedProgramProvenance(ProgramKeys(executables)), reason);
    var upgradeable := exists p :: p in executables && Upgradeable(p);
    WhenIn(upgradeable, UnsupportedUpgradeableProgramVersion(ProgramKeys(executables)), reason);
  }

  /** The text of the loader holds the part somewhere. */
  ghost predicate LoaderSays(p: Program, part: string) {
    p.loader.Some? && exists before, after :: p.loader.value == before + part + after
  }

  lemma IncludesMeans(p: Program)
    ensures Upgradeable(p) <==> LoaderSays(p, "Upgradeab1e")
  {
    var part := "Upgradeab1e";
    if Upgradeable(p) {
      var text := p.loader.value;
      var i :| 0 <= i <= |text| && part <= text[i..];
      assert text == text[..i] + part + text[i + |part|..];
    }
    if LoaderSays(p, part) {
      var before, after :| p.loader.value == before + part + after;
      var text, i := p.loader.value, |before|;
      assert text[i..] == part + after;
      assert 0 <= i <= |text| && part <= text[i..];
      assert Includes(text, part);
    }
  }

  /** A bundle can be planned exactly when its guards hold, its class can be told and every account derived. */
  lemma PlannedExactly(capture: Capture)
    ensures PlanBundle(capture).Ok? <==>
      && Base58.Decoded(capture.signature).Ok? && |Base58.Decoded(capture.signature).value| == 64
      && capture.signature == capture.metadataSignature
      && (forall r :: r in capture.metadata.accountRoles ==>
            Base58.Decoded(r.pubkey).Ok? && |Base58.Decoded(r.pubkey).value| == 32)
      && (forall p :: p in capture.programs ==>
            Base58.Decoded(p.programId).Ok? && |Base58.Decoded(p.programId).value| == 32)
      && ClassifyTransaction(capture.tx, capture.metadata).Ok?
      && var c := ClassifyTransaction(capture.tx, capture.metadata).value;
         forall r :: r in capture.metadata.accountRoles ==>
           Derive(r, LastObserved(capture.observed, r.pubkey), capture.metadata, c.transactionClass, c.details).Ok?
    ensures PlanBundle(capture).Ok? ==>
      PlanBundle(capture).value.classification == ClassifyTransaction(capture.tx, capture.metadata).value
  {
    hide Base58.Decoded, ClassifyTransaction, Derive, DeriveAll, Summarize, Defensible, LastObserved;
    if ClassifyTransaction(capture.tx, capture.metadata).Ok? {
      AllDerive(capture.metadata.accountRoles, capture.observed, capture.metadata,
        ClassifyTransaction(capture.tx, capture.metadata).value);
    }
  }

  lemma {:induction false} AllDerive(roles: seq<Role>, observed: Observed, metadata: Metadata, c: Classification)
    ensures DeriveAll(roles, observed, metadata, c).Ok? <==>
      forall r ::
        r in roles ==> Derive(r, LastObserved(observed, r.pubkey), metadata, c.transactionClass, c.details).Ok?
  {
    hide Derive, LastObserved;
    if roles != [] {
      AllDerive(roles[1..], observed, metadata, c);
      assert forall r :: r in roles <==> r == roles[0] || r in roles[1..];
    }
  }
}
