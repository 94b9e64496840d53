/** src/inspect.js and src/transaction-class.js: what a transaction runs, and the class it falls into. */
module Transaction {
  import opened JsText
  import opened Records
  import opened Json
  import Base58
  import Numerals

  datatype Instruction = Instruction(
    programId: Option<string>, programIdIndex: Option<nat>, data: Option<string>, accounts: Option<seq<nat>>)

  datatype Header = Header(requiredSignatures: int, readonlySigned: int, readonlyUnsigned: int)

  /** A getTransaction response: the message, the addresses its lookup tables loaded, and the metadata. */
  datatype Tx = Tx(
    accountKeys: seq<string>, header: Header, instructions: seq<Instruction>, lookups: seq<string>,
    loadedWritable: seq<string>, loadedReadonly: seq<string>,
    err: Json, preBalances: seq<int>, postBalances: seq<int>,
    preTokenBalances: seq<TokenBalance>, postTokenBalances: seq<TokenBalance>,
    inner: Option<seq<seq<Instruction>>>)

  /** metadata.json, as far as planning reads it. */
  datatype Metadata = Metadata(
    err: Json, preBalances: seq<int>, postBalances: seq<int>,
    preTokenBalances: seq<TokenBalance>, postTokenBalances: seq<TokenBalance>,
    accountRoles: seq<Role>, programIds: seq<string>, lookups: seq<string>, inner: Option<seq<seq<Instruction>>>)

  function AllKeys(tx: Tx): seq<string> { tx.accountKeys + tx.loadedWritable + tx.loadedReadonly }

  // ---------------------------------------------------------------------------------------
  // programIds, src/inspect.js:23-36

  /** `instruction.programId || keys[instruction.programIdIndex]` */
  function ProgramOf(keys: seq<string>, instruction: Instruction): Option<string> {
    if instruction.programId.Some? && instruction.programId.value != "" then instruction.programId
    else if instruction.programIdIndex.Some? && instruction.programIdIndex.value < |keys|
      then Some(keys[instruction.programIdIndex.value])
    else None
  }

  /** An instruction names its program by an id of its own, or else by a position among the keys. */
  predicate Runs(keys: seq<string>, instruction: Instruction, program: string) {
    || (instruction.programId == Some(program) && program != "")
    || (instruction.programId in {None, Some("")} && instruction.programIdIndex.Some? &&
        instruction.programIdIndex.value < |keys| && keys[instruction.programIdIndex.value] == program)
  }

  lemma ProgramOfExactly(keys: seq<string>, instruction: Instruction)
    ensures forall program :: ProgramOf(keys, instruction) == Some(program) <==> Runs(keys, instruction, program)
  {
  }

  function Groups(tx: Tx): seq<seq<Instruction>> { if tx.inner.Some? then tx.inner.value else [] }

  function Flatten(groups: seq<seq<Instruction>>): seq<Instruction> {
    if groups == [] then [] else Flatten(groups[..|groups| - 1]) + groups[|groups| - 1]
  }

  /** Every instruction of the transaction, outer and inner. */
  function Invoked(tx: Tx): seq<Instruction> { tx.instructions + Flatten(Groups(tx)) }

  /** The inner groups are put one after the other. */
  lemma {:induction false} FlattenAppend(a: seq<seq<Instruction>>, b: seq<seq<Instruction>>)
    ensures Flatten([]) == []
    ensures forall group :: Flatten([group]) == group
    ensures Flatten(a + b) == Flatten(a) + Flatten(b)
    decreases |b|
  {
    forall group: seq<Instruction> ensures Flatten([group]) == group {
      assert [group][..0] == [];
    }
    if b == [] {
      assert a + b == a;
    } else {
      var init := b[..|b| - 1];
      assert (a + b)[..|a + b| - 1] == a + init;
      FlattenAppend(a, init);
    }
  }

  /** An instruction of the transaction, outer or inner. */
  predicate Invokes(tx: Tx, instruction: Instruction) {
    || instruction in tx.instructions
    || (tx.inner.Some? && exists g :: 0 <= g < |tx.inner.value| && instruction in tx.inner.value[g])
  }

  lemma {:induction false} FlattenMembers(groups: seq<seq<Instruction>>, instruction: Instruction)
    ensures instruction in Flatten(groups) <==> exists g :: 0 <= g < |groups| && instruction in groups[g]
  {
    if groups != [] {
      var init := groups[..|groups| - 1];
      FlattenMembers(init, instruction);
      assert forall g :: 0 <= g < |init| ==> init[g] == groups[g];
    }
  }

  lemma InvokedExactly(tx: Tx, instruction: Instruction)
    ensures instruction in Invoked(tx) <==> Invokes(tx, instruction)
  {
    hide Flatten;
    FlattenMembers(Groups(tx), instruction);
  }

  /** Set.prototype.add; a set keeps insertion order. */
  function Add(ids: seq<string>, id: Option<string>): seq<string> {
    if id.None? || id.value == "" || id.value in ids then ids else ids + [id.value]
  }

  function Programs(keys: seq<string>, instructions: seq<Instruction>): (ids: seq<string>) {
    if instructions == [] then []
    else Add(Programs(keys, instructions[..|instructions| - 1]), ProgramOf(keys, instructions[|instructions| - 1]))
  }

  lemma ProgramsNext(keys: seq<string>, before: seq<Instruction>, list: seq<Instruction>, i: nat)
    requires i < |list|
    ensures Programs(keys, before + list[..i + 1]) == Add(Programs(keys, before + list[..i]), ProgramOf(keys, list[i]))
  {
    hide ProgramOf;
    var longer := before + list[..i + 1];
    assert longer[..|longer| - 1] == before + list[..i];
  }

  lemma FlattenNext(outer: seq<Instruction>, groups: seq<seq<Instruction>>, g: nat)
    requires g < |groups|
    ensures outer + Flatten(groups[..g + 1]) == (outer + Flatten(groups[..g])) + groups[g]
  {
    assert groups[..g + 1][..g] == groups[..g];
  }

  method ProgramIds(tx: Tx, allKeys: seq<string>) returns (ids: seq<string>)
    ensures ids == Programs(allKeys, Invoked(tx))
  {
    hide Programs, Add, ProgramOf;
    ids := [];
    var outer, groups := tx.instructions, Groups(tx);
    NoPrograms(allKeys);
    assert [] + outer[..0] == [];
    for i := 0 to |outer|
      invariant ids == Programs(allKeys, [] + outer[..i])
    {
      ProgramsNext(allKeys, [], outer, i);
      ids := Add(ids, ProgramOf(allKeys, outer[i]));
    }
    assert [] + outer[..|outer|] == outer + Flatten(groups[..0]);
    for g := 0 to |groups|
      invariant ids == Programs(allKeys, outer + Flatten(groups[..g]))
    {
      var group := groups[g];
      ghost var before := outer + Flatten(groups[..g]);
      assert before + group[..0] == before;
      for i := 0 to |group|
        invariant ids == Programs(allKeys, before + group[..i])
      {
        ProgramsNext(allKeys, before, group, i);
        ids := Add(ids, ProgramOf(allKeys, group[i]));
      }
      assert group[..|group|] == group;
      FlattenNext(outer, groups, g);
    }
    assert groups[..|groups|] == groups;
  }

  lemma NoPrograms(keys: seq<string>)
    ensures Programs(keys, []) == []
  {
  }

  /** The list holds exactly the programs some instruction resolves to. */
  lemma {:induction false} ProgramsMembers(keys: seq<string>, instructions: seq<Instruction>, id: string)
    ensures id in Programs(keys, instructions) <==>
            id != "" && exists ins :: ins in instructions && ProgramOf(keys, ins) == Some(id)
  {
    if instructions != [] {
      var init, last := instructions[..|instructions| - 1], instructions[|instructions| - 1];
      ProgramsMembers(keys, init, id);
      assert forall ins :: ins in instructions <==> ins in init || ins == last;
    }
  }

  /** No program is listed twice, and they come in the order of their first use. */
  lemma {:induction false} ProgramsInOrder(keys: seq<string>, instructions: seq<Instruction>)
    ensures var ids := Programs(keys, instructions);
      && (forall i, j :: 0 <= i < j < |ids| ==> ids[i] != ids[j])
      && forall i, j :: 0 <= i < j < |ids| ==> UsedBefore(keys, instructions, ids[i], ids[j])
  {
    hide ProgramOf;
    if instructions != [] {
      var init, last := instructions[..|instructions| - 1], instructions[|instructions| - 1];
      var before, ids := Programs(keys, init), Programs(keys, instructions);
      ProgramsInOrder(keys, init);
      forall i, j | 0 <= i < j < |ids| ensures UsedBefore(keys, instructions, ids[i], ids[j]) {
        ProgramsMembers(keys, init, ids[i]);
        ProgramsMembers(keys, init, ids[j]);
        assert before[i] == ids[i];
        if j < |before| {
          assert before[j] == ids[j];
          var k: nat :| k < |init| && FirstUse(keys, init, ids[i], ids[j], k);
          assert FirstUse(keys, instructions, ids[i], ids[j], k);
        } else {
          assert ids[j] !in before && ids[i] in before;
          var ins :| ins in init && ProgramOf(keys, ins) == Some(ids[i]);
          var k: nat :| k < |init| && init[k] == ins;
          assert forall m :: 0 <= m <= k ==> init[m] in init && instructions[m] == init[m];
          assert FirstUse(keys, instructions, ids[i], ids[j], k);
        }
      }
    }
  }

  /** The instruction at `k` uses the one program, and none up to it the other. */
  predicate FirstUse(keys: seq<string>, instructions: seq<Instruction>, id: string, other: string, k: nat)
    requires k < |instructions|
  {
    && ProgramOf(keys, instructions[k]) == Some(id)
    && forall m :: 0 <= m <= k ==> ProgramOf(keys, instructions[m]) != Some(other)
  }

  predicate UsedBefore(keys: seq<string>, instructions: seq<Instruction>, id: string, other: string) {
    exists k: nat :: k < |instructions| && FirstUse(keys, instructions, id, other, k)
  }

  // ---------------------------------------------------------------------------------------
  // rolesForKeys and the metadata record, src/inspect.js:38-58 and 144-174

  function RoleOf(tx: Tx, index: nat): Role
    requires index < |AllKeys(tx)|
  {
    var statics := |tx.accountKeys|;
    var pubkey := AllKeys(tx)[index];
    if index < statics then
      var signer := index < tx.header.requiredSignatures;
      var writable := if signer then index < tx.header.requiredSignatures - tx.header.readonlySigned
                      else index < statics - tx.header.readonlyUnsigned;
      Role(index, pubkey, "static", signer, writable)
    else if index < statics + |tx.loadedWritable| then Role(index, pubkey, "lookup-writable", false, true)
    else Role(index, pubkey, "lookup-readonly", false, false)
  }

  function Roles(tx: Tx): (roles: seq<Role>)
    ensures |roles| == |AllKeys(tx)|
    ensures forall i :: 0 <= i < |roles| ==> roles[i].index == i && roles[i].pubkey == AllKeys(tx)[i]
  {
    seq(|AllKeys(tx)|, i requires 0 <= i < |AllKeys(tx)| => RoleOf(tx, i))
  }

  /** A key the transaction may write: a signing or unsigned static key outside the read-only ends, or a loaded one. */
  predicate WritableAt(tx: Tx, i: nat) {
    var statics, signers := |tx.accountKeys|, tx.header.requiredSignatures;
    || (i < statics && i < signers && i < signers - tx.header.readonlySigned)
    || (i < statics && signers <= i && i < statics - tx.header.readonlyUnsigned)
    || statics <= i < statics + |tx.loadedWritable|
  }

  /** The static keys come first, then the writable and the read-only ones a lookup table loaded. */
  predicate KeyAt(tx: Tx, i: nat, pubkey: string) {
    var statics, writable := |tx.accountKeys|, |tx.loadedWritable|;
    || (i < statics && pubkey == tx.accountKeys[i])
    || (statics <= i < statics + writable && pubkey == tx.loadedWritable[i - statics])
    || (statics + writable <= i < statics + writable + |tx.loadedReadonly| &&
        pubkey == tx.loadedReadonly[i - statics - writable])
  }

  /** The roles are the positions of the message: who signs, what is writable, where the key came from. */
  lemma RolesMean(tx: Tx, i: nat)
    requires i < |AllKeys(tx)|
    ensures var role := Roles(tx)[i];
      && role.index == i && KeyAt(tx, i, role.pubkey)
      && (role.signer <==> i < |tx.accountKeys| && i < tx.header.requiredSignatures)
      && (role.writable <==> WritableAt(tx, i))
      && (role.source == "static" <==> i < |tx.accountKeys|)
      && (role.source == "lookup-writable" <==> |tx.accountKeys| <= i < |tx.accountKeys| + |tx.loadedWritable|)
      && (role.source == "lookup-readonly" <==> i >= |tx.accountKeys| + |tx.loadedWritable|)
  {
    assert |"static"| == 6 && |"lookup-writable"| == 15 && |"lookup-readonly"| == 15;
    assert "lookup-writable"[7] != "lookup-readonly"[7];
  }

  function Inspect(tx: Tx): Metadata {
    Metadata(tx.err, tx.preBalances, tx.postBalances, tx.preTokenBalances, tx.postTokenBalances,
             Roles(tx), Programs(AllKeys(tx), Invoked(tx)), tx.lookups, tx.inner)
  }

  // ---------------------------------------------------------------------------------------
  // src/transaction-class.js

  datatype Class = SYSTEM_TRANSFER | CLASSIC_SPL_TRANSFER | SUPPORTED_DETERMINISTIC_FAILURE
    | UNSUPPORTED_TRANSACTION_CLASS

  datatype SplDetails = SplDetails(checked: bool, source: nat, destination: nat, authority: nat, mint: Option<nat>,
    mintAddress: string)

  datatype Classification = Classification(transactionClass: Class, details: Option<SplDetails>)

  /** Decoding fails with the offending character. */
  function InstructionData(instruction: Instruction): Result<seq<Byte>, char> {
    Base58.Decoded(if instruction.data.Some? then instruction.data.value else "")
  }

  function IsSystemTransfer(keys: seq<string>, instruction: Instruction): Result<bool, char> {
    if ProgramOf(keys, instruction) != Some(SYSTEM) then Ok(false)
    else
      match InstructionData(instruction)
      case Err(c) => Err(c)
      case Ok(data) => Ok(|data| >= 4 && Numerals.ValueLE(data[..4], 256) == 2)
  }

  /** `some` stops at the first transfer; an undecodable System instruction before it throws. */
  function HasSystemTransfer(keys: seq<string>, instructions: seq<Instruction>): Result<bool, char> {
    if instructions == [] then Ok(false)
    else
      var first := IsSystemTransfer(keys, instructions[0]);
      if first.Err? || first.value then first else HasSystemTransfer(keys, instructions[1..])
  }

  function TokenInstructions(keys: seq<string>, instructions: seq<Instruction>): (ts: seq<Instruction>)
    ensures forall t :: t in ts ==> t in instructions && ProgramOf(keys, t) == Some(TOKEN)
  {
    if instructions == [] then []
    else
      (if ProgramOf(keys, instructions[0]) == Some(TOKEN) then [instructions[0]] else []) +
      TokenInstructions(keys, instructions[1..])
  }

  predicate Falsy(owner: Option<string>) { owner.None? || owner.value == "" }

  function ClassicSpl(tx: Tx, metadata: Metadata): Result<Option<SplDetails>, char> {
    if !metadata.err.Null? || metadata.lookups != [] || (metadata.inner.Some? && metadata.inner.value != [])
      then Ok(None)
    else if !(forall id :: id in metadata.programIds ==> id == TOKEN || id == COMPUTE_BUDGET) then Ok(None)
    else
      var tokens := TokenInstructions(tx.accountKeys, tx.instructions);
      if |tokens| != 1 then Ok(None)
      else
        match InstructionData(tokens[0])
        case Err(c) => Err(c)
        case Ok(data) => Ok(SplOf(data, if tokens[0].accounts.Some? then tokens[0].accounts.value else [], metadata))
  }

  /** Lines 29-49: the checks on the decoded instruction. */
  function SplOf(data: seq<Byte>, accounts: seq<nat>, metadata: Metadata): Option<SplDetails> {
    if data == [] || (data[0] != 3 && data[0] != 12) then None
    else
      var checked := data[0] == 12;
      if |accounts| != (if checked then 4 else 3) then None
      else
        var d := if checked
          then SplDetails(true, accounts[0], accounts[2], accounts[3], Some(accounts[1]), "")
          else SplDetails(false, accounts[0], accounts[1], accounts[2], None, "");
        var source, destination :=
          FindBalance(metadata.preTokenBalances, d.source), FindBalance(metadata.preTokenBalances, d.destination);
        var sourcePost, destinationPost :=
          FindBalance(metadata.postTokenBalances, d.source), FindBalance(metadata.postTokenBalances, d.destination);
        var authority := FindRole(metadata.accountRoles, d.authority);
        if source.None? || destination.None? || sourcePost.None? || destinationPost.None? then None
        else if Falsy(source.value.owner) || Falsy(destination.value.owner) ||
          source.value.mint != destination.value.mint then None
        else if source.value.mint == WRAPPED_SOL_MINT then None
        else if authority.None? || !authority.value.signer || source.value.owner != Some(authority.value.pubkey)
          then None
        else if checked then
          var mint := FindRole(metadata.accountRoles, accounts[1]);
          if mint.None? || mint.value.pubkey != source.value.mint || |data| != 10 || data[9] != source.value.decimals
            then None
          else Some(d.(mintAddress := source.value.mint))
        else if |data| != 9 then None
        else Some(d.(mintAddress := source.value.mint))
  }

  function ClassifyTransaction(tx: Tx, metadata: Metadata): Result<Classification, char> {
    var systemOnly :=
      metadata.programIds != [] && forall id :: id in metadata.programIds ==> id == SYSTEM || id == COMPUTE_BUDGET;
    var hasSystemTransfer := HasSystemTransfer(tx.accountKeys, tx.instructions);
    if hasSystemTransfer.Err? then Err(hasSystemTransfer.error)
    else if systemOnly && hasSystemTransfer.value then
      Ok(Classification(if metadata.err.Null? then SYSTEM_TRANSFER else SUPPORTED_DETERMINISTIC_FAILURE, None))
    else
      match ClassicSpl(tx, metadata)
      case Err(c) => Err(c)
      case Ok(Some(spl)) => Ok(Classification(CLASSIC_SPL_TRANSFER, Some(spl)))
      case Ok(None) => Ok(Classification(UNSUPPORTED_TRANSACTION_CLASS, None))
  }

  // ---------------------------------------------------------------------------------------
  // Soundness of the classes over the whole transaction

  ghost predicate RunsOnly(tx: Tx, allowed: set<string>) {
    forall ins, program ::
      Invokes(tx, ins) && Runs(AllKeys(tx), ins, program) ==> program == "" || program in allowed
  }

  lemma ProgramsBound(tx: Tx, allowed: set<string>)
    requires forall id :: id in Programs(AllKeys(tx), Invoked(tx)) ==> id in allowed
    ensures RunsOnly(tx, allowed)
  {
    hide Programs, Invoked, Runs, Invokes, ProgramOf;
    forall ins, program | Invokes(tx, ins) && Runs(AllKeys(tx), ins, program)
      ensures program == "" || program in allowed
    {
      ProgramOfExactly(AllKeys(tx), ins);
      InvokedExactly(tx, ins);
      ProgramsMembers(AllKeys(tx), Invoked(tx), program);
    }
  }

  /** Data that decodes to at least four bytes, the little-endian number 2 first: the tag of a System transfer. */
  predicate BeginsTransfer(ins: Instruction) {
    ins.data.Some? &&
    var data := Base58.Decoded(ins.data.value);
    data.Ok? && |data.value| >= 4 && data.value[..4] == [2, 0, 0, 0]
  }

  lemma FourBytes(data: seq<nat>)
    requires |data| == 4
    ensures Numerals.ValueLE(data, 256) == data[0] + 0x100 * data[1] + 0x1_0000 * data[2] + 0x100_0000 * data[3]
  {
    var one, two, three: seq<nat> := data[..1], data[..2], data[..3];
    assert one[..0] == [] && two[..1] == one && three[..2] == two && data[..3] == three;
    assert Numerals.Pow(256, 0) == 1 && Numerals.Pow(256, 1) == 0x100;
    assert Numerals.Pow(256, 2) == 0x1_0000 && Numerals.Pow(256, 3) == 0x100_0000;
    assert Numerals.ValueLE(one, 256) == data[0];
    assert Numerals.ValueLE(two, 256) == data[0] + 0x100 * data[1];
    assert Numerals.ValueLE(three, 256) == data[0] + 0x100 * data[1] + 0x1_0000 * data[2];
  }

  lemma TagMeans(data: seq<Byte>)
    requires |data| == 4
    ensures Numerals.ValueLE(data, 256) == 2 <==> data == [2, 0, 0, 0]
  {
    hide Numerals.ValueLE;
    FourBytes(data);
  }

  lemma SystemTransferMeans(keys: seq<string>, ins: Instruction)
    ensures IsSystemTransfer(keys, ins) == Ok(true) <==> ProgramOf(keys, ins) == Some(SYSTEM) && BeginsTransfer(ins)
    ensures IsSystemTransfer(keys, ins).Err? <==> ProgramOf(keys, ins) == Some(SYSTEM) && InstructionData(ins).Err?
  {
    hide Base58.Decoded, ProgramOf, Numerals.ValueLE;
    NoData();
    if InstructionData(ins).Ok? && |InstructionData(ins).value| >= 4 { TagMeans(InstructionData(ins).value[..4]); }
  }

  lemma NoData()
    ensures Base58.Decoded("") == Ok([])
  {
    hide Base58.Decoded;
    Base58.DecodeEncode([]);
    assert Base58.Encoded([]) == "";
  }

  /** A System transfer, with nothing undecodable for the System program before it. */
  predicate TransferAt(keys: seq<string>, instructions: seq<Instruction>, k: nat)
    requires k < |instructions|
  {
    && ProgramOf(keys, instructions[k]) == Some(SYSTEM) && BeginsTransfer(instructions[k])
    && forall j ::
       0 <= j < k ==> ProgramOf(keys, instructions[j]) == Some(SYSTEM) ==> InstructionData(instructions[j]).Ok?
  }

  lemma {:induction false} SystemTransferFound(keys: seq<string>, instructions: seq<Instruction>)
    ensures HasSystemTransfer(keys, instructions) == Ok(true) <==>
      exists k: nat :: k < |instructions| && TransferAt(keys, instructions, k)
  {
    hide IsSystemTransfer, BeginsTransfer, ProgramOf, InstructionData, TransferAt;
    if instructions != [] {
      var rest := instructions[1..];
      SystemTransferMeans(keys, instructions[0]);
      SystemTransferFound(keys, rest);
      TransferFirst(keys, instructions);
      if k: nat :| k < |instructions| && TransferAt(keys, instructions, k) {
        if k > 0 { TransferLater(keys, instructions, k - 1); }
      }
      if k: nat :| k < |rest| && TransferAt(keys, rest, k) {
        TransferLater(keys, instructions, k);
      }
    }
  }

  lemma TransferFirst(keys: seq<string>, instructions: seq<Instruction>)
    requires instructions != []
    ensures TransferAt(keys, instructions, 0) <==> IsSystemTransfer(keys, instructions[0]) == Ok(true)
  {
    hide IsSystemTransfer, BeginsTransfer, ProgramOf, InstructionData;
    SystemTransferMeans(keys, instructions[0]);
  }

  lemma TransferLater(keys: seq<string>, instructions: seq<Instruction>, k: nat)
    requires k + 1 < |instructions|
    ensures TransferAt(keys, instructions, k + 1) <==>
      IsSystemTransfer(keys, instructions[0]).Ok? && TransferAt(keys, instructions[1..], k)
  {
    hide IsSystemTransfer, BeginsTransfer, ProgramOf, InstructionData;
    var rest := instructions[1..];
    SystemTransferMeans(keys, instructions[0]);
    assert forall j :: 0 <= j <= k ==> rest[j] == instructions[j + 1];
    if IsSystemTransfer(keys, instructions[0]).Ok? && TransferAt(keys, rest, k) {
      forall j | 0 <= j < k + 1 && ProgramOf(keys, instructions[j]) == Some(SYSTEM)
        ensures InstructionData(instructions[j]).Ok?
      {
        if j > 0 { assert rest[j - 1] == instructions[j]; }
      }
    }
  }

  lemma MoreKeysSameProgram(keys: seq<string>, more: seq<string>, ins: Instruction, program: string)
    requires ProgramOf(keys, ins) == Some(program)
    ensures ProgramOf(keys + more, ins) == Some(program)
  {
  }

  /** Programs of a transaction, and what it runs. */
  lemma RunsOnlyMeans(tx: Tx, allowed: set<string>)
    ensures RunsOnly(tx, allowed) <==> forall id :: id in Inspect(tx).programIds ==> id in allowed
  {
    hide ProgramOf, Programs, Invoked, Runs, Invokes;
    if forall id :: id in Inspect(tx).programIds ==> id in allowed { ProgramsBound(tx, allowed); }
    forall id | id in Inspect(tx).programIds && RunsOnly(tx, allowed) ensures id in allowed {
      ProgramsMembers(AllKeys(tx), Invoked(tx), id);
      var ins :| ins in Invoked(tx) && ProgramOf(AllKeys(tx), ins) == Some(id);
      ProgramOfExactly(AllKeys(tx), ins);
      InvokedExactly(tx, ins);
    }
  }

  lemma StaticProgramIsListed(tx: Tx, k: nat, program: string)
    requires k < |tx.instructions| && ProgramOf(tx.accountKeys, tx.instructions[k]) == Some(program) && program != ""
    ensures program in Inspect(tx).programIds
  {
    hide ProgramOf, Programs;
    MoreKeysSameProgram(tx.accountKeys, tx.loadedWritable + tx.loadedReadonly, tx.instructions[k], program);
    assert tx.accountKeys + (tx.loadedWritable + tx.loadedReadonly) == AllKeys(tx);
    assert tx.instructions[k] in Invoked(tx);
    ProgramsMembers(AllKeys(tx), Invoked(tx), program);
  }

  /**
   A transaction gets a System class exactly when only System and ComputeBudget run, at any depth, and
   some outer instruction is a System transfer with no undecodable System instruction before it; the
   recorded error decides which of the two.
   */
  lemma SystemClassExactly(tx: Tx)
    ensures (ClassifyTransaction(tx, Inspect(tx)).Ok? &&
             ClassifyTransaction(tx, Inspect(tx)).value.transactionClass in
               {SYSTEM_TRANSFER, SUPPORTED_DETERMINISTIC_FAILURE}) <==>
      && RunsOnly(tx, {SYSTEM, COMPUTE_BUDGET})
      && exists k: nat :: k < |tx.instructions| && TransferAt(tx.accountKeys, tx.instructions, k)
    ensures ClassifyTransaction(tx, Inspect(tx)).Ok? ==>
      (ClassifyTransaction(tx, Inspect(tx)).value.transactionClass == SYSTEM_TRANSFER ==> tx.err.Null?) &&
      (ClassifyTransaction(tx, Inspect(tx)).value.transactionClass == SUPPORTED_DETERMINISTIC_FAILURE ==> !tx.err.Null?)
  {
    hide HasSystemTransfer, ClassicSpl, Programs, Invoked, ProgramOf, RunsOnly, BeginsTransfer, InstructionData;
    RunsOnlyMeans(tx, {SYSTEM, COMPUTE_BUDGET});
    SystemTransferFound(tx.accountKeys, tx.instructions);
    if k: nat :| k < |tx.instructions| && TransferAt(tx.accountKeys, tx.instructions, k) {
      StaticProgramIsListed(tx, k, SYSTEM);
    }
  }

  /** In particular a System class means a transfer, by program and by the bytes of its data. */
  lemma SystemClassSound(tx: Tx)
    requires ClassifyTransaction(tx, Inspect(tx)).Ok?
    requires ClassifyTransaction(tx, Inspect(tx)).value.transactionClass in
      {SYSTEM_TRANSFER, SUPPORTED_DETERMINISTIC_FAILURE}
    ensures RunsOnly(tx, {SYSTEM, COMPUTE_BUDGET})
    ensures exists ins :: ins in tx.instructions && ProgramOf(AllKeys(tx), ins) == Some(SYSTEM) && BeginsTransfer(ins)
    ensures ClassifyTransaction(tx, Inspect(tx)).value.transactionClass == SYSTEM_TRANSFER <==> tx.err.Null?
  {
    hide ClassifyTransaction, BeginsTransfer, ProgramOf, RunsOnly, InstructionData;
    SystemClassExactly(tx);
    var k: nat :| k < |tx.instructions| && TransferAt(tx.accountKeys, tx.instructions, k);
    var ins := tx.instructions[k];
    MoreKeysSameProgram(tx.accountKeys, tx.loadedWritable + tx.loadedReadonly, ins, SYSTEM);
    assert tx.accountKeys + (tx.loadedWritable + tx.loadedReadonly) == AllKeys(tx);
    assert ins in tx.instructions;
  }

  /** The accounts of the instruction a classified transfer was read from. */
  function TransferAccounts(d: SplDetails): seq<nat> {
    if d.mint.Some? then [d.source, d.mint.value, d.destination, d.authority]
      else [d.source, d.destination, d.authority]
  }

  /** The forms of a transfer: Transfer (3) with an amount, TransferChecked (12) with amount and decimals. */
  predicate IsTransferData(data: seq<Byte>, d: SplDetails) {
    if d.checked then d.mint.Some? && |data| == 10 && data[0] == 12 else d.mint.None? && |data| == 9 && data[0] == 3
  }

  lemma SplOfMeans(data: seq<Byte>, accounts: seq<nat>, metadata: Metadata)
    requires SplOf(data, accounts, metadata).Some?
    ensures var d := SplOf(data, accounts, metadata).value;
      var source, destination :=
        FindBalance(metadata.preTokenBalances, d.source), FindBalance(metadata.preTokenBalances, d.destination);
      && accounts == TransferAccounts(d) && IsTransferData(data, d)
      && source.Some? && destination.Some?
      && source.value.mint == destination.value.mint == d.mintAddress != WRAPPED_SOL_MINT
      && (d.checked ==> data[9] == source.value.decimals)
    ensures var d := SplOf(data, accounts, metadata).value;
      var source, authority :=
        FindBalance(metadata.preTokenBalances, d.source), FindRole(metadata.accountRoles, d.authority);
      && source.Some? && authority.Some? && authority.value.signer && source.value.owner == Some(authority.value.pubkey)
      && (d.checked ==>
            d.mint.Some? && FindRole(metadata.accountRoles, d.mint.value).Some? &&
            FindRole(metadata.accountRoles, d.mint.value).value.pubkey == d.mintAddress)
  {
  }

  lemma {:induction false} FindRoleAt(roles: seq<Role>, i: nat, offset: nat)
    requires forall k :: 0 <= k < |roles| ==> roles[k].index == offset + k
    ensures FindRole(roles, offset + i) == if i < |roles| then Some(roles[i]) else None
  {
    if roles != [] && i > 0 {
      FindRoleAt(roles[1..], i - 1, offset + 1);
    }
  }

  /**
   What is classified as an SPL transfer is one. Among the outer instructions there is one Token
   instruction under the static keys; it decodes to a Transfer or TransferChecked whose account list
   is the recorded details; its authority is a static key that signed, and owns the source; both
   ends hold one mint, not wrapped SOL; a checked transfer names that mint and its decimals.
   */
  lemma SplTransferIsAuthorised(tx: Tx)
    requires ClassifyTransaction(tx, Inspect(tx)).Ok?
    requires ClassifyTransaction(tx, Inspect(tx)).value.transactionClass == CLASSIC_SPL_TRANSFER
    ensures ClassifyTransaction(tx, Inspect(tx)).value.details.Some?
    ensures var d := ClassifyTransaction(tx, Inspect(tx)).value.details.value;
      var tokens := TokenInstructions(tx.accountKeys, tx.instructions);
      var source, destination :=
        FindBalance(tx.preTokenBalances, d.source), FindBalance(tx.preTokenBalances, d.destination);
      && |tokens| == 1 && tokens[0].accounts == Some(TransferAccounts(d))
      && InstructionData(tokens[0]).Ok? && IsTransferData(InstructionData(tokens[0]).value, d)
      && source.Some? && destination.Some?
      && source.value.mint == destination.value.mint == d.mintAddress != WRAPPED_SOL_MINT
      && d.authority < |tx.accountKeys| && d.authority < tx.header.requiredSignatures
      && source.value.owner == Some(tx.accountKeys[d.authority])
      && (d.checked ==> InstructionData(tokens[0]).value[9] == source.value.decimals)
      && (d.checked ==> d.mint.value < |AllKeys(tx)| && AllKeys(tx)[d.mint.value] == d.mintAddress)
  {
    hide HasSystemTransfer, InstructionData, SplOf, Programs, TokenInstructions;
    var metadata := Inspect(tx);
    var d := ClassifyTransaction(tx, metadata).value.details.value;
    var token := TokenInstructions(tx.accountKeys, tx.instructions)[0];
    SplOfMeans(InstructionData(token).value, if token.accounts.Some? then token.accounts.value else [], metadata);
    FindRoleAt(metadata.accountRoles, d.authority, 0);
    if d.checked { FindRoleAt(metadata.accountRoles, d.mint.value, 0); }
  }

  /** The one Token instruction under the static keys. */
  predicate OnlyToken(tx: Tx, k: nat)
    requires k < |tx.instructions|
  {
    forall j ::
      0 <= j < |tx.instructions| ==> (ProgramOf(tx.accountKeys, tx.instructions[j]) == Some(TOKEN) <==> j == k)
  }

  lemma {:induction false} NoTokens(keys: seq<string>, instructions: seq<Instruction>)
    ensures TokenInstructions(keys, instructions) == [] <==>
      forall j :: 0 <= j < |instructions| ==> ProgramOf(keys, instructions[j]) != Some(TOKEN)
  {
    hide ProgramOf;
    if instructions != [] {
      NoTokens(keys, instructions[1..]);
      assert forall j :: 0 < j < |instructions| ==> instructions[j] == instructions[1..][j - 1];
    }
  }

  lemma {:induction false} OneToken(keys: seq<string>, instructions: seq<Instruction>) returns (k: nat)
    requires |TokenInstructions(keys, instructions)| == 1
    ensures k < |instructions| && TokenInstructions(keys, instructions) == [instructions[k]]
    ensures forall j :: 0 <= j < |instructions| ==> (ProgramOf(keys, instructions[j]) == Some(TOKEN) <==> j == k)
  {
    hide ProgramOf;
    var rest := instructions[1..];
    assert forall j :: 0 < j < |instructions| ==> instructions[j] == rest[j - 1];
    if ProgramOf(keys, instructions[0]) == Some(TOKEN) {
      NoTokens(keys, rest);
      k := 0;
    } else {
      var m := OneToken(keys, rest);
      k := m + 1;
    }
  }

  lemma {:induction false} OneTokenCounts(keys: seq<string>, instructions: seq<Instruction>, k: nat)
    requires k < |instructions|
    requires forall j :: 0 <= j < |instructions| ==> (ProgramOf(keys, instructions[j]) == Some(TOKEN) <==> j == k)
    ensures TokenInstructions(keys, instructions) == [instructions[k]]
  {
    hide ProgramOf;
    var rest := instructions[1..];
    assert forall j :: 0 < j < |instructions| ==> instructions[j] == rest[j - 1];
    if k == 0 {
      NoTokens(keys, rest);
    } else {
      OneTokenCounts(keys, rest, k - 1);
    }
  }

  /** Both ends have balances before and after, an owner and one mint, not wrapped SOL; a signer owns the source. */
  predicate BalancesFit(metadata: Metadata, d: SplDetails) {
    var source, destination :=
      FindBalance(metadata.preTokenBalances, d.source), FindBalance(metadata.preTokenBalances, d.destination);
    var authority := FindRole(metadata.accountRoles, d.authority);
    && source.Some? && destination.Some?
    && FindBalance(metadata.postTokenBalances, d.source).Some? &&
       FindBalance(metadata.postTokenBalances, d.destination).Some?
    && source.value.mint == destination.value.mint == d.mintAddress != WRAPPED_SOL_MINT
    && destination.value.owner.Some? && destination.value.owner.value != ""
    && authority.Some? && authority.value.signer && authority.value.pubkey != ""
    && source.value.owner == Some(authority.value.pubkey)
  }

  /** A checked transfer names the mint account and its decimals. */
  predicate CheckedFits(data: seq<Byte>, metadata: Metadata, d: SplDetails) {
    d.checked ==>
      d.mint.Some? && |data| == 10 &&
      FindRole(metadata.accountRoles, d.mint.value).Some? &&
      FindRole(metadata.accountRoles, d.mint.value).value.pubkey == d.mintAddress &&
      FindBalance(metadata.preTokenBalances, d.source).Some? &&
      data[9] == FindBalance(metadata.preTokenBalances, d.source).value.decimals
  }

  lemma SplOfExactly(data: seq<Byte>, accounts: seq<nat>, metadata: Metadata, d: SplDetails)
    ensures SplOf(data, accounts, metadata) == Some(d) <==>
      accounts == TransferAccounts(d) && IsTransferData(data, d) && BalancesFit(metadata, d) &&
        CheckedFits(data, metadata, d)
  {
    hide FindBalance, FindRole;
  }

  /** Everything an SPL transfer of these details is. */
  ghost predicate SplTransfer(tx: Tx, d: SplDetails) {
    && tx.err.Null? && tx.lookups == [] && Groups(tx) == [] && RunsOnly(tx, {TOKEN, COMPUTE_BUDGET})
    && BalancesFit(Inspect(tx), d)
    && exists k: nat :: k < |tx.instructions| && OnlyToken(tx, k) && TransfersBy(tx, k, d)
  }

  predicate TransfersBy(tx: Tx, k: nat, d: SplDetails)
    requires k < |tx.instructions|
  {
    var ins := tx.instructions[k];
    && ins.accounts == Some(TransferAccounts(d))
    && InstructionData(ins).Ok? && IsTransferData(InstructionData(ins).value, d)
    && CheckedFits(InstructionData(ins).value, Inspect(tx), d)
  }

  /** The SPL class is given to exactly these transactions, with exactly these details. */
  lemma SplClassExactly(tx: Tx, d: SplDetails)
    ensures ClassifyTransaction(tx, Inspect(tx)) == Ok(Classification(CLASSIC_SPL_TRANSFER, Some(d))) <==>
      SplTransfer(tx, d)
  {
    hide HasSystemTransfer, InstructionData, SplOf, Programs, TokenInstructions, ProgramOf, Invoked, IsTransferData;
    hide BalancesFit, CheckedFits, RunsOnly, FindBalance, FindRole;
    var metadata := Inspect(tx);
    RunsOnlyMeans(tx, {TOKEN, COMPUTE_BUDGET});
    if ClassifyTransaction(tx, metadata) == Ok(Classification(CLASSIC_SPL_TRANSFER, Some(d))) {
      var k := OneToken(tx.accountKeys, tx.instructions);
      var ins := tx.instructions[k];
      SplOfExactly(InstructionData(ins).value, if ins.accounts.Some? then ins.accounts.value else [], metadata, d);
      assert OnlyToken(tx, k) && TransfersBy(tx, k, d);
    }
    if SplTransfer(tx, d) {
      var k: nat :| k < |tx.instructions| && OnlyToken(tx, k) && TransfersBy(tx, k, d);
      OneTokenCounts(tx.accountKeys, tx.instructions, k);
      SplOfExactly(InstructionData(tx.instructions[k]).value, TransferAccounts(d), metadata, d);
      StaticProgramIsListed(tx, k, TOKEN);
      assert |TOKEN| == 43 && |SYSTEM| == 32 && |COMPUTE_BUDGET| == 43 && COMPUTE_BUDGET[0] == 'C' && TOKEN[0] == 'T';
      NoSystemRuns(tx);
    }
  }

  /** Where only Token and ComputeBudget run, no instruction is the System program's. */
  lemma NoSystemRuns(tx: Tx)
    requires RunsOnly(tx, {TOKEN, COMPUTE_BUDGET})
    ensures HasSystemTransfer(tx.accountKeys, tx.instructions) == Ok(false)
  {
    hide ProgramOf, Programs, Invoked, HasSystemTransfer;
    RunsOnlyMeans(tx, {TOKEN, COMPUTE_BUDGET});
    assert |TOKEN| == 43 && |SYSTEM| == 32 && |COMPUTE_BUDGET| == 43;
    forall k: nat | k < |tx.instructions| ensures ProgramOf(tx.accountKeys, tx.instructions[k]) != Some(SYSTEM) {
      if ProgramOf(tx.accountKeys, tx.instructions[k]) == Some(SYSTEM) { StaticProgramIsListed(tx, k, SYSTEM); }
    }
    NoSystem(tx.accountKeys, tx.instructions);
  }

  lemma {:induction false} NoSystem(keys: seq<string>, instructions: seq<Instruction>)
    requires forall k :: 0 <= k < |instructions| ==> ProgramOf(keys, instructions[k]) != Some(SYSTEM)
    ensures HasSystemTransfer(keys, instructions) == Ok(false)
  {
    hide ProgramOf;
    if instructions != [] { NoSystem(keys, instructions[1..]); }
  }

  function CountToken(keys: seq<string>, instructions: seq<Instruction>): nat {
    |TokenInstructions(keys, instructions)|
  }

  /**
   The SPL class means no inner instructions and nothing but Token and ComputeBudget. Exactly one
   Token instruction runs if and only if every one that runs is a Token instruction under the static
   keys already; so it is in every response that loads addresses only through lookup tables.
   */
  lemma SplClassSound(tx: Tx)
    requires ClassifyTransaction(tx, Inspect(tx)).Ok?
    requires ClassifyTransaction(tx, Inspect(tx)).value.transactionClass == CLASSIC_SPL_TRANSFER
    ensures RunsOnly(tx, {TOKEN, COMPUTE_BUDGET})
    ensures tx.err.Null? && tx.lookups == [] && Groups(tx) == []
    ensures CountToken(AllKeys(tx), tx.instructions) == 1 <==>
      forall ins ::
        ins in tx.instructions && ProgramOf(AllKeys(tx), ins) == Some(TOKEN) ==>
          ProgramOf(tx.accountKeys, ins) == Some(TOKEN)
    ensures (tx.lookups == [] ==> tx.loadedWritable == [] && tx.loadedReadonly == []) ==>
      CountToken(AllKeys(tx), tx.instructions) == 1
  {
    hide HasSystemTransfer, Programs, Invoked, ProgramOf, SplOf, InstructionData, TokenInstructions;
    ProgramsBound(tx, {TOKEN, COMPUTE_BUDGET});
    MoreKeys(tx.accountKeys, tx.loadedWritable + tx.loadedReadonly, tx.instructions);
    assert tx.accountKeys + (tx.loadedWritable + tx.loadedReadonly) == AllKeys(tx);
    assert tx.accountKeys + [] == tx.accountKeys;
  }

  /** Further keys add exactly the Token instructions that resolve through them. */
  lemma {:induction false} MoreKeys(keys: seq<string>, more: seq<string>, instructions: seq<Instruction>)
    ensures CountToken(keys + more, instructions) >= CountToken(keys, instructions)
    ensures CountToken(keys + more, instructions) == CountToken(keys, instructions) <==>
      forall ins ::
        ins in instructions && ProgramOf(keys + more, ins) == Some(TOKEN) ==> ProgramOf(keys, ins) == Some(TOKEN)
  {
    if instructions != [] {
      MoreKeys(keys, more, instructions[1..]);
      var ins := instructions[0];
      assert ProgramOf(keys, ins) == Some(TOKEN) ==> ProgramOf(keys + more, ins) == Some(TOKEN);
      assert forall i :: i in instructions <==> i == ins || i in instructions[1..];
    }
  }

  // ---------------------------------------------------------------------------------------
  // When classification throws

  /** An undecodable System instruction, with no System transfer before it. */
  predicate StopsAt(keys: seq<string>, instructions: seq<Instruction>, k: nat, c: char)
    requires k < |instructions|
  {
    && ProgramOf(keys, instructions[k]) == Some(SYSTEM) && InstructionData(instructions[k]) == Err(c)
    && forall j :: 0 <= j < k ==> ProgramOf(keys, instructions[j]) == Some(SYSTEM) ==>
         InstructionData(instructions[j]).Ok? && !BeginsTransfer(instructions[j])
  }

  lemma SystemTransferStops(keys: seq<string>, ins: Instruction, c: char)
    ensures IsSystemTransfer(keys, ins) == Err(c) <==>
      ProgramOf(keys, ins) == Some(SYSTEM) && InstructionData(ins) == Err(c)
    ensures IsSystemTransfer(keys, ins) == Ok(false) <==>
      (ProgramOf(keys, ins) == Some(SYSTEM) ==> InstructionData(ins).Ok? && !BeginsTransfer(ins))
  {
    hide ProgramOf, BeginsTransfer, InstructionData;
    SystemTransferMeans(keys, ins);
  }

  lemma {:induction false} SystemScanThrows(keys: seq<string>, instructions: seq<Instruction>, c: char)
    ensures HasSystemTransfer(keys, instructions) == Err(c) <==>
      exists k: nat :: k < |instructions| && StopsAt(keys, instructions, k, c)
  {
    hide IsSystemTransfer, BeginsTransfer, ProgramOf, InstructionData;
    if instructions != [] {
      var rest := instructions[1..];
      SystemTransferStops(keys, instructions[0], c);
      SystemScanThrows(keys, rest, c);
      assert forall j :: 0 < j < |instructions| ==> instructions[j] == rest[j - 1];
      if HasSystemTransfer(keys, instructions) == Err(c) {
        if IsSystemTransfer(keys, instructions[0]) == Err(c) {
          assert StopsAt(keys, instructions, 0, c);
        } else {
          var k: nat :| k < |rest| && StopsAt(keys, rest, k, c);
          StopsLater(keys, instructions, k, c);
        }
      }
      if k: nat :| k < |instructions| && StopsAt(keys, instructions, k, c) {
        if k > 0 { StopsLater(keys, instructions, k - 1, c); }
      }
    }
  }

  lemma StopsLater(keys: seq<string>, instructions: seq<Instruction>, k: nat, c: char)
    requires k + 1 < |instructions|
    ensures StopsAt(keys, instructions, k + 1, c) <==>
      IsSystemTransfer(keys, instructions[0]) == Ok(false) && StopsAt(keys, instructions[1..], k, c)
  {
    hide IsSystemTransfer, BeginsTransfer, ProgramOf, InstructionData;
    var rest := instructions[1..];
    SystemTransferStops(keys, instructions[0], c);
    assert forall j :: 0 <= j <= k ==> rest[j] == instructions[j + 1];
    if IsSystemTransfer(keys, instructions[0]) == Ok(false) && StopsAt(keys, rest, k, c) {
      forall j | 0 <= j < k + 1 && ProgramOf(keys, instructions[j]) == Some(SYSTEM)
        ensures InstructionData(instructions[j]).Ok? && !BeginsTransfer(instructions[j])
      {
        if j > 0 { assert rest[j - 1] == instructions[j]; }
      }
    }
  }

  /** The lone Token instruction of what could have been an SPL transfer does not decode. */
  predicate TokenStopsAt(tx: Tx, k: nat, c: char)
    requires k < |tx.instructions|
  {
    OnlyToken(tx, k) && InstructionData(tx.instructions[k]) == Err(c)
  }

  /**
   Classification throws exactly on instruction data that is no base-58 text, where it gets to it: a
   System instruction before any System transfer, or the lone Token instruction of a successful
   transaction that runs nothing but Token and ComputeBudget.
   */
  lemma ClassifyThrows(tx: Tx, c: char)
    ensures ClassifyTransaction(tx, Inspect(tx)) == Err(c) <==>
      || (exists k: nat :: k < |tx.instructions| && StopsAt(tx.accountKeys, tx.instructions, k, c))
      || (tx.err.Null? && tx.lookups == [] && Groups(tx) == [] && RunsOnly(tx, {TOKEN, COMPUTE_BUDGET}) &&
          exists k: nat :: k < |tx.instructions| && TokenStopsAt(tx, k, c))
  {
    hide HasSystemTransfer, InstructionData, SplOf, Programs, TokenInstructions, ProgramOf, Invoked, RunsOnly, StopsAt;
    var metadata := Inspect(tx);
    RunsOnlyMeans(tx, {TOKEN, COMPUTE_BUDGET});
    SystemScanThrows(tx.accountKeys, tx.instructions, c);
    if ClassicSpl(tx, metadata) == Err(c) {
      var k := OneToken(tx.accountKeys, tx.instructions);
      assert TokenStopsAt(tx, k, c);
    }
    if tx.err.Null? && tx.lookups == [] && Groups(tx) == [] && RunsOnly(tx, {TOKEN, COMPUTE_BUDGET}) {
      NoSystemRuns(tx);
      if k: nat :| k < |tx.instructions| && TokenStopsAt(tx, k, c) {
        OneTokenCounts(tx.accountKeys, tx.instructions, k);
      }
    }
  }

  /** The details of a transfer go with the SPL class, and with no other. */
  lemma DetailsExactly(tx: Tx, metadata: Metadata)
    ensures ClassifyTransaction(tx, metadata).Ok? ==>
      (ClassifyTransaction(tx, metadata).value.details.Some? <==>
       ClassifyTransaction(tx, metadata).value.transactionClass == CLASSIC_SPL_TRANSFER)
  {
    hide HasSystemTransfer, ClassicSpl;
  }
}
