/** src/provenance.js: which pre-state each account gets, and what vouches for it. */
module Provenance {
  import opened JsText
  import opened Records
  import opened Transaction
  import Base58
  import Compare
  import Json
  import Numerals

  const RUNTIME_PROGRAMS: set<string> :=
    {SYSTEM, TOKEN, TOKEN_2022, ASSOCIATED_TOKEN, COMPUTE_BUDGET, ADDRESS_LOOKUP_TABLE}

  /** An account fixture; `data` is the bytes its base64 text stands for, lamports may be unrecorded. */
  datatype Account = Account(lamports: Option<int>, data: seq<Byte>, owner: string, executable: bool)

  /** An account as the node sees it today. */
  datatype Observation = Observation(owner: string, data: seq<Byte>, executable: bool)

  datatype Provenance = PROVEN | INFERRED | CURRENT_ONLY | UNKNOWN

  datatype Entry = Entry(
    role: Role, source: string, provenance: Provenance, relevant: bool, replayUse: bool, preState: Option<Account>)

  /** Why deriving throws. */
  datatype Failure = MissingBalance | BadAddress(c: char) | BadAmount

  // ---------------------------------------------------------------------------------------
  // The synthesised layouts, src/provenance.js:17-31

  /** Buffer.copy: what does not fit is dropped. */
  function Overlay(data: seq<Byte>, bytes: seq<Byte>, start: nat): (r: seq<Byte>)
    ensures |r| == |data|
  {
    seq(|data|, i requires 0 <= i < |data| => if start <= i < start + |bytes| then bytes[i - start] else data[i])
  }

  function LittleEndian(v: nat, n: nat): (bytes: seq<Byte>)
    ensures |bytes| == n
  {
    if n == 0 then [] else [v % 256] + LittleEndian(v / 256, n - 1)
  }

  const U64_LIMIT := 0x1_0000_0000_0000_0000

  function TokenData(mint: seq<Byte>, owner: seq<Byte>, amount: nat): seq<Byte> {
    var blank := Base58.Repeat(0, 165);
    Overlay(Overlay(Overlay(Overlay(blank, mint, 0), owner, 32), LittleEndian(amount, 8), 64), [1], 108)
  }

  function DigitOf(c: char): Option<nat> {
    if '0' <= c <= '9' then Some(c as int - '0' as int)
    else if 'a' <= c <= 'f' then Some(c as int - 'a' as int + 10)
    else if 'A' <= c <= 'F' then Some(c as int - 'A' as int + 10)
    else None
  }

  /** The digits after a prefix; at least one is needed. */
  function RadixValue(digits: string, radix: nat): Option<nat> {
    if digits == "" then None
    else
      var last := DigitOf(digits[|digits| - 1]);
      if last.None? || last.value >= radix then None
      else if |digits| == 1 then last
      else
        var before := RadixValue(digits[..|digits| - 1], radix);
        if before.None? then None else Some(before.value * radix + last.value)
  }

  /** The radix announced by `0x`, `0o` or `0b`. */
  function Prefixed(text: string): Option<nat> {
    if |text| < 2 || text[0] != '0' then None
    else if text[1] == 'x' || text[1] == 'X' then Some(16)
    else if text[1] == 'o' || text[1] == 'O' then Some(8)
    else if text[1] == 'b' || text[1] == 'B' then Some(2)
    else None
  }

  /** BigInt(text): blank text is zero, only decimals take a sign; None where it throws. */
  function ParseBigInt(text: string): Option<int> {
    var t := TrimEnd(TrimStart(text));
    if t == "" then Some(0)
    else if Prefixed(t).Some? then RadixValue(t[2..], Prefixed(t).value)
    else if t[0] == '+' then RadixValue(t[1..], 10)
    else if t[0] == '-' then
      var magnitude := RadixValue(t[1..], 10);
      var negated: Option<int> := if magnitude.None? then None else Some(0 - magnitude.value);
      negated
    else RadixValue(t, 10)
  }

  lemma {:induction false} DecimalIsRadix(n: nat)
    ensures RadixValue(Json.Decimal(n), 10) == Some(n)
  {
    var text := Json.Decimal(n);
    if n < 10 {
      assert DigitOf(text[0]) == Some(n);
    } else {
      DecimalIsRadix(n / 10);
      assert text[..|text| - 1] == Json.Decimal(n / 10) && text[|text| - 1] == Json.DigitChar(n % 10);
      assert DigitOf(Json.DigitChar(n % 10)) == Some(n % 10);
    }
  }

  /** A decimal text is read as what it says. */
  lemma DecimalParses(n: nat)
    ensures ParseBigInt(Json.Decimal(n)) == Some(n)
  {
    hide RadixValue, Json.Decimal, TrimEnd, TrimStart;
    DecimalIsRadix(n);
    var text := Json.Decimal(n);
    TrimKeeps(text);
    assert '0' <= text[0] <= '9';
    assert Prefixed(text).None? by { assert |text| >= 2 ==> '0' <= text[1] <= '9'; }
  }

  /** Digits of any radix up to 16 are read as a positional numeral, most significant digit first. */
  lemma {:induction false} RadixMeans(digits: string, values: seq<nat>, radix: nat)
    requires digits != "" && |values| == |digits| && 2 <= radix <= 16
    requires forall i :: 0 <= i < |digits| ==> DigitOf(digits[i]) == Some(values[i]) && values[i] < radix
    ensures RadixValue(digits, radix) == Some(Numerals.Value(values, radix))
  {
    hide DigitOf;
    var n := |digits| - 1;
    assert values == values[..n] + [values[n]];
    if n > 0 {
      RadixMeans(digits[..n], values[..n], radix);
    } else {
      assert values[..0] == [];
    }
  }

  /** A text with a character that is no digit of the radix is refused. */
  lemma {:induction false} RadixRefuses(digits: string, radix: nat, i: nat)
    requires i < |digits| && (DigitOf(digits[i]).None? || DigitOf(digits[i]).value >= radix)
    ensures RadixValue(digits, radix).None?
  {
    hide DigitOf;
    if i < |digits| - 1 { RadixRefuses(digits[..|digits| - 1], radix, i); }
  }

  /** The digits are 0 to 9, and a to f in either case. */
  lemma DigitsAre(d: nat)
    requires d < 16
    ensures DigitOf("0123456789abcdef"[d]) == Some(d) && DigitOf("0123456789ABCDEF"[d]) == Some(d)
    ensures forall c :: DigitOf(c) == Some(d) ==> c in {"0123456789abcdef"[d], "0123456789ABCDEF"[d]}
  {
  }

  /** The radix a prefix announces; none of them and a plus sign announce a decimal. */
  function RadixOf(prefix: string): nat {
    if prefix in {"0x", "0X"} then 16
    else if prefix in {"0o", "0O"} then 8
    else if prefix in {"0b", "0B"} then 2
    else 10
  }

  const PREFIXES: set<string> := {"0x", "0X", "0o", "0O", "0b", "0B", "", "+", "-"}

  /** What `BigInt` reads between white space: nothing, a prefixed numeral, a signed or a plain decimal. */
  lemma BigIntForms(before: string, prefix: string, digits: string, after: string)
    requires (forall c :: c in before ==> IsSpace(c)) && (forall c :: c in after ==> IsSpace(c))
    requires digits != "" && !IsSpace(digits[|digits| - 1]) && digits[0] !in {'+', '-'} && !IsSpace(digits[0])
    requires prefix in PREFIXES && (prefix == "" ==> Prefixed(digits).None?)
    ensures ParseBigInt(before) == Some(0)
    ensures var read := RadixValue(digits, RadixOf(prefix));
      ParseBigInt(before + prefix + digits + after) ==
        if read.None? then None else Some(if prefix == "-" then 0 - read.value else read.value)
  {
    hide RadixValue, TrimEnd, TrimStart, IsSpace, RadixOf, Prefixed;
    TrimAround(before, "", "");
    assert before + "" + "" == before;
    PrefixIsPrinted(prefix);
    TrimAround(before, prefix + digits, after);
    assert before + (prefix + digits) + after == before + prefix + digits + after;
    PrefixReads(before + prefix + digits + after, prefix, digits);
  }

  lemma PrefixReads(text: string, prefix: string, digits: string)
    requires prefix in PREFIXES && (prefix == "" ==> Prefixed(digits).None?)
    requires digits != "" && digits[0] !in {'+', '-'} && TrimEnd(TrimStart(text)) == prefix + digits
    ensures var read := RadixValue(digits, RadixOf(prefix));
      ParseBigInt(text) == if read.None? then None else Some(if prefix == "-" then 0 - read.value else read.value)
  {
    hide RadixValue, TrimEnd, TrimStart;
    var t := prefix + digits;
    assert t[|prefix|..] == digits;
    if |prefix| == 2 { assert t[0] == prefix[0] && t[1] == prefix[1]; }
    if prefix == "" { assert t == digits; }
    if |prefix| == 1 { assert t[0] == prefix[0]; }
  }

  lemma PrefixIsPrinted(p: string)
    requires p in PREFIXES
    ensures p != "" ==> !IsSpace(p[0])
  {
  }

  lemma TrimAround(before: string, text: string, after: string)
    requires (forall c :: c in before ==> IsSpace(c)) && (forall c :: c in after ==> IsSpace(c))
    requires text != "" ==> !IsSpace(text[0]) && !IsSpace(text[|text| - 1])
    ensures TrimEnd(TrimStart(before + text + after)) == text
  {
    hide IsSpace, TrimEnd, TrimStart;
    if text == "" {
      assert forall c :: c in before + after ==> c in before || c in after;
      TrimStartMeans(before + after, "");
      assert before + text + after == before + after + "";
      TrimEndMeans("", "");
      assert "" + "" == "";
    } else {
      TrimStartMeans(before, text + after);
      assert before + text + after == before + (text + after);
      TrimEndMeans(text, after);
    }
  }

  lemma TrimKeeps(text: string)
    requires text != "" && !IsSpace(text[0]) && !IsSpace(text[|text| - 1])
    ensures TrimEnd(TrimStart(text)) == text
  {
    hide IsSpace;
  }

  /** decodeBase58 of a missing owner is the empty buffer. */
  function OwnerBytes(owner: Option<string>): Result<seq<Byte>, char> {
    if owner.None? then Ok([]) else Base58.Decoded(owner.value)
  }

  function TokenAccountOf(balance: TokenBalance, lamports: Option<int>): Result<Account, Failure> {
    var mint, owner, amount := Base58.Decoded(balance.mint), OwnerBytes(balance.owner), ParseBigInt(balance.amount);
    if mint.Err? then Err(BadAddress(mint.error))
    else if owner.Err? then Err(BadAddress(owner.error))
    else if amount.None? || !(0 <= amount.value < U64_LIMIT) then Err(BadAmount)
    else Ok(Account(lamports, TokenData(mint.value, owner.value, amount.value), TOKEN, false))
  }

  method CopyInto(data: array<Byte>, bytes: seq<Byte>, start: nat)
    modifies data
    ensures data[..] == Overlay(old(data[..]), bytes, start)
  {
    var i := 0;
    while i < |bytes| && start + i < data.Length
      invariant i <= |bytes|
      invariant forall k :: 0 <= k < data.Length ==>
        data[k] == if start <= k < start + i then bytes[k - start] else old(data[k])
    {
      data[start + i] := bytes[i];
      i := i + 1;
    }
  }

  /** writeBigUInt64LE: eight bytes, least significant first. */
  method WriteU64LE(data: array<Byte>, value: nat, offset: nat)
    requires offset + 8 <= data.Length
    modifies data
    ensures data[..] == Overlay(old(data[..]), LittleEndian(value, 8), offset)
  {
    hide LittleEndian;
    var rest := value;
    ghost var done: seq<Byte> := [];
    for i := 0 to 8
      invariant |done| == i && LittleEndian(value, 8) == done + LittleEndian(rest, 8 - i)
      invariant forall k :: 0 <= k < data.Length ==>
        data[k] == if offset <= k < offset + i then done[k - offset] else old(data[k])
    {
      LittleEndianStep(rest, 8 - i);
      done := done + [rest % 256];
      data[offset + i] := rest % 256;
      rest := rest / 256;
    }
    assert LittleEndian(rest, 0) == [];
  }

  lemma LittleEndianStep(v: nat, n: nat)
    requires n > 0
    ensures LittleEndian(v, n) == [v % 256] + LittleEndian(v / 256, n - 1)
  {
  }

  method ClassicTokenAccount(balance: TokenBalance, lamports: Option<int>) returns (account: Result<Account, Failure>)
    ensures account == TokenAccountOf(balance, lamports)
  {
    var data := new Byte[165](_ => 0);
    assert data[..] == Base58.Repeat(0, 165);
    var mint := Base58.DecodeBase58(balance.mint);
    if mint.Err? { return Err(BadAddress(mint.error)); }
    CopyInto(data, mint.value, 0);
    var owner: Result<seq<Byte>, char> := Ok([]);
    if balance.owner.Some? { owner := Base58.DecodeBase58(balance.owner.value); }
    if owner.Err? { return Err(BadAddress(owner.error)); }
    CopyInto(data, owner.value, 32);
    var amount := ParseBigInt(balance.amount);
    if amount.None? || !(0 <= amount.value < U64_LIMIT) { return Err(BadAmount); }
    WriteU64LE(data, amount.value, 64);
    CopyInto(data, [1], 108);
    account := Ok(Account(lamports, data[..], TOKEN, false));
  }

  function MintAccountOf(decimals: nat, lamports: Option<int>): Account {
    Account(lamports, Overlay(Base58.Repeat(0, 82), [decimals % 256, 1], 44), TOKEN, false)
  }

  method ClassicMintAccount(decimals: nat, lamports: Option<int>) returns (account: Account)
    ensures account == MintAccountOf(decimals, lamports)
  {
    var data := new Byte[82](_ => 0);
    data[44] := decimals % 256;
    data[45] := 1;
    assert data[..] == Overlay(Base58.Repeat(0, 82), [decimals % 256, 1], 44);
    account := Account(lamports, data[..], TOKEN, false);
  }

  lemma {:induction false} LittleEndianValue(v: nat, n: nat)
    requires v < Numerals.Pow(256, n)
    ensures Numerals.ValueLE(LittleEndian(v, n), 256) == v
  {
    if n > 0 {
      LittleEndianValue(v / 256, n - 1);
      Numerals.ValueShift(LittleEndian(v, n), 256);
      assert LittleEndian(v, n)[1..] == LittleEndian(v / 256, n - 1);
    }
  }

  /**
   A synthesised token account reads back: the addresses under base 58, the amount under the
   comparator's own read, the initialised flag, and zero everywhere else.
   */
  lemma TokenAccountReadsBack(balance: TokenBalance, lamports: Option<int>, amount: nat)
    requires Base58.IsAddress(balance.mint)
    requires balance.owner.Some? && Base58.IsAddress(balance.owner.value)
    requires balance.amount == Json.Decimal(amount) && amount < U64_LIMIT
    ensures TokenAccountOf(balance, lamports).Ok?
    ensures var account := TokenAccountOf(balance, lamports).value;
      && account.lamports == lamports && account.owner == TOKEN && !account.executable
      && |account.data| == 165
      && Base58.Encoded(account.data[0..32]) == balance.mint
      && Base58.Encoded(account.data[32..64]) == balance.owner.value
      && Json.Decimal(Compare.ReadU64LE(account.data, 64)) == balance.amount
      && account.data[108] == 1
      && forall i :: 72 <= i < 165 && i != 108 ==> account.data[i] == 0
  {
    hide Base58.Decoded, Base58.Encoded, ParseBigInt;
    var mint, owner := Base58.Decoded(balance.mint).value, Base58.Decoded(balance.owner.value).value;
    Base58.EncodeDecode(balance.mint);
    Base58.EncodeDecode(balance.owner.value);
    DecimalParses(amount);
    var data := TokenData(mint, owner, amount);
    assert data[0..32] == mint;
    assert data[32..64] == owner;
    assert data[64..72] == LittleEndian(amount, 8);
    assert Numerals.Pow(256, 8) == U64_LIMIT;
    LittleEndianValue(amount, 8);
  }

  /** Every byte of the layout, whatever the lengths of mint and owner; later fields overwrite earlier ones. */
  lemma TokenDataAt(mint: seq<Byte>, owner: seq<Byte>, amount: nat, i: nat)
    requires i < 165
    ensures |TokenData(mint, owner, amount)| == 165
    ensures TokenData(mint, owner, amount)[i] ==
      if i == 108 then 1
      else if 64 <= i < 72 then LittleEndian(amount, 8)[i - 64]
      else if 32 <= i < 32 + |owner| then owner[i - 32]
      else if i < |mint| then mint[i]
      else 0
  {
    hide LittleEndian;
  }

  /** A token account can be made exactly of readable balances; the mint is looked at first, the amount last. */
  lemma TokenAccountFails(balance: TokenBalance, lamports: Option<int>)
    ensures TokenAccountOf(balance, lamports).Ok? <==>
      && Base58.Decoded(balance.mint).Ok?
      && (balance.owner.Some? ==> Base58.Decoded(balance.owner.value).Ok?)
      && exists amount: nat :: amount < U64_LIMIT && ParseBigInt(balance.amount) == Some(amount)
    ensures TokenAccountOf(balance, lamports) == Err(BadAmount) ==>
      Base58.Decoded(balance.mint).Ok? && (balance.owner.Some? ==> Base58.Decoded(balance.owner.value).Ok?)
    ensures forall c ::
      Base58.Decoded(balance.mint) == Err(c) ==> TokenAccountOf(balance, lamports) == Err(BadAddress(c))
    ensures TokenAccountOf(balance, lamports) != Err(MissingBalance)
  {
    hide ParseBigInt, Base58.Decoded, TokenData;
    var amount := ParseBigInt(balance.amount);
    if amount.Some? && 0 <= amount.value < U64_LIMIT {
      var n: nat := amount.value;
      assert ParseBigInt(balance.amount) == Some(n);
    }
  }

  /** A replay that leaves a synthesised account as it was passes the token check exactly for an unchanged amount. */
  lemma ComparatorReadsFixture(
    original: Compare.Original, accounts: seq<Compare.PostAccount>, post: TokenBalance, pre: TokenBalance, amount: nat)
    requires Base58.IsAddress(pre.mint) && pre.owner.Some? && Base58.IsAddress(pre.owner.value)
    requires pre.amount == Json.Decimal(amount) && amount < U64_LIMIT
    requires TokenAccountOf(pre, None).Ok?
    requires var pubkey := Compare.LastRole(original.accountRoles, post.accountIndex);
      pubkey.Some? && var last := Compare.LastAccount(accounts, pubkey.value);
      last.Some? && last.value.data == TokenAccountOf(pre, None).value.data
    ensures Compare.CheckToken(original, accounts, post).exact <==> post.amount == pre.amount
  {
    TokenAccountReadsBack(pre, None, amount);
  }

  // ---------------------------------------------------------------------------------------
  // deriveAccountProvenance, src/provenance.js:33-127

  function Snapshot(current: Observation, lamports: Option<int>): Account {
    Account(lamports, current.data, current.owner, current.executable)
  }

  function IsRuntimeProgram(role: Role, metadata: Metadata): bool {
    role.pubkey in metadata.programIds && role.pubkey in RUNTIME_PROGRAMS
  }

  function Derive(
    role: Role, current: Option<Observation>, metadata: Metadata, transactionClass: Class,
    details: Option<SplDetails>)
    : Result<Entry, Failure>
  {
    var lamports := Compare.At(metadata.preBalances, role.index);
    if IsRuntimeProgram(role, metadata) then Ok(Entry(role, "pinned_runtime", PROVEN, true, false, None))
    else if transactionClass == CLASSIC_SPL_TRANSFER && details.Some?
      then DeriveSpl(role, current, metadata, details.value, lamports)
    else Ok(DeriveGeneral(role, current, lamports))
  }

  function DeriveSpl(role: Role, current: Option<Observation>, metadata: Metadata, d: SplDetails, lamports: Option<int>)
    : Result<Entry, Failure>
  {
    if role.index == d.source || role.index == d.destination then
      var balance := FindBalance(metadata.preTokenBalances, role.index);
      if balance.None? then Err(MissingBalance)
      else
        match TokenAccountOf(balance.value, lamports)
        case Err(f) => Err(f)
        case Ok(account) => Ok(Entry(role, "inferred_from_transaction", INFERRED, true, true, Some(account)))
    else if d.mint == Some(role.index) then
      var source := FindBalance(metadata.preTokenBalances, d.source);
      if source.None? then Err(MissingBalance)
      else Ok(Entry(role, "inferred_from_transaction", INFERRED, true, true,
        Some(MintAccountOf(source.value.decimals, lamports))))
    else if role.index == d.authority && lamports == Some(0) && current.None? then
      Ok(Entry(role, "transaction_metadata", PROVEN, true, false, None))
    else Ok(DeriveGeneral(role, current, lamports))
  }

  function DeriveGeneral(role: Role, current: Option<Observation>, lamports: Option<int>): Entry {
    if current.Some? && current.value.owner == SYSTEM && current.value.data == [] then
      Entry(role, "transaction_metadata", PROVEN, true, true, Some(Snapshot(current.value, lamports)))
    else if current.None? && lamports == Some(0) && !role.writable then
      Entry(role, "transaction_metadata", PROVEN, true, false, None)
    else if current.None? then
      Entry(role, "unavailable", UNKNOWN, true, false, None)
    else
      Entry(role, "current_rpc", CURRENT_ONLY, true, false, Some(Snapshot(current.value, lamports)))
  }

  /** The accounts whose state an SPL transfer itself gives away. */
  predicate SplFixture(role: Role, transactionClass: Class, details: Option<SplDetails>) {
    transactionClass == CLASSIC_SPL_TRANSFER && details.Some? &&
    (role.index == details.value.source || role.index == details.value.destination ||
      details.value.mint == Some(role.index))
  }

  /** The authority of an SPL transfer that holds nothing and is not there. */
  predicate IdleAuthority(
    role: Role, current: Option<Observation>, metadata: Metadata, transactionClass: Class, details: Option<SplDetails>)
  {
    transactionClass == CLASSIC_SPL_TRANSFER && details.Some? && role.index == details.value.authority &&
    Compare.At(metadata.preBalances, role.index) == Some(0) && current.None?
  }

  predicate EmptySystem(current: Option<Observation>) {
    current.Some? && current.value.owner == SYSTEM && current.value.data == []
  }

  /**
   Which provenance an account gets, for every account and every class: INFERRED for what the transfer
   gives away, UNKNOWN for what is absent and could have held something, CURRENT_ONLY for what is there
   and is more than an empty System account, and PROVEN for the rest.
   */
  lemma ProvenanceExactly(
    role: Role, current: Option<Observation>, metadata: Metadata, transactionClass: Class, details: Option<SplDetails>)
    requires Derive(role, current, metadata, transactionClass, details).Ok?
    ensures var e := Derive(role, current, metadata, transactionClass, details).value;
      var lamports := Compare.At(metadata.preBalances, role.index);
      var runtime, fixture := IsRuntimeProgram(role, metadata), SplFixture(role, transactionClass, details);
      var idle := IdleAuthority(role, current, metadata, transactionClass, details);
      && (e.provenance == INFERRED <==> !runtime && fixture)
      && (e.provenance == UNKNOWN <==>
          !runtime && !fixture && current.None? && !idle && !(lamports == Some(0) && !role.writable))
      && (e.provenance == CURRENT_ONLY <==> !runtime && !fixture && current.Some? && !EmptySystem(current))
      && (e.replayUse <==> !runtime && (fixture || EmptySystem(current)))
      && (e.preState.Some? <==> e.replayUse || e.provenance == CURRENT_ONLY)
      && e.relevant && e.role == role
    ensures var e := Derive(role, current, metadata, transactionClass, details).value;
      var lamports := Compare.At(metadata.preBalances, role.index);
      e.preState.Some? && !SplFixture(role, transactionClass, details) ==>
        current.Some? &&
        e.preState.value == Account(lamports, current.value.data, current.value.owner, current.value.executable)
  {
    hide TokenAccountOf, MintAccountOf, FindBalance, IsRuntimeProgram;
  }

  /** The source named beside a provenance. */
  lemma SourceNames(
    role: Role, current: Option<Observation>, metadata: Metadata, transactionClass: Class, details: Option<SplDetails>)
    requires Derive(role, current, metadata, transactionClass, details).Ok?
    ensures var e := Derive(role, current, metadata, transactionClass, details).value;
      match e.provenance
      case INFERRED => e.source == "inferred_from_transaction"
      case UNKNOWN => e.source == "unavailable"
      case CURRENT_ONLY => e.source == "current_rpc"
      case PROVEN => e.source == if IsRuntimeProgram(role, metadata) then "pinned_runtime" else "transaction_metadata"
  {
    hide TokenAccountOf, MintAccountOf, FindBalance, IsRuntimeProgram;
  }

  /** The fixtures of an SPL transfer are made from the balances of their own account, the mint's from the source's. */
  lemma SplFixturesExactly(role: Role, current: Option<Observation>, metadata: Metadata, d: SplDetails)
    requires Derive(role, current, metadata, CLASSIC_SPL_TRANSFER, Some(d)).Ok? && !IsRuntimeProgram(role, metadata)
    ensures role.index == d.source || role.index == d.destination ==>
      var balance := FindBalance(metadata.preTokenBalances, role.index);
      && balance.Some? && TokenAccountOf(balance.value, Compare.At(metadata.preBalances, role.index)).Ok?
      && Derive(role, current, metadata, CLASSIC_SPL_TRANSFER, Some(d)).value.preState ==
         Some(TokenAccountOf(balance.value, Compare.At(metadata.preBalances, role.index)).value)
    ensures d.mint == Some(role.index) && role.index != d.source && role.index != d.destination ==>
      var source := FindBalance(metadata.preTokenBalances, d.source);
      && source.Some?
      && Derive(role, current, metadata, CLASSIC_SPL_TRANSFER, Some(d)).value.preState ==
         Some(MintAccountOf(source.value.decimals, Compare.At(metadata.preBalances, role.index)))
  {
    hide TokenAccountOf, MintAccountOf, FindBalance, IsRuntimeProgram;
  }

  /** Everything of a fixture but the executable flag. */
  function Contents(account: Account): (Option<int>, seq<Byte>, string) {
    (account.lamports, account.data, account.owner)
  }

  /**
   Two captures of one transaction that saw different accounts cannot disagree on the contents of
   a fixture both mark for replay, and its lamports are the recorded pre-balance.
   */
  lemma ObservationCannotShapeFixture(
    role: Role, current: Option<Observation>, current': Option<Observation>,
    metadata: Metadata, transactionClass: Class, details: Option<SplDetails>)
    requires var e := Derive(role, current, metadata, transactionClass, details); e.Ok? && e.value.replayUse
    requires var e := Derive(role, current', metadata, transactionClass, details); e.Ok? && e.value.replayUse
    ensures var e := Derive(role, current, metadata, transactionClass, details).value;
      var e' := Derive(role, current', metadata, transactionClass, details).value;
      && e.preState.Some? && e'.preState.Some?
      && Contents(e.preState.value) == Contents(e'.preState.value)
      && e.preState.value.lamports == Compare.At(metadata.preBalances, role.index)
  {
    hide Base58.Decoded, TokenData;
  }

  /** The flag is the one thing an observation can still change. */
  lemma ExecutableFlagIsObserved(role: Role, metadata: Metadata)
    requires !IsRuntimeProgram(role, metadata)
    ensures var e :=
      executable => Derive(role, Some(Observation(SYSTEM, [], executable)), metadata, SYSTEM_TRANSFER, None);
      e(true).Ok? && e(false).Ok? && e(true).value.replayUse && e(false).value.replayUse &&
      e(true).value.preState != e(false).value.preState
  {
  }

  // ---------------------------------------------------------------------------------------
  // Totality after classification

  lemma SplDetailsFound(tx: Tx, metadata: Metadata)
    requires ClassifyTransaction(tx, metadata).Ok?
    requires ClassifyTransaction(tx, metadata).value.transactionClass == CLASSIC_SPL_TRANSFER
    ensures ClassifyTransaction(tx, metadata).value.details.Some?
    ensures var d := ClassifyTransaction(tx, metadata).value.details.value;
      && FindBalance(metadata.preTokenBalances, d.source).Some?
      && FindBalance(metadata.preTokenBalances, d.destination).Some?
      && (d.mint.Some? <==> d.checked)
  {
    hide HasSystemTransfer, TokenInstructions, InstructionData;
  }

  /** The mint fixture of a checked transfer carries the decimals its instruction insists on, and is otherwise blank. */
  lemma MintFixtureMatchesInstruction(
    data: seq<Byte>, accounts: seq<nat>, role: Role, current: Option<Observation>, metadata: Metadata)
    requires SplOf(data, accounts, metadata).Some? && SplOf(data, accounts, metadata).value.mint == Some(role.index)
    requires var d := SplOf(data, accounts, metadata).value; role.index != d.source && role.index != d.destination
    requires !IsRuntimeProgram(role, metadata)
    ensures |data| == 10
    ensures var e := Derive(role, current, metadata, CLASSIC_SPL_TRANSFER, SplOf(data, accounts, metadata));
      && e.Ok? && e.value.replayUse && e.value.preState.Some?
      && var account := e.value.preState.value;
         account.owner == TOKEN && |account.data| == 82 && account.data[44] == data[9] && account.data[45] == 1 &&
         forall i :: 0 <= i < 82 && i != 44 && i != 45 ==> account.data[i] == 0
  {
    hide SplOf;
    SplOfMeans(data, accounts, metadata);
  }

  /** The balances of a transfer whose fields can be laid out. */
  predicate Readable(balance: TokenBalance) {
    Base58.Decoded(balance.mint).Ok? && OwnerBytes(balance.owner).Ok? &&
    ParseBigInt(balance.amount).Some? && 0 <= ParseBigInt(balance.amount).value < U64_LIMIT
  }

  predicate ReadableAt(metadata: Metadata, index: nat) {
    var balance := FindBalance(metadata.preTokenBalances, index);
    balance.Some? && Readable(balance.value)
  }

  /** Some account at this place is not supplied by the runtime. */
  predicate NeedsFixture(metadata: Metadata, index: nat) {
    exists r :: r in metadata.accountRoles && r.index == index && !IsRuntimeProgram(r, metadata)
  }

  /**
   After classification as an SPL transfer no balance lookup fails, in either instruction form, and
   every account can be derived exactly when the source and destination balances are readable.
   */
  lemma SplDerivationSucceeds(tx: Tx, metadata: Metadata, observed: string -> Option<Observation>)
    requires ClassifyTransaction(tx, metadata).Ok?
    requires ClassifyTransaction(tx, metadata).value.transactionClass == CLASSIC_SPL_TRANSFER
    ensures var c := ClassifyTransaction(tx, metadata).value;
      && c.details.Some?
      && (forall r :: r in metadata.accountRoles ==>
            Derive(r, observed(r.pubkey), metadata, c.transactionClass, c.details) != Err(MissingBalance))
      && ((forall r :: r in metadata.accountRoles ==>
             Derive(r, observed(r.pubkey), metadata, c.transactionClass, c.details).Ok?) <==>
          (NeedsFixture(metadata, c.details.value.source) ==> ReadableAt(metadata, c.details.value.source)) &&
          (NeedsFixture(metadata, c.details.value.destination) ==> ReadableAt(metadata, c.details.value.destination)))
  {
    hide ClassifyTransaction, Base58.Decoded, TokenData;
    SplDetailsFound(tx, metadata);
    var c := ClassifyTransaction(tx, metadata).value;
    var d := c.details.value;
    forall r | r in metadata.accountRoles
      ensures Derive(r, observed(r.pubkey), metadata, c.transactionClass, c.details) != Err(MissingBalance)
      ensures Derive(r, observed(r.pubkey), metadata, c.transactionClass, c.details).Ok? <==>
        (IsRuntimeProgram(r, metadata) || (r.index != d.source && r.index != d.destination) ||
          ReadableAt(metadata, r.index))
    {
    }
  }

  // ---------------------------------------------------------------------------------------
  // summarizeProvenance, src/provenance.js:129-133

  function Count(entries: seq<Entry>, p: Provenance): nat {
    if entries == [] then 0
    else Count(entries[..|entries| - 1], p) + (if entries[|entries| - 1].provenance == p then 1 else 0)
  }

  /** The places of the entries with a provenance. */
  ghost function Places(entries: seq<Entry>, p: Provenance): set<nat> {
    set i: nat | i < |entries| && entries[i].provenance == p
  }

  /** A counter is the number of entries with its provenance. */
  lemma {:induction false} CountIsCardinality(entries: seq<Entry>, p: Provenance)
    ensures Count(entries, p) == |Places(entries, p)|
  {
    if entries != [] {
      var n: nat := |entries| - 1;
      CountIsCardinality(entries[..n], p);
      assert Places(entries, p) ==
        if entries[n].provenance == p then Places(entries[..n], p) + {n} else Places(entries[..n], p);
      assert n !in Places(entries[..n], p);
    } else {
      assert Places(entries, p) == {};
    }
  }

  lemma SummaryCounts(entries: seq<Entry>)
    ensures var s := Summarize(entries);
      && s.proven == |Places(entries, PROVEN)|
      && s.inferred == |Places(entries, INFERRED)|
      && s.currentOnly == |Places(entries, CURRENT_ONLY)|
      && s.unknown == |Places(entries, UNKNOWN)|
  {
    hide Count, Places;
    CountIsCardinality(entries, PROVEN);
    CountIsCardinality(entries, INFERRED);
    CountIsCardinality(entries, CURRENT_ONLY);
    CountIsCardinality(entries, UNKNOWN);
  }

  datatype Summary = Summary(proven: nat, inferred: nat, currentOnly: nat, unknown: nat)

  function Summarize(entries: seq<Entry>): Summary {
    Summary(Count(entries, PROVEN), Count(entries, INFERRED), Count(entries, CURRENT_ONLY), Count(entries, UNKNOWN))
  }

  method SummarizeProvenance(entries: seq<Entry>) returns (summary: Summary)
    ensures summary == Summarize(entries)
    ensures summary.proven + summary.inferred + summary.currentOnly + summary.unknown == |entries|
  {
    var proven, inferred, currentOnly, unknown := 0, 0, 0, 0;
    for i := 0 to |entries|
      invariant Summary(proven, inferred, currentOnly, unknown) == Summarize(entries[..i])
      invariant proven + inferred + currentOnly + unknown == i
    {
      assert entries[..i + 1][..i] == entries[..i];
      match entries[i].provenance {
        case PROVEN => proven := proven + 1;
        case INFERRED => inferred := inferred + 1;
        case CURRENT_ONLY => currentOnly := currentOnly + 1;
        case UNKNOWN => unknown := unknown + 1;
      }
    }
    assert entries[..|entries|] == entries;
    summary := Summary(proven, inferred, currentOnly, unknown);
  }

  lemma {:induction false} CountZero(entries: seq<Entry>, p: Provenance)
    ensures Count(entries, p) == 0 <==> forall e :: e in entries ==> e.provenance != p
  {
    if entries != [] {
      var init := entries[..|entries| - 1];
      CountZero(init, p);
      assert forall e :: e in entries <==> e in init || e == entries[|entries| - 1];
    }
  }
}
