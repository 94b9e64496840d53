/** The records that pass between capture, bundling and comparison. */
module Records {
  import opened JsText

  /** One entry of `accountRoles`, src/inspect.js:38-58. */
  datatype Role = Role(index: nat, pubkey: string, source: string, signer: bool, writable: bool)

  /** An entry of `preTokenBalances` or `postTokenBalances`; the owner may be missing. */
  datatype TokenBalance = TokenBalance(accountIndex: nat, mint: string, owner: Option<string>, amount: string,
    decimals: nat)

  /** A JSON field: missing, null, or a value. `===` is equality of fields, `== null` is `!Is?`. */
  datatype Field<+T> = Undefined | Nil | Is(value: T)

  /** Program addresses of src/constants.js:5-16. */
  const SYSTEM := "11111111111111111111111111111111"
  const TOKEN := "TokenkegQfeZyiNwAJbNbGKPFXCWuBvf9Ss623VQ5DA"
  const TOKEN_2022 := "TokenzQdBNbLqP5VEhdkAS6EPFLC1PHnBqCXEpPxuEb"
  const ASSOCIATED_TOKEN := "ATokenGPvbdGVxr1b2hvZbsiqW5xWH25efTNsLJA8knL"
  const COMPUTE_BUDGET := "ComputeBudget111111111111111111111111111111"
  const ADDRESS_LOOKUP_TABLE := "AddressLookupTab1e1111111111111111111111111"
  const WRAPPED_SOL_MINT := "So11111111111111111111111111111111111111112"

  /** `list.find(balance => balance.accountIndex === index)` */
  function FindBalance(balances: seq<TokenBalance>, index: nat): (r: Option<TokenBalance>)
    ensures r.Some? ==> r.value in balances && r.value.accountIndex == index
    ensures r.None? ==> forall b :: b in balances ==> b.accountIndex != index
  {
    if balances == [] then None
    else if balances[0].accountIndex == index then Some(balances[0])
    else FindBalance(balances[1..], index)
  }

  function FindRole(roles: seq<Role>, index: nat): (r: Option<Role>)
    ensures r.Some? ==> r.value in roles && r.value.index == index
    ensures r.None? ==> forall role :: role in roles ==> role.index != index
  {
    if roles == [] then None
    else if roles[0].index == index then Some(roles[0])
    else FindRole(roles[1..], index)
  }

  /** `find` answers with the first match. */
  lemma {:induction false} FindsFirstBalance(balances: seq<TokenBalance>, i: nat)
    requires i < |balances| && forall j :: 0 <= j < i ==> balances[j].accountIndex != balances[i].accountIndex
    ensures FindBalance(balances, balances[i].accountIndex) == Some(balances[i])
  {
    if i > 0 { FindsFirstBalance(balances[1..], i - 1); }
  }

  lemma {:induction false} FindsFirstRole(roles: seq<Role>, i: nat)
    requires i < |roles| && forall j :: 0 <= j < i ==> roles[j].index != roles[i].index
    ensures FindRole(roles, roles[i].index) == Some(roles[i])
  {
    if i > 0 { FindsFirstRole(roles[1..], i - 1); }
  }
}
