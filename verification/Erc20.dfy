/**
 The ERC-20 example contract: storage maps for balances and allowances that are read and written in
 order, 256-bit wrapping addition, and an event log.
 */
module Erc20 {
  import opened Prelude

  const U256_LIMIT := 0x1_0000_0000_0000_0000_0000_0000_0000_0000_0000_0000_0000_0000_0000_0000_0000_0000

  type U256 = x: int | 0 <= x < U256_LIMIT

  type Address = nat

  const ZERO_ADDRESS: Address := 0

  datatype Log =
    | Transfer(from: Address, to: Address, value: U256)
    | Approval(owner: Address, spender: Address, value: U256)

  type Balances = map<Address, U256>

  type Allowances = map<(Address, Address), U256>

  datatype Ledger = Ledger(supply: U256, balances: Balances, allowances: Allowances, logs: seq<Log>)

  datatype Failure = InsufficientBalance | InsufficientAllowance

  // ---------------------------------------------------------------- specification

  // Unwritten entries read as zero.
  function Get(m: Balances, a: Address): U256 {
    if a in m then m[a] else 0
  }

  function Allowance(m: Allowances, owner: Address, spender: Address): U256 {
    if (owner, spender) in m then m[(owner, spender)] else 0
  }

  function WrappingAdd(a: U256, b: U256): U256 {
    if a + b < U256_LIMIT then a + b else a + b - U256_LIMIT
  }

  // Debit, then read the receiver's balance afresh and credit it.
  function Move(m: Balances, from: Address, to: Address, value: U256): Balances
    requires value <= Get(m, from)
  {
    var debited := m[from := Get(m, from) - value];
    debited[to := WrappingAdd(Get(debited, to), value)]
  }

  function Deployed(deployer: Address, supply: U256): Ledger {
    Ledger(supply, map[deployer := supply], map[], [Transfer(ZERO_ADDRESS, deployer, supply)])
  }

  datatype Call =
    | TransferCall(caller: Address, to: Address, value: U256)
    | ApproveCall(caller: Address, spender: Address, value: U256)
    | TransferFromCall(caller: Address, from: Address, to: Address, value: U256)

  function Rejection(l: Ledger, c: Call): Option<Failure> {
    match c
    case TransferCall(caller, _, value) =>
      if Get(l.balances, caller) < value then Some(InsufficientBalance) else None
    case ApproveCall(_, _, _) => None
    case TransferFromCall(caller, from, _, value) =>
      if Allowance(l.allowances, from, caller) < value then Some(InsufficientAllowance)
      else if Get(l.balances, from) < value then Some(InsufficientBalance)
      else None
  }

  function Accepted(l: Ledger, c: Call): Ledger
    requires Rejection(l, c).None?
  {
    match c
    case TransferCall(caller, to, value) =>
      l.(balances := Move(l.balances, caller, to, value), logs := l.logs + [Transfer(caller, to, value)])
    case ApproveCall(caller, spender, value) =>
      l.(allowances := l.allowances[(caller, spender) := value], logs := l.logs + [Approval(caller, spender, value)])
    case TransferFromCall(caller, from, to, value) =>
      l.(allowances := l.allowances[(from, caller) := Allowance(l.allowances, from, caller) - value],
         balances := Move(l.balances, from, to, value),
         logs := l.logs + [Transfer(from, to, value)])
  }

  // A rejected call panics and leaves no trace.
  function After(l: Ledger, c: Call): Ledger {
    if Rejection(l, c).None? then Accepted(l, c) else l
  }

  function Run(l: Ledger, calls: seq<Call>): Ledger
    decreases |calls|
  {
    if calls == [] then l else After(Run(l, calls[..|calls| - 1]), calls[|calls| - 1])
  }

  // ---------------------------------------------------------------- the contract

  class Token {
    var name: string
    var symbol: string
    var totalSupply: U256
    var balances: Balances
    var allowances: Allowances
    var logs: seq<Log>

    ghost function Value(): Ledger
      reads this
    {
      Ledger(totalSupply, balances, allowances, logs)
    }

    constructor (deployer: Address, name: string, symbol: string, initialSupply: U256)
      ensures this.name == name && this.symbol == symbol
      ensures Value() == Deployed(deployer, initialSupply)
    {
      this.name := name;
      this.symbol := symbol;
      totalSupply := initialSupply;
      balances := map[deployer := initialSupply];
      allowances := map[];
      logs := [Transfer(ZERO_ADDRESS, deployer, initialSupply)];
    }

    method BalanceOf(account: Address) returns (balance: U256)
      ensures balance == Get(balances, account)
    {
      balance := if account in balances then balances[account] else 0;
    }

    method AllowanceOf(owner: Address, spender: Address) returns (allowance: U256)
      ensures allowance == Allowance(allowances, owner, spender)
    {
      allowance := if (owner, spender) in allowances then allowances[(owner, spender)] else 0;
    }

    method DoTransfer(caller: Address, to: Address, value: U256) returns (r: Result<U256, Failure>)
      modifies this`balances, this`logs
      ensures Value() == After(old(Value()), TransferCall(caller, to, value))
      ensures r == match Rejection(old(Value()), TransferCall(caller, to, value))
                   case None => Ok(1)
                   case Some(failure) => Err(failure)
    {
      var fromBalance := BalanceOf(caller);
      if fromBalance < value {
        return Err(InsufficientBalance);
      }
      balances := balances[caller := fromBalance - value];
      var toBalance := BalanceOf(to);
      balances := balances[to := WrappingAdd(toBalance, value)];
      logs := logs + [Transfer(caller, to, value)];
      r := Ok(1);
    }

    method DoApprove(caller: Address, spender: Address, value: U256) returns (r: U256)
      modifies this`allowances, this`logs
      ensures Value() == After(old(Value()), ApproveCall(caller, spender, value)) && r == 1
    {
      allowances := allowances[(caller, spender) := value];
      logs := logs + [Approval(caller, spender, value)];
      r := 1;
    }

    method DoTransferFrom(caller: Address, from: Address, to: Address, value: U256)
      returns (r: Result<U256, Failure>)
      modifies this`balances, this`allowances, this`logs
      ensures Value() == After(old(Value()), TransferFromCall(caller, from, to, value))
      ensures r == match Rejection(old(Value()), TransferFromCall(caller, from, to, value))
                   case None => Ok(1)
                   case Some(failure) => Err(failure)
    {
      var currentAllowance := AllowanceOf(from, caller);
      if currentAllowance < value {
        return Err(InsufficientAllowance);
      }
      var fromBalance := BalanceOf(from);
      if fromBalance < value {
        return Err(InsufficientBalance);
      }
      allowances := allowances[(from, caller) := currentAllowance - value];
      balances := balances[from := fromBalance - value];
      var toBalance := BalanceOf(to);
      balances := balances[to := WrappingAdd(toBalance, value)];
      logs := logs + [Transfer(from, to, value)];
      r := Ok(1);
    }
  }

  // ---------------------------------------------------------------- sums of balances

  ghost function Total(m: Balances): nat {
    if m == map[] then 0
    else
      var a :| a in m;
      m[a] + Total(m - {a})
  }

  lemma {:induction false} TotalWithout(m: Balances, a: Address)
    requires a in m
    ensures Total(m) == m[a] + Total(m - {a})
    decreases |m|
  {
    var b :| b in m && Total(m) == m[b] + Total(m - {b});
    if a == b {
    } else {
      TotalWithout(m - {b}, a);
      TotalWithout(m - {a}, b);
      assert m - {a} - {b} == m - {b} - {a};
    }
  }

  lemma TotalUpdate(m: Balances, a: Address, v: U256)
    ensures Total(m[a := v]) == Total(m) - Get(m, a) + v
    ensures Get(m, a) <= Total(m)
  {
    TotalWithout(m[a := v], a);
    assert m[a := v] - {a} == m - {a};
    if a in m {
      TotalWithout(m, a);
    } else {
      assert m - {a} == m;
    }
  }

  /** With conserved balances, crediting the receiver cannot wrap, even in a self-transfer. */
  lemma CreditDoesNotWrap(m: Balances, from: Address, to: Address, value: U256)
    requires Total(m) < U256_LIMIT && value <= Get(m, from)
    ensures Get(m[from := Get(m, from) - value], to) + value <= Total(m)
  {
    var debited := m[from := Get(m, from) - value];
    TotalUpdate(m, from, Get(m, from) - value);
    TotalUpdate(debited, to, 0);
  }

  lemma MoveConserves(m: Balances, from: Address, to: Address, value: U256)
    requires Total(m) < U256_LIMIT && value <= Get(m, from)
    ensures Total(Move(m, from, to, value)) == Total(m)
  {
    var debited := m[from := Get(m, from) - value];
    CreditDoesNotWrap(m, from, to, value);
    TotalUpdate(m, from, Get(m, from) - value);
    TotalUpdate(debited, to, Get(debited, to) + value);
  }

  // ---------------------------------------------------------------- what a call does to every account

  function Change(condition: bool, value: U256): int {
    if condition then value else 0
  }

  lemma MoveMoves(m: Balances, from: Address, to: Address, value: U256, a: Address)
    requires Total(m) < U256_LIMIT && value <= Get(m, from)
    ensures Get(Move(m, from, to, value), a) == Get(m, a) - Change(a == from, value) + Change(a == to, value)
  {
    CreditDoesNotWrap(m, from, to, value);
  }

  /**
   A transfer is accepted exactly when the caller's balance covers it. It then takes the value from the
   caller and gives it to the receiver, touches no other account and no allowance, and is logged under
   its own names; otherwise nothing changes.
   */
  lemma TransferMoves(l: Ledger, caller: Address, to: Address, value: U256, a: Address)
    requires Total(l.balances) < U256_LIMIT
    ensures var c := TransferCall(caller, to, value);
            var l' := After(l, c);
            if value <= Get(l.balances, caller) then
              && Rejection(l, c) == None
              && Get(l'.balances, a) == Get(l.balances, a) - Change(a == caller, value) + Change(a == to, value)
              && l'.supply == l.supply && l'.allowances == l.allowances
              && l'.logs == l.logs + [Transfer(caller, to, value)]
            else Rejection(l, c) == Some(InsufficientBalance) && l' == l
  {
    if value <= Get(l.balances, caller) { MoveMoves(l.balances, caller, to, value, a); }
  }

  /**
   A transfer on behalf of another is accepted exactly when allowance and balance both cover it, the
   allowance being looked at first. It moves the value from the owner to the receiver, lowers the one
   allowance it uses by it, and is logged under the owner's name; otherwise nothing changes.
   */
  lemma TransferFromMoves(l: Ledger, caller: Address, from: Address, to: Address, value: U256,
                          a: Address, owner: Address, spender: Address)
    requires Total(l.balances) < U256_LIMIT
    ensures var c := TransferFromCall(caller, from, to, value);
            var l' := After(l, c);
            if value > Allowance(l.allowances, from, caller) then
              Rejection(l, c) == Some(InsufficientAllowance) && l' == l
            else if value > Get(l.balances, from) then
              Rejection(l, c) == Some(InsufficientBalance) && l' == l
            else
              && Rejection(l, c) == None
              && Get(l'.balances, a) == Get(l.balances, a) - Change(a == from, value) + Change(a == to, value)
              && Allowance(l'.allowances, owner, spender)
                 == Allowance(l.allowances, owner, spender) - Change(owner == from && spender == caller, value)
              && l'.supply == l.supply && l'.logs == l.logs + [Transfer(from, to, value)]
  {
    if value <= Get(l.balances, from) { MoveMoves(l.balances, from, to, value, a); }
  }

  /** An approval sets the one allowance of caller and spender, and is logged under their names. */
  lemma ApproveSets(l: Ledger, caller: Address, spender: Address, value: U256, owner: Address, other: Address)
    ensures var c := ApproveCall(caller, spender, value);
            var l' := After(l, c);
            && Rejection(l, c) == None
            && Allowance(l'.allowances, owner, other)
               == (if owner == caller && other == spender then value else Allowance(l.allowances, owner, other))
            && l'.supply == l.supply && l'.balances == l.balances
            && l'.logs == l.logs + [Approval(caller, spender, value)]
  {}

  /** The deployer starts with the whole supply, everybody else with nothing. */
  lemma DeployerHoldsTheSupply(deployer: Address, supply: U256, a: Address, owner: Address, spender: Address)
    ensures var l := Deployed(deployer, supply);
            && l.supply == supply && Get(l.balances, a) == Change(a == deployer, supply)
            && Allowance(l.allowances, owner, spender) == 0
            && l.logs == [Transfer(0, deployer, supply)]
  {}

  // ---------------------------------------------------------------- conservation

  /** Over every sequence of calls the sum of all balances stays the supply minted at deployment. */
  lemma {:induction false} SupplyIsConserved(deployer: Address, supply: U256, calls: seq<Call>)
    ensures var l := Run(Deployed(deployer, supply), calls);
            Total(l.balances) == l.supply == supply
    decreases |calls|
  {
    if calls == [] {
      TotalUpdate(map[], deployer, supply);
      assert map[][deployer := supply] == map[deployer := supply];
    } else {
      var init, c := calls[..|calls| - 1], calls[|calls| - 1];
      var l := Run(Deployed(deployer, supply), init);
      SupplyIsConserved(deployer, supply, init);
      if Rejection(l, c).None? {
        match c
        case TransferCall(caller, to, value) => MoveConserves(l.balances, caller, to, value);
        case ApproveCall(_, _, _) =>
        case TransferFromCall(_, from, to, value) => MoveConserves(l.balances, from, to, value);
      }
    }
  }

  /** ... so the wrapping addition of every accepted transfer is plain addition. */
  lemma ReachableCreditsAreExact(deployer: Address, supply: U256, calls: seq<Call>,
                                 from: Address, to: Address, value: U256)
    requires value <= Get(Run(Deployed(deployer, supply), calls).balances, from)
    ensures var m := Run(Deployed(deployer, supply), calls).balances;
            var debited := m[from := Get(m, from) - value];
            WrappingAdd(Get(debited, to), value) == Get(debited, to) + value <= supply
  {
    SupplyIsConserved(deployer, supply, calls);
    CreditDoesNotWrap(Run(Deployed(deployer, supply), calls).balances, from, to, value);
  }

  // ---------------------------------------------------------------- the log tells the balances

  function GetInt(m: map<Address, int>, a: Address): int {
    if a in m then m[a] else 0
  }

  /** An indexer: the first entry is the mint, every later Transfer a debit and then a credit. */
  function Replay(logs: seq<Log>): map<Address, int> {
    if logs == [] then map[]
    else
      var m, last := Replay(logs[..|logs| - 1]), logs[|logs| - 1];
      if last.Approval? then m
      else if |logs| == 1 then map[last.to := last.value]
      else
        var debited := m[last.from := GetInt(m, last.from) - last.value];
        debited[last.to := GetInt(debited, last.to) + last.value]
  }

  ghost predicate Mirrors(m: map<Address, int>, b: Balances) {
    m.Keys == b.Keys && forall a :: a in b ==> m[a] == b[a]
  }

  lemma ReplayTransfer(logs: seq<Log>, b: Balances, from: Address, to: Address, value: U256)
    requires logs != [] && Mirrors(Replay(logs), b) && Total(b) < U256_LIMIT && value <= Get(b, from)
    ensures Mirrors(Replay(logs + [Transfer(from, to, value)]), Move(b, from, to, value))
  {
    var entry := Transfer(from, to, value);
    assert (logs + [entry])[..|logs|] == logs;
    CreditDoesNotWrap(b, from, to, value);
  }

  /** Replaying the log of any run reproduces every balance. */
  lemma {:induction false} LogReplaysToBalances(deployer: Address, supply: U256, calls: seq<Call>)
    ensures var l := Run(Deployed(deployer, supply), calls);
            l.logs != [] && Mirrors(Replay(l.logs), l.balances)
    decreases |calls|
  {
    if calls == [] {
    } else {
      var init, c := calls[..|calls| - 1], calls[|calls| - 1];
      var l := Run(Deployed(deployer, supply), init);
      LogReplaysToBalances(deployer, supply, init);
      SupplyIsConserved(deployer, supply, init);
      if Rejection(l, c).None? {
        match c
        case TransferCall(caller, to, value) => ReplayTransfer(l.logs, l.balances, caller, to, value);
        case ApproveCall(caller, spender, value) =>
          assert (l.logs + [Approval(caller, spender, value)])[..|l.logs|] == l.logs;
        case TransferFromCall(_, from, to, value) => ReplayTransfer(l.logs, l.balances, from, to, value);
      }
    }
  }

  // ---------------------------------------------------------------- allowances

  function LastApproved(calls: seq<Call>, owner: Address, spender: Address): U256 {
    if calls == [] then 0
    else
      var c := calls[|calls| - 1];
      if c.ApproveCall? && c.caller == owner && c.spender == spender then c.value
      else LastApproved(calls[..|calls| - 1], owner, spender)
  }

  // What `spender` has moved out of `owner`'s account since the last approval.
  function Spent(l: Ledger, calls: seq<Call>, owner: Address, spender: Address): nat
    decreases |calls|
  {
    if calls == [] then 0
    else
      var init, c := calls[..|calls| - 1], calls[|calls| - 1];
      if c.ApproveCall? && c.caller == owner && c.spender == spender then 0
      else if c.TransferFromCall? && c.caller == spender && c.from == owner && Rejection(Run(l, init), c).None?
      then Spent(l, init, owner, spender) + c.value
      else Spent(l, init, owner, spender)
  }

  /** The allowance left plus what was spent since the last approval is the approved amount. */
  lemma {:induction false} AllowanceAccounting(deployer: Address, supply: U256, calls: seq<Call>,
                                               owner: Address, spender: Address)
    ensures var l := Deployed(deployer, supply);
            Allowance(Run(l, calls).allowances, owner, spender) + Spent(l, calls, owner, spender)
            == LastApproved(calls, owner, spender)
    decreases |calls|
  {
    if calls == [] {
    } else {
      AllowanceAccounting(deployer, supply, calls[..|calls| - 1], owner, spender);
    }
  }

  /** An account loses tokens only through its own transfers or a spender within its allowance. */
  lemma OnlyAuthorisedDebits(l: Ledger, c: Call, a: Address)
    requires Total(l.balances) < U256_LIMIT && Get(After(l, c).balances, a) < Get(l.balances, a)
    ensures || (c.TransferCall? && c.caller == a)
            || (c.TransferFromCall? && c.from == a && c.value <= Allowance(l.allowances, a, c.caller))
    ensures Get(l.balances, a) - Get(After(l, c).balances, a) == c.value
  {
    match c
    case TransferCall(caller, to, value) => CreditDoesNotWrap(l.balances, caller, to, value);
    case ApproveCall(_, _, _) =>
    case TransferFromCall(_, from, to, value) => CreditDoesNotWrap(l.balances, from, to, value);
  }
}
