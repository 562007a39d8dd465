/** The evolution rules the code evidently intends, kept apart from `Evolver.Evolve`
    (the code as written). A deposit credits the account it names instead of
    discarding every account; the withdrawal, transfer and closing rules the
    code lacks are filled in from the events the decider emits: a withdrawal
    debits the account, a transfer record changes nothing (its withdrawal and
    deposit already moved the money), and a closing stamps the account's
    closing instant. Every rule that names one account first looks it up as
    `Single` does, and no balance, amount or closed-account guard is added. */
module IntendedEvolver {
  import opened Wrappers
  import opened BankAccounts
  import Evolver

  /** The accounts with `delta` added to the balance of each one with id `id`. */
  function Adjust(accounts: seq<BankAccount>, id: Guid, delta: Money): (r: seq<BankAccount>)
    ensures |r| == |accounts|
    ensures forall k :: 0 <= k < |r| ==>
      r[k] == if accounts[k].id == id then accounts[k].(amount := accounts[k].amount + delta) else accounts[k]
  {
    if accounts == [] then []
    else
      var head := if accounts[0].id == id then accounts[0].(amount := accounts[0].amount + delta) else accounts[0];
      [head] + Adjust(accounts[1..], id, delta)
  }

  /** The accounts with each one with id `id` closed at `at`. */
  function MarkClosed(accounts: seq<BankAccount>, id: Guid, at: Instant): (r: seq<BankAccount>)
    ensures |r| == |accounts|
    ensures forall k :: 0 <= k < |r| ==>
      r[k] == if accounts[k].id == id then accounts[k].(closedAt := Some(at)) else accounts[k]
  {
    if accounts == [] then []
    else
      var head := if accounts[0].id == id then accounts[0].(closedAt := Some(at)) else accounts[0];
      [head] + MarkClosed(accounts[1..], id, at)
  }

  function Evolve(event: Event, state: State): (r: Result<State, Error>)
    ensures event.AccountOpened? || event.CashTransfered? ==> r.Success?
    ensures event.CashDesposited? || event.CashWithdrawn? || event.AccountClosed? ==>
      (r.Success? <==> Unique(state.bankAccounts, event.accountId))
    ensures event.OtherEvent? ==> r == Failure(EventNotSupported(event))
  {
    var accounts := state.bankAccounts;
    match event
    case AccountOpened(accountId, occurredAt) =>
      Success(State(accounts + [Evolver.OpenedAccount(accountId, occurredAt)]))
    case CashDesposited(accountId, amount, _) =>
      var account :- GetBankAccount(state, accountId);
      Success(State(Adjust(accounts, accountId, amount)))
    case CashWithdrawn(accountId, amount, _) =>
      var account :- GetBankAccount(state, accountId);
      Success(State(Adjust(accounts, accountId, -amount)))
    case CashTransfered(_, _, _, _) =>
      Success(state)
    case AccountClosed(accountId, occurredAt) =>
      var account :- GetBankAccount(state, accountId);
      Success(State(MarkClosed(accounts, accountId, occurredAt)))
    case OtherEvent(_, _) =>
      Failure(EventNotSupported(event))
  }

  /** Apart from an opening, which appends, no event adds, removes, reorders
      or re-identifies an account, or changes when it was created. */
  lemma EvolveKeepsAccounts(event: Event, state: State)
    requires !event.AccountOpened? && Evolve(event, state).Success?
    ensures var after := Evolve(event, state).value.bankAccounts;
      && |after| == |state.bankAccounts|
      && forall k :: 0 <= k < |state.bankAccounts| ==>
           after[k].id == state.bankAccounts[k].id && after[k].createdAt == state.bankAccounts[k].createdAt
  {
  }

  /** A deposit onto the one account with that id credits it. */
  lemma EvolveCashDesposited(accountId: Guid, amount: Money, occurredAt: Instant, state: State)
    requires Unique(state.bankAccounts, accountId)
    ensures Evolve(CashDesposited(accountId, amount, occurredAt), state)
      == Success(State(Adjust(state.bankAccounts, accountId, amount)))
  {
  }

  /** A withdrawal from the one account with that id debits it. */
  lemma EvolveCashWithdrawn(accountId: Guid, amount: Money, occurredAt: Instant, state: State)
    requires Unique(state.bankAccounts, accountId)
    ensures Evolve(CashWithdrawn(accountId, amount, occurredAt), state)
      == Success(State(Adjust(state.bankAccounts, accountId, -amount)))
  {
  }

  /** A transfer record changes nothing: its withdrawal and deposit events
      have already moved the money. */
  lemma EvolveCashTransfered(fromId: Guid, toId: Guid, amount: Money, occurredAt: Instant, state: State)
    ensures Evolve(CashTransfered(fromId, toId, amount, occurredAt), state) == Success(state)
  {
  }

  /** Closing the one account with that id stamps its closing instant. */
  lemma EvolveAccountClosed(accountId: Guid, occurredAt: Instant, state: State)
    requires Unique(state.bankAccounts, accountId)
    ensures Evolve(AccountClosed(accountId, occurredAt), state)
      == Success(State(MarkClosed(state.bankAccounts, accountId, occurredAt)))
  {
  }

  /** Adjusting balances keeps an account the only one with its id. */
  lemma AdjustKeepsUnique(accounts: seq<BankAccount>, id: Guid, delta: Money, other: Guid)
    requires Unique(accounts, other)
    ensures Unique(Adjust(accounts, id, delta), other)
  {
    MatchingSameIds(accounts, Adjust(accounts, id, delta), other);
  }

  /** The sum of the balances. */
  function Total(accounts: seq<BankAccount>): Money {
    if accounts == [] then 0 else accounts[0].amount + Total(accounts[1..])
  }

  /** Adjusting one id changes the total by `delta` for every account with that id. */
  lemma {:induction false} TotalAdjust(accounts: seq<BankAccount>, id: Guid, delta: Money)
    ensures Total(Adjust(accounts, id, delta)) == Total(accounts) + delta * |Matching(accounts, id)|
  {
    if accounts != [] {
      var r := Adjust(accounts, id, delta);
      assert r[1..] == Adjust(accounts[1..], id, delta);
      TotalAdjust(accounts[1..], id, delta);
    }
  }

  /** Adjusting the one account with that id moves the total by exactly `delta`. */
  lemma TotalAdjustUnique(accounts: seq<BankAccount>, id: Guid, delta: Money)
    requires Unique(accounts, id)
    ensures Total(Adjust(accounts, id, delta)) == Total(accounts) + delta
  {
    TotalAdjust(accounts, id, delta);
  }

  /** Closing an account leaves every balance, and so the total, as it was. */
  lemma {:induction false} TotalMarkClosed(accounts: seq<BankAccount>, id: Guid, at: Instant)
    ensures Total(MarkClosed(accounts, id, at)) == Total(accounts)
  {
    if accounts != [] {
      var r := MarkClosed(accounts, id, at);
      assert r[1..] == MarkClosed(accounts[1..], id, at);
      TotalMarkClosed(accounts[1..], id, at);
    }
  }

  /** A deposit (or, with a negative delta, a withdrawal) onto the one account
      with that id moves the total by exactly the amount. */
  lemma DepositWithdrawMoveTotal(accountId: Guid, amount: Money, occurredAt: Instant, state: State)
    requires Unique(state.bankAccounts, accountId)
    ensures var r := Evolve(CashDesposited(accountId, amount, occurredAt), state);
      r.Success? && Total(r.value.bankAccounts) == Total(state.bankAccounts) + amount
    ensures var r := Evolve(CashWithdrawn(accountId, amount, occurredAt), state);
      r.Success? && Total(r.value.bankAccounts) == Total(state.bankAccounts) - amount
  {
    TotalAdjustUnique(state.bankAccounts, accountId, amount);
    TotalAdjustUnique(state.bankAccounts, accountId, -amount);
  }

  /** Sweeping the one account with that id and then closing it: its balance
      is zero, its closing instant is set, every other account is as it
      was, and the total drops by the swept balance. */
  lemma SweepAndClose(accounts: seq<BankAccount>, id: Guid, at: Instant, balance: Money, after: seq<BankAccount>)
    requires Unique(accounts, id)
    requires balance == GetBankAccount(State(accounts), id).value.amount
    requires after == MarkClosed(Adjust(accounts, id, -balance), id, at)
    ensures |after| == |accounts|
    ensures forall k :: 0 <= k < |accounts| ==>
      after[k] == if accounts[k].id == id then accounts[k].(amount := 0, closedAt := Some(at)) else accounts[k]
    ensures forall k :: 0 <= k < |accounts| && accounts[k].id == id ==> Total(after) == Total(accounts) - accounts[k].amount
  {
    var swept := Adjust(accounts, id, -balance);
    HeldBalance(accounts, id);
    forall k | 0 <= k < |accounts|
      ensures after[k] == if accounts[k].id == id then accounts[k].(amount := 0, closedAt := Some(at)) else accounts[k]
    {
      assert after[k] == if swept[k].id == id then swept[k].(closedAt := Some(at)) else swept[k];
    }
    TotalAdjustUnique(accounts, id, -balance);
    TotalMarkClosed(swept, id, at);
  }

  /** The balance `Single` reports is the balance at every position holding the id. */
  lemma HeldBalance(accounts: seq<BankAccount>, id: Guid)
    requires Unique(accounts, id)
    ensures forall k :: 0 <= k < |accounts| && accounts[k].id == id ==>
      accounts[k].amount == GetBankAccount(State(accounts), id).value.amount
  {
    MatchingSingle(accounts, id);
  }
}
