/** `Evolver.Evolve` as the source writes it: only the opening and the deposit
    of an account have a rule, and the deposit rule returns a state with no
    accounts once its lookup succeeds. */
module Evolver {
  import opened Wrappers
  import opened BankAccounts

  /** The account an opening creates: no balance, created when the event occurred, not closed. */
  function OpenedAccount(id: Guid, occurredAt: Instant): BankAccount {
    BankAccount(id, 0, occurredAt, None)
  }

  function Evolve(event: Event, state: State): (r: Result<State, Error>)
    ensures r.Success? <==>
      event.AccountOpened? || (event.CashDesposited? && Unique(state.bankAccounts, event.accountId))
    ensures !event.AccountOpened? && !event.CashDesposited? ==> r == Failure(EventNotSupported(event))
  {
    match event
    case AccountOpened(accountId, occurredAt) =>
      Success(State(state.bankAccounts + [OpenedAccount(accountId, occurredAt)]))
    case CashDesposited(accountId, _, _) =>
      var account :- GetBankAccount(state, accountId);
      Success(EmptyState)
    case _ =>
      Failure(EventNotSupported(event))
  }

  /** An opening appends exactly one fresh account and leaves every earlier
      account where it was. */
  lemma EvolveAccountOpened(accountId: Guid, occurredAt: Instant, state: State)
    ensures var r := Evolve(AccountOpened(accountId, occurredAt), state);
      && r.Success?
      && |r.value.bankAccounts| == |state.bankAccounts| + 1
      && r.value.bankAccounts[..|state.bankAccounts|] == state.bankAccounts
      && r.value.bankAccounts[|state.bankAccounts|] == BankAccount(accountId, 0, occurredAt, None)
  {
  }

  /** A deposit fails as `Single` does unless exactly one account has the id,
      and otherwise yields a state with no accounts at all. */
  lemma EvolveCashDesposited(accountId: Guid, amount: Money, occurredAt: Instant, state: State)
    ensures var r := Evolve(CashDesposited(accountId, amount, occurredAt), state);
      && (r.Success? ==> r.value.bankAccounts == [])
      && (NoneAt(state.bankAccounts, accountId) <==> r == Failure(NoMatchingAccount(accountId)))
      && (SeveralAt(state.bankAccounts, accountId) <==> r == Failure(MoreThanOneMatchingAccount(accountId)))
  {
    GetBankAccountByPosition(state, accountId);
  }
}
