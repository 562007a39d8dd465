/** `Decider.Decide`: what a command decides, as the ordered events it emits.
    The id generator and the clock are parameters: `freshId` is the value
    `Guid.NewGuid()` would return, `now` the instant the events are stamped with. */
module Decider {
  import opened Wrappers
  import opened BankAccounts

  /** The command kinds that have a decision rule. */
  predicate Handled(command: Command) {
    command.OpenBankAccount? || command.DepositCash? || command.WithdrawCash? ||
    command.TransferCash? || command.CloseBankAccount?
  }

  function Decide(command: Command, state: State, freshId: Guid, now: Instant): (r: Result<seq<Event>, Error>)
    ensures r.Success? <==>
      Handled(command) && (command.CloseBankAccount? ==> Unique(state.bankAccounts, command.accountId))
    ensures !Handled(command) ==> r == Failure(CommandNotSupported(command))
    ensures r.Success? ==> forall k :: 0 <= k < |r.value| ==> r.value[k].occurredAt == now
  {
    match command
    case OpenBankAccount(initialAmount) =>
      Success([AccountOpened(freshId, now), CashDesposited(freshId, initialAmount, now)])
    case DepositCash(accountId, amount) =>
      Success([CashDesposited(accountId, amount, now)])
    case WithdrawCash(accountId, amount) =>
      Success([CashWithdrawn(accountId, amount, now)])
    case TransferCash(fromAccountId, toAccountId, amount) =>
      Success([CashWithdrawn(fromAccountId, amount, now),
               CashDesposited(toAccountId, amount, now),
               CashTransfered(fromAccountId, toAccountId, amount, now)])
    case CloseBankAccount(accountId) =>
      var account :- GetBankAccount(state, accountId);
      Success([CashWithdrawn(accountId, account.amount, now), AccountClosed(accountId, now)])
    case _ =>
      Failure(CommandNotSupported(command))
  }

  /** Opening emits the opening and then the funding of one new account, both
      under the generated id, with the initial amount passed through unchecked. */
  lemma DecideOpenBankAccount(initialAmount: Money, state: State, freshId: Guid, now: Instant)
    ensures Decide(OpenBankAccount(initialAmount), state, freshId, now)
      == Success([AccountOpened(freshId, now), CashDesposited(freshId, initialAmount, now)])
  {
  }

  /** A deposit or a withdrawal emits exactly one event for the named account,
      whether or not that account exists and whatever its balance. */
  lemma DecideDepositWithdraw(accountId: Guid, amount: Money, state: State, freshId: Guid, now: Instant)
    ensures Decide(DepositCash(accountId, amount), state, freshId, now)
      == Success([CashDesposited(accountId, amount, now)])
    ensures Decide(WithdrawCash(accountId, amount), state, freshId, now)
      == Success([CashWithdrawn(accountId, amount, now)])
  {
  }

  /** A transfer is a withdrawal from the source, a deposit to the target and
      a transfer record, in that order. */
  lemma DecideTransferCash(fromId: Guid, toId: Guid, amount: Money, state: State, freshId: Guid, now: Instant)
    ensures Decide(TransferCash(fromId, toId, amount), state, freshId, now)
      == Success([CashWithdrawn(fromId, amount, now), CashDesposited(toId, amount, now),
                  CashTransfered(fromId, toId, amount, now)])
  {
  }

  /** Closing sweeps the balance of the one account with that id and then
      closes it; it fails as `Single` does when no account or several have it. */
  lemma DecideCloseBankAccount(accountId: Guid, state: State, freshId: Guid, now: Instant)
    ensures var r := Decide(CloseBankAccount(accountId), state, freshId, now);
      && (r.Success? <==> OnlyOneAt(state.bankAccounts, accountId))
      && (forall i :: 0 <= i < |state.bankAccounts| && state.bankAccounts[i].id == accountId && r.Success? ==>
            r.value == [CashWithdrawn(accountId, state.bankAccounts[i].amount, now), AccountClosed(accountId, now)])
      && (NoneAt(state.bankAccounts, accountId) <==> r == Failure(NoMatchingAccount(accountId)))
      && (SeveralAt(state.bankAccounts, accountId) <==> r == Failure(MoreThanOneMatchingAccount(accountId)))
  {
    GetBankAccountByPosition(state, accountId);
    var lookup := GetBankAccount(state, accountId);
    if lookup.Success? {
      assert Decide(CloseBankAccount(accountId), state, freshId, now)
        == Success([CashWithdrawn(accountId, lookup.value.amount, now), AccountClosed(accountId, now)]);
    }
  }

  /** The query commands and every unknown kind are refused. */
  lemma DecideUnsupported(command: Command, state: State, freshId: Guid, now: Instant)
    requires command.CheckBalanceAccount? || command.CheckAccountHistory? || command.OtherCommand?
    ensures Decide(command, state, freshId, now) == Failure(CommandNotSupported(command))
  {
  }

  /** Only closing reads the state: for every other command two states decide
      the same events. */
  lemma DecideIgnoresState(command: Command, s1: State, s2: State, freshId: Guid, now: Instant)
    requires !command.CloseBankAccount?
    ensures Decide(command, s1, freshId, now) == Decide(command, s2, freshId, now)
  {
  }

  /** Closing reads nothing of the state but the accounts with the closed id. */
  lemma DecideCloseReadsOnlyItsAccount(accountId: Guid, s1: State, s2: State, freshId: Guid, now: Instant)
    requires Matching(s1.bankAccounts, accountId) == Matching(s2.bankAccounts, accountId)
    ensures Decide(CloseBankAccount(accountId), s1, freshId, now) == Decide(CloseBankAccount(accountId), s2, freshId, now)
  {
  }

  /** The generated id is used by opening only. */
  lemma DecideUsesFreshIdOnlyToOpen(command: Command, state: State, id1: Guid, id2: Guid, now: Instant)
    requires !command.OpenBankAccount?
    ensures Decide(command, state, id1, now) == Decide(command, state, id2, now)
  {
  }

  /** The accounts an event refers to. */
  function EventAccounts(event: Event): set<Guid> {
    match event
    case AccountOpened(id, _) => {id}
    case CashDesposited(id, _, _) => {id}
    case CashWithdrawn(id, _, _) => {id}
    case CashTransfered(fromId, toId, _, _) => {fromId, toId}
    case AccountClosed(id, _) => {id}
    case OtherEvent(_, _) => {}
  }

  /** The accounts a command names, with the generated id standing for the
      account that opening creates. */
  function CommandAccounts(command: Command, freshId: Guid): set<Guid> {
    match command
    case OpenBankAccount(_) => {freshId}
    case DepositCash(id, _) => {id}
    case WithdrawCash(id, _) => {id}
    case TransferCash(fromId, toId, _) => {fromId, toId}
    case CloseBankAccount(id) => {id}
    case _ => {}
  }

  /** Every event decided refers only to accounts the command names, and
      every account the command names is referred to by some event. */
  lemma DecideTouchesOnlyNamedAccounts(command: Command, state: State, freshId: Guid, now: Instant)
    requires Decide(command, state, freshId, now).Success?
    ensures var events := Decide(command, state, freshId, now).value;
      && (forall k :: 0 <= k < |events| ==> EventAccounts(events[k]) <= CommandAccounts(command, freshId))
      && (forall id :: id in CommandAccounts(command, freshId) ==> exists k :: 0 <= k < |events| && id in EventAccounts(events[k]))
  {
    var events := Decide(command, state, freshId, now).value;
    forall id | id in CommandAccounts(command, freshId)
      ensures exists k :: 0 <= k < |events| && id in EventAccounts(events[k])
    {
      assert id in EventAccounts(events[|events| - 1]);
    }
  }
}
