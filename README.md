# Bank-account decider, modelled in Dafny

This project models the event-sourcing core of a small bank-account kata.
A **decider** turns a command into the ordered events it decides.
An **evolver** folds one event onto the state, which is a list of projected bank accounts.
Replaying a history is the left fold of the evolver over its events.
Everything is pure, so the model is made of datatypes, functions and lemmas:

- `wrappers.dfy` (`Wrappers`): `Option` for the nullable `ClosedAt` and `Result` for thrown exceptions.
- `bank_accounts.dfy` (`BankAccounts`): the `BankAccount` record, the seven commands, the five events and `State`. It also holds `GetBankAccount`, the LINQ `Single` lookup by id, with its characterisation by positions.
- `decider.dfy` (`Decider`): `Decide`, and lemmas on the exact events each command emits, on what Decide reads of the state, and on which accounts the events name.
- `evolver.dfy` (`Evolver`): `Evolve` exactly as the code has it. An opening appends a zero-balance account. A deposit looks up its account and then returns an empty state. Every other event fails.
- `projection.dfy` (`Projection`): `Replay`, the fold over a history for any evolve function, stopping at the first failure. The code has no replay of its own. `Replay` stands for the way an event-sourced `Evolve` is meant to be used: a history's state is the fold of `Evolve` over its events.
- `intended_evolver.dfy` (`IntendedEvolver`): a separate, corrected evolver, clearly labelled.
  - Its deposit credits the account.
  - Its withdrawal, transfer and closing rules are inferred from the events the decider emits. They are not in the code.
  - It adds no balance, amount or closed-account guard.
- `lifecycle.dfy` (`Lifecycle`): decided events replayed onto the state they were decided against, with both evolvers. It covers the defect, conservation of money in a transfer, the sweep of a closing, and the Open(100), Deposit(50), Withdraw(30) history that ends at 120.

How the model represents the source:

- `Guid` is `nat`, with only equality used.
- `decimal` is `int`, in minor units.
- `DateTimeOffset` is an `int` tick count, and `DateOnly` is an `int` day number.
- Both C# hierarchies are open (`ICommand` is an interface and `Event` an abstract record). So `Command` has an extra `OtherCommand(typeName)` variant and `Event` an extra `OtherEvent(typeName, occurredAt)`, standing for any other kind.
- The constructor names keep the code's spellings `CashDesposited` and `CashTransfered`.
- `Guid.NewGuid()` becomes the parameter `freshId` of `Decide`.
- `DateTimeOffset.Now`, read when an event is constructed, becomes the parameter `now`.

Where the evidently intended behaviour and the code differ, the model follows the code:

- A deposit evidently should credit the account it names. The code returns an empty state (see Findings).
- A lookup can fail because no account has the id or because several do. The code's `Single` tells these apart, so the model has `NoMatchingAccount` and `MoreThanOneMatchingAccount` rather than one "account not found" error.
- The decider emits withdrawal, transfer and closing events, so a replay evidently needs rules for them. The code throws `NotSupportedException` on them. `Evolver.Evolve` fails on them, and only `IntendedEvolver.Evolve` gives them rules.

## Model

| member | source | states |
|---|---|---|
| `BankAccounts.GetBankAccount` | EventSourcing/Commands/OpenBankAccount.cs:53-56 | The lookup succeeds exactly when one account matches the id, and then returns an account with that id. It fails with NoMatchingAccount exactly when none matches, and with MoreThanOneMatchingAccount exactly when several match (the two failures of `Single`). |
| `BankAccounts.GetBankAccountByPosition` | EventSourcing/Commands/OpenBankAccount.cs:53-56 | The same outcomes by position. Success iff exactly one position holds the id, and the result is the account at every position holding it. No match iff no position holds it. Duplicate iff two distinct positions hold it. |
| `BankAccounts.GetBankAccountIsHeld` | EventSourcing/Commands/OpenBankAccount.cs:53-56 | A successful lookup returns one of the state's own accounts, not merely some account with the right id. |
| `BankAccounts.MatchingSameIds` | EventSourcing/Commands/OpenBankAccount.cs:55 | Whether `Single` finds its account depends only on the ids, position by position, not on balances or dates. |
| `BankAccounts.AppendUnderFreeId` | EventSourcing/Commands/OpenBankAccount.cs:122 | Appending an account under an id nobody holds makes it the unique holder, and the lookup then returns exactly that account. |
| `Decider.Decide` | EventSourcing/Commands/OpenBankAccount.cs:62-101 | Decide succeeds iff the command is one of the five write commands and, for a closing, exactly one account has the id. Any other kind fails with CommandNotSupported carrying the command. Every emitted event is stamped with the supplied instant. |
| `Decider.DecideOpenBankAccount` | EventSourcing/Commands/OpenBankAccount.cs:66-74 | Opening emits exactly `[AccountOpened(id), CashDesposited(id, a)]` in that order. Both events carry the generated id, and the initial amount is passed through unvalidated, whatever the state. |
| `Decider.DecideDepositWithdraw` | EventSourcing/Commands/OpenBankAccount.cs:75-84 | A deposit emits exactly `[CashDesposited(id, a)]` and a withdrawal exactly `[CashWithdrawn(id, a)]`. Neither checks that the account exists or its balance. |
| `Decider.DecideTransferCash` | EventSourcing/Commands/OpenBankAccount.cs:85-91 | A transfer emits exactly three events in a fixed order: withdrawal from the source, deposit to the target, then the transfer record. |
| `Decider.DecideCloseBankAccount` | EventSourcing/Commands/OpenBankAccount.cs:92-97 | Closing succeeds iff exactly one position holds the id. It then emits `[CashWithdrawn(id, b), AccountClosed(id)]`, where b is that account's balance. It fails with NoMatchingAccount iff no account has the id, and with MoreThanOneMatchingAccount iff two accounts do. |
| `Decider.DecideUnsupported` | EventSourcing/Commands/OpenBankAccount.cs:98-99 | CheckBalanceAccount, CheckAccountHistory and every other command kind fail with CommandNotSupported carrying the command. |
| `Decider.DecideIgnoresState` | EventSourcing/Commands/OpenBankAccount.cs:64-91 | For every command except closing, two different states decide the same result. |
| `Decider.DecideCloseReadsOnlyItsAccount` | EventSourcing/Commands/OpenBankAccount.cs:92-97 | Closing reads only the accounts with the closed id: two states that agree on those decide the same result. |
| `Decider.DecideUsesFreshIdOnlyToOpen` | EventSourcing/Commands/OpenBankAccount.cs:66-73 | The generated id affects only opening: every other command decides the same result under any generated id. |
| `Decider.DecideTouchesOnlyNamedAccounts` | EventSourcing/Commands/OpenBankAccount.cs:64-97 | Every decided event names only accounts the command names (the generated id for opening). Every account the command names appears in some event. |
| `Evolver.Evolve` | EventSourcing/Commands/OpenBankAccount.cs:113-133 | As written, Evolve succeeds iff the event is an opening, or a deposit whose id exactly one account holds. CashWithdrawn, CashTransfered, AccountClosed and any other kind fail with EventNotSupported carrying the event. |
| `Evolver.EvolveAccountOpened` | EventSourcing/Commands/OpenBankAccount.cs:117-123 | An opening grows the list by one. Every earlier account is unchanged in its place, and the last is `BankAccount(id, 0, occurredAt, no ClosedAt)`. |
| `Evolver.EvolveCashDesposited` | EventSourcing/Commands/OpenBankAccount.cs:125-129 | A deposit fails with NoMatchingAccount iff no account has the id, and with MoreThanOneMatchingAccount iff two do. Once the lookup succeeds, it yields a state with no accounts. |
| `Projection.ReplayConcat` | EventSourcing/Commands/OpenBankAccount.cs:113 | The code has no replay. This is the fold of `Evolve` over a history, as event sourcing uses it. Replaying a concatenated history is replaying the first part and then the second from where it ended, with a failure in the first part final. |
| `IntendedEvolver.Evolve` | EventSourcing/Commands/OpenBankAccount.cs:113-133 | Corrected rules, not the code. Opening and transfer records always succeed. Deposits, withdrawals and closings succeed iff exactly one account has the id, as the code's lookup demands. Unknown kinds fail with EventNotSupported. |
| `IntendedEvolver.EvolveKeepsAccounts` | EventSourcing/Commands/OpenBankAccount.cs:113-133 | Corrected rules: no event other than an opening adds, removes, reorders or re-identifies an account, or changes its creation instant. |
| `IntendedEvolver.EvolveCashDesposited` | EventSourcing/Commands/OpenBankAccount.cs:125-129 | Corrected deposit: on the unique account with the id, the deposit adds the amount to that account's balance and to no other. |
| `IntendedEvolver.EvolveCashWithdrawn` | EventSourcing/Commands/OpenBankAccount.cs:80-84 | Intended rule for the event the withdrawal emits: the amount is subtracted from the unique account with the id. |
| `IntendedEvolver.EvolveCashTransfered` | EventSourcing/Commands/OpenBankAccount.cs:85-91 | Intended rule for the transfer record: it leaves the state exactly as it was, because the withdrawal and deposit before it already moved the money. |
| `IntendedEvolver.EvolveAccountClosed` | EventSourcing/Commands/OpenBankAccount.cs:92-97 | Intended rule for the event closing emits: the unique account with the id gets its ClosedAt set to the event's instant. |
| `IntendedEvolver.AdjustKeepsUnique` | EventSourcing/Commands/OpenBankAccount.cs:55 | Changing balances keeps every uniquely held id uniquely held, so later lookups still succeed. |
| `IntendedEvolver.TotalAdjust` | EventSourcing/Commands/OpenBankAccount.cs:125-129 | Adjusting the balance of id by delta moves the total of all balances by delta once per account holding that id. |
| `IntendedEvolver.TotalAdjustUnique` | EventSourcing/Commands/OpenBankAccount.cs:125-129 | On a uniquely held id, adjusting by delta moves the total by exactly delta. |
| `IntendedEvolver.TotalMarkClosed` | EventSourcing/Commands/OpenBankAccount.cs:96 | Closing accounts leaves the total of all balances unchanged. |
| `IntendedEvolver.DepositWithdrawMoveTotal` | EventSourcing/Commands/OpenBankAccount.cs:75-84 | Corrected rules: a deposit on an existing account raises the total by the amount, and a withdrawal lowers it by the amount. |
| `IntendedEvolver.SweepAndClose` | EventSourcing/Commands/OpenBankAccount.cs:92-97 | Withdrawing the looked-up balance and then closing leaves that account with balance 0 and ClosedAt set, every other account unchanged, and the total lower by exactly the swept balance. |
| `Lifecycle.AsWrittenOpenLosesAccounts` | EventSourcing/Commands/OpenBankAccount.cs:117-129 | As written, replaying an opening's two events onto any state without the generated id leaves no account at all. |
| `Lifecycle.AsWrittenBalancesStayZero` | EventSourcing/Commands/OpenBankAccount.cs:113-133 | As written, no history ever gives an account money. From a state whose balances are all 0, every successful replay of any history ends with all balances 0. |
| `Lifecycle.AsWrittenSecondDepositFails` | EventSourcing/Commands/OpenBankAccount.cs:125-128 | As written, a history of opening then depositing to the new account cannot be replayed. The second deposit's lookup fails with NoMatchingAccount. |
| `Lifecycle.AsWrittenWithdrawalsDoNotReplay` | EventSourcing/Commands/OpenBankAccount.cs:130-131 | As written, the events of any successful withdrawal, transfer or closing fail to replay with EventNotSupported on their first event. |
| `Lifecycle.IntendedAgreesWithCode` | EventSourcing/Commands/OpenBankAccount.cs:117-129 | The corrected evolver equals the code on openings. On deposits it succeeds and fails exactly when the code does, with the same error, and differs only in the resulting state. |
| `Lifecycle.IntendedOpenFundsAccount` | EventSourcing/Commands/OpenBankAccount.cs:66-73 | Corrected rules: replaying an opening under an unused id appends one account. It holds the initial amount, was created at the event's instant and is not closed. No other account changes. |
| `Lifecycle.IntendedDepositWithdraw` | EventSourcing/Commands/OpenBankAccount.cs:75-84 | Corrected rules: a decided deposit or withdrawal on an existing account replays to that account's balance moved by the amount, with the other accounts unchanged. |
| `Lifecycle.TransferReplaysToAdjusted` | EventSourcing/Commands/OpenBankAccount.cs:85-91 | Corrected rules: a decided transfer between existing accounts replays to a debit of the source followed by a credit of the target. |
| `Lifecycle.IntendedTransferConserves` | EventSourcing/Commands/OpenBankAccount.cs:85-91 | Corrected rules: a transfer takes the amount from the source and gives it to the target. It leaves every other account as it was and the total of all balances unchanged. |
| `Lifecycle.IntendedCloseSweeps` | EventSourcing/Commands/OpenBankAccount.cs:92-97 | Corrected rules: a decided closing of an existing account replays to the state that `SweepAndClose` characterises: the balance is withdrawn, then the account is closed at the event's instant. |
| `Lifecycle.IntendedCloseZeroesAccount` | EventSourcing/Commands/OpenBankAccount.cs:92-97 | Corrected rules: replaying a decided closing of an existing account leaves it with balance 0 and ClosedAt set to the decision's instant. Every other account is unchanged. |
| `Lifecycle.IntendedCloseLowersTotal` | EventSourcing/Commands/OpenBankAccount.cs:92-97 | Corrected rules: replaying a decided closing lowers the total of all balances by exactly the balance the account held. |
| `Lifecycle.IntendedOpenDepositWithdraw` | EventSourcing/Commands/OpenBankAccount.cs:66-84 | Corrected rules: the history Open(a), Deposit(d), Withdraw(w) has four events. Its replay passes through balances a and a + d and ends with one open account of balance a + d - w (120 for 100, 50, 30). |

## Left out

- Identity generation: `Guid.NewGuid()` is the parameter `freshId`. Global uniqueness is not modelled, so the lemmas that need it require that no account already holds the id.
- The clock: each event reads `DateTimeOffset.Now` when it is constructed. The model stamps every event of one `Decide` call with a single supplied instant, so it does not capture two events of one call differing by a tick.
- `decimal`: amounts are unbounded integers. The 28-digit limit and scale of `decimal` are not modelled; nothing in the core rounds.
- Exception messages and `GetType().Name`: an error carries the offending command or event, not a message string.
- The commented-out duplicate event declarations at the end of the file.
- Guards the code does not have: no check for sufficient balance, for positive amounts, or against events on a closed account, in either evolver. Under `Evolver.Evolve`, the code as written, no balance ever falls below zero, but only because every balance stays 0 (`Lifecycle.AsWrittenBalancesStayZero`). Under `IntendedEvolver.Evolve` a withdrawal can make a balance negative, so "balance never negative" is not proved there.
- Determinism of replay: `Replay` is a function, so replaying one history twice gives equal states by construction. No lemma states it.
- The query side (`CheckBalanceAccount`, `CheckAccountHistory`): appears only as payload. `Decide` refuses these commands, as the code does.
- Event store, dispatcher, host and persistence: none of them exists in the code.

## Findings

| source | as written | input that shows it | evidently intended | confidence | as-written member | corrected member |
|---|---|---|---|---|---|---|
| EventSourcing/Commands/OpenBankAccount.cs:125-129 | After the account lookup succeeds, the deposit rule returns `new State()`. It drops every account and ignores the amount. | Open(100) decides `[AccountOpened(X), CashDesposited(X, 100)]`. Replaying that from the empty state yields a state with no accounts, and a later Deposit(X, 50) then fails with no matching account. | Return the state with X's balance raised by the amount and every other account kept. | not executed | `Lifecycle.AsWrittenOpenLosesAccounts` | `Lifecycle.IntendedOpenFundsAccount` |
