/** A command's decided events replayed onto the state they were decided
    against, with the evolver as written and with the intended one. */
module Lifecycle {
  import opened Wrappers
  import opened BankAccounts
  import opened Decider
  import opened Projection
  import Evolver
  import IntendedEvolver

  /** As written, opening an account under an unused id and replaying its two
      events leaves no account at all: the funding deposit discards the state. */
  lemma AsWrittenOpenLosesAccounts(initialAmount: Money, state: State, freshId: Guid, now: Instant)
    requires NoneAt(state.bankAccounts, freshId)
    ensures Replay(Evolver.Evolve, state, Decide(OpenBankAccount(initialAmount), state, freshId, now).value)
      == Success(EmptyState)
  {
    MatchingNone(state.bankAccounts, freshId);
    var afterOpen := State(state.bankAccounts + [Evolver.OpenedAccount(freshId, now)]);
    AppendUnderFreeId(state.bankAccounts, Evolver.OpenedAccount(freshId, now));
    var events := [AccountOpened(freshId, now), CashDesposited(freshId, initialAmount, now)];
    assert Decide(OpenBankAccount(initialAmount), state, freshId, now).value == events;
    ReplayStep(Evolver.Evolve, state, events, afterOpen);
    ReplayStep(Evolver.Evolve, afterOpen, events[1..], EmptyState);
  }

  /** Every account's balance is zero. */
  predicate BalancesZero(accounts: seq<BankAccount>) {
    forall k :: 0 <= k < |accounts| ==> accounts[k].amount == 0
  }

  /** As written, no history ever gives an account money: from a state whose
      balances are all zero, every successful replay ends in one whose balances
      are all zero. Openings append a zero-balance account, a deposit empties
      the state, and every other event fails. */
  lemma {:induction false} AsWrittenBalancesStayZero(state: State, events: seq<Event>)
    requires BalancesZero(state.bankAccounts)
    ensures var r := Replay(Evolver.Evolve, state, events);
      r.Success? ==> BalancesZero(r.value.bankAccounts)
    decreases |events|
  {
    if events != [] {
      var step := Evolver.Evolve(events[0], state);
      if step.Success? {
        match events[0] {
          case AccountOpened(id, at) =>
            Evolver.EvolveAccountOpened(id, at, state);
            assert BalancesZero(step.value.bankAccounts);
          case CashDesposited(id, amount, at) =>
            Evolver.EvolveCashDesposited(id, amount, at, state);
          case _ =>
        }
        ReplayStep(Evolver.Evolve, state, events, step.value);
        AsWrittenBalancesStayZero(step.value, events[1..]);
      }
    }
  }

  /** As written, the history of Open(a), then Deposit(d) on that account,
      cannot be replayed: the deposit's lookup finds the state emptied by the
      funding deposit. */
  lemma AsWrittenSecondDepositFails(a: Money, d: Money, freshId: Guid, otherId: Guid, t1: Instant, t2: Instant)
    ensures var opening := Decide(OpenBankAccount(a), EmptyState, freshId, t1).value;
      var deposit := Decide(DepositCash(freshId, d), EmptyState, otherId, t2).value;
      Replay(Evolver.Evolve, EmptyState, opening + deposit) == Failure(NoMatchingAccount(freshId))
  {
    var opening := Decide(OpenBankAccount(a), EmptyState, freshId, t1).value;
    var deposit := Decide(DepositCash(freshId, d), EmptyState, otherId, t2).value;
    AsWrittenOpenLosesAccounts(a, EmptyState, freshId, t1);
    ReplayConcat(Evolver.Evolve, EmptyState, opening, deposit);
    assert deposit == [CashDesposited(freshId, d, t2)];
  }

  /** As written, no history that withdraws, transfers or closes can be
      replayed: its first event is a withdrawal, which has no rule. */
  lemma AsWrittenWithdrawalsDoNotReplay(command: Command, state: State, freshId: Guid, now: Instant)
    requires command.WithdrawCash? || command.TransferCash? || command.CloseBankAccount?
    requires Decide(command, state, freshId, now).Success?
    ensures var events := Decide(command, state, freshId, now).value;
      Replay(Evolver.Evolve, state, events) == Failure(EventNotSupported(events[0]))
  {
  }

  /** The intended rules agree with the code on the two events the code
      handles, except for the state a successful deposit yields. */
  lemma IntendedAgreesWithCode(event: Event, state: State)
    requires event.AccountOpened? || event.CashDesposited?
    ensures event.AccountOpened? ==> IntendedEvolver.Evolve(event, state) == Evolver.Evolve(event, state)
    ensures IntendedEvolver.Evolve(event, state).Success? <==> Evolver.Evolve(event, state).Success?
    ensures IntendedEvolver.Evolve(event, state).Failure? ==> IntendedEvolver.Evolve(event, state) == Evolver.Evolve(event, state)
  {
  }

  /** With the intended rules, opening an account under an unused id and
      replaying its events appends one account holding the initial amount,
      not closed, and leaves every other account as it was. */
  lemma IntendedOpenFundsAccount(initialAmount: Money, state: State, freshId: Guid, now: Instant)
    requires NoneAt(state.bankAccounts, freshId)
    ensures Replay(IntendedEvolver.Evolve, state, Decide(OpenBankAccount(initialAmount), state, freshId, now).value)
      == Success(State(state.bankAccounts + [BankAccount(freshId, initialAmount, now, None)]))
  {
    MatchingNone(state.bankAccounts, freshId);
    var before := state.bankAccounts;
    var afterOpen := before + [Evolver.OpenedAccount(freshId, now)];
    AppendUnderFreeId(before, Evolver.OpenedAccount(freshId, now));
    var events := [AccountOpened(freshId, now), CashDesposited(freshId, initialAmount, now)];
    assert Decide(OpenBankAccount(initialAmount), state, freshId, now).value == events;
    var funded := IntendedEvolver.Adjust(afterOpen, freshId, initialAmount);
    IntendedEvolver.EvolveCashDesposited(freshId, initialAmount, now, State(afterOpen));
    ReplayStep(IntendedEvolver.Evolve, state, events, State(afterOpen));
    ReplayStep(IntendedEvolver.Evolve, State(afterOpen), events[1..], State(funded));
    forall k | 0 <= k < |before| ensures funded[k] == before[k] {
      assert afterOpen[k] == before[k];
    }
    assert funded == before + [BankAccount(freshId, initialAmount, now, None)];
  }

  /** With the intended rules, a deposit or withdrawal on the one account with
      that id changes that account's balance by the amount and nothing else. */
  lemma IntendedDepositWithdraw(accountId: Guid, amount: Money, state: State, freshId: Guid, now: Instant)
    requires Unique(state.bankAccounts, accountId)
    ensures Replay(IntendedEvolver.Evolve, state, Decide(DepositCash(accountId, amount), state, freshId, now).value)
      == Success(State(IntendedEvolver.Adjust(state.bankAccounts, accountId, amount)))
    ensures Replay(IntendedEvolver.Evolve, state, Decide(WithdrawCash(accountId, amount), state, freshId, now).value)
      == Success(State(IntendedEvolver.Adjust(state.bankAccounts, accountId, -amount)))
  {
  }

  /** The state a transfer between two existing accounts replays to. */
  lemma TransferReplaysToAdjusted(fromId: Guid, toId: Guid, amount: Money, state: State, freshId: Guid, now: Instant)
    requires Unique(state.bankAccounts, fromId) && Unique(state.bankAccounts, toId)
    ensures Replay(IntendedEvolver.Evolve, state, Decide(TransferCash(fromId, toId, amount), state, freshId, now).value)
      == Success(State(IntendedEvolver.Adjust(IntendedEvolver.Adjust(state.bankAccounts, fromId, -amount), toId, amount)))
  {
    var s1 := IntendedEvolver.Adjust(state.bankAccounts, fromId, -amount);
    IntendedEvolver.AdjustKeepsUnique(state.bankAccounts, fromId, -amount, toId);
    var s2 := IntendedEvolver.Adjust(s1, toId, amount);
    var events := [CashWithdrawn(fromId, amount, now), CashDesposited(toId, amount, now),
                   CashTransfered(fromId, toId, amount, now)];
    assert Decide(TransferCash(fromId, toId, amount), state, freshId, now).value == events;
    IntendedEvolver.EvolveCashWithdrawn(fromId, amount, now, state);
    IntendedEvolver.EvolveCashDesposited(toId, amount, now, State(s1));
    ReplayStep(IntendedEvolver.Evolve, state, events, State(s1));
    ReplayStep(IntendedEvolver.Evolve, State(s1), events[1..], State(s2));
    ReplayStep(IntendedEvolver.Evolve, State(s2), events[2..], State(s2));
  }

  /** With the intended rules, a transfer between two existing accounts moves
      the amount from one to the other, touches no other account, and keeps
      the total of all balances. */
  lemma IntendedTransferConserves(fromId: Guid, toId: Guid, amount: Money, state: State, freshId: Guid, now: Instant)
    requires Unique(state.bankAccounts, fromId) && Unique(state.bankAccounts, toId)
    ensures var r := Replay(IntendedEvolver.Evolve, state, Decide(TransferCash(fromId, toId, amount), state, freshId, now).value);
      && r.Success?
      && |r.value.bankAccounts| == |state.bankAccounts|
      && (forall k :: 0 <= k < |state.bankAccounts| ==>
            var a := state.bankAccounts[k];
            r.value.bankAccounts[k] == a.(amount := a.amount - (if a.id == fromId then amount else 0)
                                                             + (if a.id == toId then amount else 0)))
      && IntendedEvolver.Total(r.value.bankAccounts) == IntendedEvolver.Total(state.bankAccounts)
  {
    TransferReplaysToAdjusted(fromId, toId, amount, state, freshId, now);
    var s0 := state.bankAccounts;
    var s1 := IntendedEvolver.Adjust(s0, fromId, -amount);
    IntendedEvolver.AdjustKeepsUnique(s0, fromId, -amount, toId);
    IntendedEvolver.TotalAdjustUnique(s0, fromId, -amount);
    IntendedEvolver.TotalAdjustUnique(s1, toId, amount);
  }

  /** With the intended rules, closing the one account with that id replays
      to the state in which its balance has been swept and it has been closed
      (what that state holds is `IntendedEvolver.SweepAndClose`). */
  lemma IntendedCloseSweeps(accountId: Guid, state: State, freshId: Guid, now: Instant)
    requires Unique(state.bankAccounts, accountId)
    ensures var balance := GetBankAccount(state, accountId).value.amount;
      Replay(IntendedEvolver.Evolve, state, Decide(CloseBankAccount(accountId), state, freshId, now).value)
      == Success(State(IntendedEvolver.MarkClosed(IntendedEvolver.Adjust(state.bankAccounts, accountId, -balance), accountId, now)))
  {
    var balance := GetBankAccount(state, accountId).value.amount;
    var s1 := IntendedEvolver.Adjust(state.bankAccounts, accountId, -balance);
    IntendedEvolver.AdjustKeepsUnique(state.bankAccounts, accountId, -balance, accountId);
    var s2 := IntendedEvolver.MarkClosed(s1, accountId, now);
    var events := [CashWithdrawn(accountId, balance, now), AccountClosed(accountId, now)];
    assert Decide(CloseBankAccount(accountId), state, freshId, now).value == events;
    IntendedEvolver.EvolveCashWithdrawn(accountId, balance, now, state);
    IntendedEvolver.EvolveAccountClosed(accountId, now, State(s1));
    ReplayStep(IntendedEvolver.Evolve, state, events, State(s1));
    ReplayStep(IntendedEvolver.Evolve, State(s1), events[1..], State(s2));
  }

  /** With the intended rules, closing the one account with that id leaves it
      with balance zero and closed at the instant of the decision, and every
      other account as it was. */
  lemma IntendedCloseZeroesAccount(accountId: Guid, state: State, freshId: Guid, now: Instant)
    requires Unique(state.bankAccounts, accountId)
    ensures var r := Replay(IntendedEvolver.Evolve, state, Decide(CloseBankAccount(accountId), state, freshId, now).value);
      && r.Success?
      && |r.value.bankAccounts| == |state.bankAccounts|
      && (forall k :: 0 <= k < |state.bankAccounts| ==>
            var a := state.bankAccounts[k];
            r.value.bankAccounts[k] == if a.id == accountId then a.(amount := 0, closedAt := Some(now)) else a)
  {
    var balance := GetBankAccount(state, accountId).value.amount;
    var after := IntendedEvolver.MarkClosed(IntendedEvolver.Adjust(state.bankAccounts, accountId, -balance), accountId, now);
    var r := Replay(IntendedEvolver.Evolve, state, Decide(CloseBankAccount(accountId), state, freshId, now).value);
    IntendedCloseSweeps(accountId, state, freshId, now);
    IntendedEvolver.SweepAndClose(state.bankAccounts, accountId, now, balance, after);
  }

  /** With the intended rules, closing the one account with that id lowers the
      total of all balances by exactly the balance that account held. */
  lemma IntendedCloseLowersTotal(accountId: Guid, state: State, freshId: Guid, now: Instant)
    requires Unique(state.bankAccounts, accountId)
    ensures var r := Replay(IntendedEvolver.Evolve, state, Decide(CloseBankAccount(accountId), state, freshId, now).value);
      && r.Success?
      && IntendedEvolver.Total(r.value.bankAccounts)
         == IntendedEvolver.Total(state.bankAccounts) - GetBankAccount(state, accountId).value.amount
  {
    var balance := GetBankAccount(state, accountId).value.amount;
    var swept := IntendedEvolver.Adjust(state.bankAccounts, accountId, -balance);
    IntendedCloseSweeps(accountId, state, freshId, now);
    IntendedEvolver.TotalAdjustUnique(state.bankAccounts, accountId, -balance);
    IntendedEvolver.TotalMarkClosed(swept, accountId, now);
  }

  /** With the intended rules, the history of opening an account with `a`,
      depositing `d` and withdrawing `w` has four events and leaves the one
      account with balance a + d - w (Open(100), Deposit(50), Withdraw(30)
      leaves 120). Each command is decided against the state replayed so far. */
  lemma IntendedOpenDepositWithdraw(a: Money, d: Money, w: Money, id: Guid, f2: Guid, f3: Guid, t1: Instant, t2: Instant, t3: Instant)
    ensures var opening := Decide(OpenBankAccount(a), EmptyState, id, t1).value;
      var s1 := State([BankAccount(id, a, t1, None)]);
      var deposit := Decide(DepositCash(id, d), s1, f2, t2).value;
      var s2 := State([BankAccount(id, a + d, t1, None)]);
      var withdrawal := Decide(WithdrawCash(id, w), s2, f3, t3).value;
      && |opening + deposit + withdrawal| == 4
      && Replay(IntendedEvolver.Evolve, EmptyState, opening) == Success(s1)
      && Replay(IntendedEvolver.Evolve, EmptyState, opening + deposit) == Success(s2)
      && Replay(IntendedEvolver.Evolve, EmptyState, opening + deposit + withdrawal)
         == Success(State([BankAccount(id, a + d - w, t1, None)]))
  {
    var opening := Decide(OpenBankAccount(a), EmptyState, id, t1).value;
    var s1 := State([BankAccount(id, a, t1, None)]);
    var deposit := Decide(DepositCash(id, d), s1, f2, t2).value;
    var s2 := State([BankAccount(id, a + d, t1, None)]);
    var withdrawal := Decide(WithdrawCash(id, w), s2, f3, t3).value;
    IntendedOpenFundsAccount(a, EmptyState, id, t1);
    assert [] + [BankAccount(id, a, t1, None)] == s1.bankAccounts;
    assert Unique(s1.bankAccounts, id);
    IntendedDepositWithdraw(id, d, s1, f2, t2);
    assert IntendedEvolver.Adjust(s1.bankAccounts, id, d)[0] == s2.bankAccounts[0];
    assert IntendedEvolver.Adjust(s1.bankAccounts, id, d) == s2.bankAccounts;
    assert Unique(s2.bankAccounts, id);
    IntendedDepositWithdraw(id, w, s2, f3, t3);
    assert IntendedEvolver.Adjust(s2.bankAccounts, id, -w)[0] == BankAccount(id, a + d - w, t1, None);
    assert IntendedEvolver.Adjust(s2.bankAccounts, id, -w) == [BankAccount(id, a + d - w, t1, None)];
    ReplayConcat(IntendedEvolver.Evolve, EmptyState, opening, deposit);
    ReplayConcat(IntendedEvolver.Evolve, EmptyState, opening + deposit, withdrawal);
  }
}
