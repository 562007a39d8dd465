/** The entities and messages of the bank-account aggregate: the projected
    BankAccount, the commands, the events, the State they are folded into, and
    the lookup of an account by id (a LINQ `Single`). */
module BankAccounts {
  import opened Wrappers

  /** `Guid`: an opaque account identity; only equality is used. */
  type Guid = nat
  /** `decimal` amounts, in minor units; no arithmetic beyond + and - is involved. */
  type Money = int
  /** `DateTimeOffset`, as a tick count. */
  type Instant = int
  /** `DateOnly`, as a day number; it is only carried as payload. */
  type Date = int

  datatype BankAccount = BankAccount(id: Guid, amount: Money, createdAt: Instant, closedAt: Option<Instant>)

  /** The commands. `ICommand` is an open interface, so `OtherCommand` stands for
      any implementation not listed here, identified by its type name. */
  datatype Command =
    | OpenBankAccount(initialAmount: Money)
    | DepositCash(accountId: Guid, amount: Money)
    | WithdrawCash(accountId: Guid, amount: Money)
    | TransferCash(fromAccountId: Guid, toAccountId: Guid, amount: Money)
    | CheckBalanceAccount(showDeposits: bool, showWithdraws: bool, showUntil: Date)
    | CheckAccountHistory(fromDate: Date, toDate: Date)
    | CloseBankAccount(accountId: Guid)
    | OtherCommand(typeName: string)

  /** The events; every one carries the instant it was constructed at.
      `Event` is an abstract record, so `OtherEvent` stands for any other
      subtype. The constructor names keep the source's spelling. */
  datatype Event =
    | AccountOpened(accountId: Guid, occurredAt: Instant)
    | CashDesposited(accountId: Guid, amount: Money, occurredAt: Instant)
    | CashWithdrawn(accountId: Guid, amount: Money, occurredAt: Instant)
    | CashTransfered(fromAccountId: Guid, toAccountId: Guid, amount: Money, occurredAt: Instant)
    | AccountClosed(accountId: Guid, occurredAt: Instant)
    | OtherEvent(typeName: string, occurredAt: Instant)

  /** The exceptions the core throws: the two ways LINQ `Single` fails, and
      `NotSupportedException` for a command or event with no rule. */
  datatype Error =
    | NoMatchingAccount(id: Guid)
    | MoreThanOneMatchingAccount(id: Guid)
    | CommandNotSupported(command: Command)
    | EventNotSupported(event: Event)

  /** The aggregate's state: the accounts, in the order they were appended. */
  datatype State = State(bankAccounts: seq<BankAccount>)

  /** `new State()`: no accounts. */
  const EmptyState: State := State([])

  /** The accounts with id `id`, in order: what the predicate given to
      `Single` selects. */
  function Matching(accounts: seq<BankAccount>, id: Guid): (r: seq<BankAccount>)
    ensures |r| <= |accounts|
    ensures forall k :: 0 <= k < |r| ==> r[k].id == id
  {
    if accounts == [] then []
    else (if accounts[0].id == id then [accounts[0]] else []) + Matching(accounts[1..], id)
  }

  /** Exactly one account has id `id`: the condition under which `Single` succeeds. */
  predicate Unique(accounts: seq<BankAccount>, id: Guid) {
    |Matching(accounts, id)| == 1
  }

  /** The account with id `id`, failing as `Single` does when there is none
      or more than one. */
  function GetBankAccount(state: State, id: Guid): (r: Result<BankAccount, Error>)
    ensures r.Success? <==> Unique(state.bankAccounts, id)
    ensures r.Success? ==> r.value.id == id
    ensures r == Failure(NoMatchingAccount(id)) <==> |Matching(state.bankAccounts, id)| == 0
    ensures r == Failure(MoreThanOneMatchingAccount(id)) <==> |Matching(state.bankAccounts, id)| > 1
  {
    var matches := Matching(state.bankAccounts, id);
    if |matches| == 0 then Failure(NoMatchingAccount(id))
    else if |matches| > 1 then Failure(MoreThanOneMatchingAccount(id))
    else Success(matches[0])
  }

  /** No position holds an account with id `id`. */
  ghost predicate NoneAt(accounts: seq<BankAccount>, id: Guid) {
    forall i :: 0 <= i < |accounts| ==> accounts[i].id != id
  }

  /** Two different positions hold an account with id `id`. */
  ghost predicate SeveralAt(accounts: seq<BankAccount>, id: Guid) {
    exists i, j :: 0 <= i < j < |accounts| && accounts[i].id == id && accounts[j].id == id
  }

  /** Exactly one position holds an account with id `id`. */
  ghost predicate OnlyOneAt(accounts: seq<BankAccount>, id: Guid) {
    exists i :: 0 <= i < |accounts| && accounts[i].id == id &&
      forall j :: 0 <= j < |accounts| && accounts[j].id == id ==> j == i
  }

  lemma {:induction false} MatchingNone(accounts: seq<BankAccount>, id: Guid)
    ensures Matching(accounts, id) == [] <==> NoneAt(accounts, id)
  {
    if accounts != [] {
      var tail := accounts[1..];
      MatchingNone(tail, id);
      if accounts[0].id != id {
        assert Matching(accounts, id) == Matching(tail, id);
        if NoneAt(tail, id) {
          forall i | 0 < i < |accounts| ensures accounts[i].id != id {
            assert accounts[i] == tail[i - 1];
          }
        } else {
          var k :| 0 <= k < |tail| && tail[k].id == id;
          assert accounts[k + 1].id == id;
        }
      }
    }
  }

  lemma {:induction false} MatchingSeveral(accounts: seq<BankAccount>, id: Guid)
    ensures |Matching(accounts, id)| >= 2 <==> SeveralAt(accounts, id)
  {
    if accounts != [] {
      var tail := accounts[1..];
      MatchingSeveral(tail, id);
      MatchingNone(tail, id);
      if accounts[0].id == id {
        assert |Matching(accounts, id)| == 1 + |Matching(tail, id)|;
        if !NoneAt(tail, id) {
          var k :| 0 <= k < |tail| && tail[k].id == id;
          assert accounts[0].id == id && accounts[k + 1].id == id;
        }
        if SeveralAt(accounts, id) {
          var i, j :| 0 <= i < j < |accounts| && accounts[i].id == id && accounts[j].id == id;
          assert tail[j - 1].id == id;
        }
      } else {
        assert Matching(accounts, id) == Matching(tail, id);
        if SeveralAt(tail, id) {
          var i, j :| 0 <= i < j < |tail| && tail[i].id == id && tail[j].id == id;
          assert accounts[i + 1].id == id && accounts[j + 1].id == id;
        }
        if SeveralAt(accounts, id) {
          var i, j :| 0 <= i < j < |accounts| && accounts[i].id == id && accounts[j].id == id;
          assert tail[i - 1].id == id && tail[j - 1].id == id;
        }
      }
    }
  }

  /** When one account matches, it is the account at every position holding that id. */
  lemma {:induction false} MatchingSingle(accounts: seq<BankAccount>, id: Guid)
    requires |Matching(accounts, id)| == 1
    ensures forall i :: 0 <= i < |accounts| && accounts[i].id == id ==> accounts[i] == Matching(accounts, id)[0]
  {
    var tail := accounts[1..];
    if accounts[0].id == id {
      assert |Matching(tail, id)| == 0;
      MatchingNone(tail, id);
      forall i | 0 < i < |accounts| ensures accounts[i].id != id {
        assert accounts[i] == tail[i - 1];
      }
    } else {
      assert Matching(accounts, id) == Matching(tail, id);
      MatchingSingle(tail, id);
      forall i | 0 < i < |accounts| && accounts[i].id == id ensures accounts[i] == Matching(accounts, id)[0] {
        assert accounts[i] == tail[i - 1];
      }
    }
  }

  /** Every id is held at no position, at exactly one, or at several, and at
      only one of these. */
  lemma Trichotomy(accounts: seq<BankAccount>, id: Guid)
    ensures NoneAt(accounts, id) || OnlyOneAt(accounts, id) || SeveralAt(accounts, id)
    ensures OnlyOneAt(accounts, id) ==> !NoneAt(accounts, id) && !SeveralAt(accounts, id)
    ensures NoneAt(accounts, id) ==> !SeveralAt(accounts, id)
  {
  }

  /** `Single`'s outcome in terms of positions: it finds the one account at
      the one position holding the id, reports a missing account when no
      position holds it, and reports a duplicate when two positions do. */
  lemma GetBankAccountByPosition(state: State, id: Guid)
    ensures var r := GetBankAccount(state, id);
      && (r.Success? <==> OnlyOneAt(state.bankAccounts, id))
      && (r.Success? ==> forall i :: 0 <= i < |state.bankAccounts| && state.bankAccounts[i].id == id ==>
            state.bankAccounts[i] == r.value)
      && (r == Failure(NoMatchingAccount(id)) <==> NoneAt(state.bankAccounts, id))
      && (r == Failure(MoreThanOneMatchingAccount(id)) <==> SeveralAt(state.bankAccounts, id))
  {
    MatchingNone(state.bankAccounts, id);
    MatchingSeveral(state.bankAccounts, id);
    Trichotomy(state.bankAccounts, id);
    if Unique(state.bankAccounts, id) {
      MatchingSingle(state.bankAccounts, id);
    }
  }

  /** The account `Single` returns is one of the state's own accounts, not
      merely some account with the right id. */
  lemma GetBankAccountIsHeld(state: State, id: Guid)
    ensures var r := GetBankAccount(state, id);
      r.Success? ==> r.value in state.bankAccounts
  {
    GetBankAccountByPosition(state, id);
  }

  /** Matching distributes over concatenation. */
  lemma {:induction false} MatchingConcat(a: seq<BankAccount>, b: seq<BankAccount>, id: Guid)
    ensures Matching(a + b, id) == Matching(a, id) + Matching(b, id)
  {
    if a == [] {
      assert a + b == b;
    } else {
      assert (a + b)[1..] == a[1..] + b;
      MatchingConcat(a[1..], b, id);
    }
  }

  /** Which accounts match depends only on the ids, position by position. */
  lemma {:induction false} MatchingSameIds(a: seq<BankAccount>, b: seq<BankAccount>, id: Guid)
    requires |a| == |b| && forall k :: 0 <= k < |a| ==> a[k].id == b[k].id
    ensures |Matching(a, id)| == |Matching(b, id)|
  {
    if a != [] {
      MatchingSameIds(a[1..], b[1..], id);
    }
  }

  /** Appending an account under an id nobody holds makes it the only one with that id. */
  lemma AppendUnderFreeId(accounts: seq<BankAccount>, account: BankAccount)
    requires |Matching(accounts, account.id)| == 0
    ensures Unique(accounts + [account], account.id)
    ensures GetBankAccount(State(accounts + [account]), account.id) == Success(account)
  {
    MatchingConcat(accounts, [account], account.id);
    assert Matching([account], account.id) == [account];
  }
}
