/** What holds of the ledger after any sequence of requests. */
module EscrowSafety {
  import opened Options
  import opened EscrowLedger

  datatype Call = Call(now: int, request: Request)

  /** An account's balance when it was opened, and how many ledger rows there were then. */
  datatype Opening = Opening(balance: int, at: nat)

  /** The tables, with how every account was opened and what captures have sent to accounts that do not exist. */
  datatype World = World(state: State, openings: map<Id, Opening>, lost: int)

  const Start := World(Empty, map[], 0)

  ghost function Next(w: World, c: Call): World {
    var o := Handle(w.state, c.now, c.request);
    World(o.state,
          if o.reply.Opened? && c.request.CreateAccount? then w.openings[o.reply.id := Opening(o.reply.balance, |w.state.entries|)]
          else w.openings,
          w.lost + (if c.request.CaptureHold? && o.reply.HoldCaptured? && c.request.destination !in w.state.accounts
                    then o.reply.amount else 0))
  }

  ghost function Run(calls: seq<Call>): World {
    if calls == [] then Start else Next(Run(calls[..|calls| - 1]), calls[|calls| - 1])
  }

  // ----- double entry -----

  function SumFor(entries: seq<Entry>, account: Id): int {
    if entries == [] then 0
    else
      var e := entries[|entries| - 1];
      SumFor(entries[..|entries| - 1], account) + if e.account == account then e.amount else 0
  }

  function SumOf(entries: seq<Entry>, transaction: nat): int {
    if entries == [] then 0
    else
      var e := entries[|entries| - 1];
      SumOf(entries[..|entries| - 1], transaction) + if e.transaction == transaction then e.amount else 0
  }

  lemma SumForTwo(entries: seq<Entry>, a: Entry, b: Entry, account: Id)
    ensures SumFor(entries + [a, b], account) ==
            SumFor(entries, account) + (if a.account == account then a.amount else 0) + (if b.account == account then b.amount else 0)
  {
    assert (entries + [a, b])[..|entries| + 1] == entries + [a];
    assert (entries + [a])[..|entries|] == entries;
  }

  lemma SumOfTwo(entries: seq<Entry>, a: Entry, b: Entry, transaction: nat)
    ensures SumOf(entries + [a, b], transaction) ==
            SumOf(entries, transaction) + (if a.transaction == transaction then a.amount else 0)
            + (if b.transaction == transaction then b.amount else 0)
  {
    assert (entries + [a, b])[..|entries| + 1] == entries + [a];
    assert (entries + [a])[..|entries|] == entries;
  }

  lemma {:induction false} SumOfNone(entries: seq<Entry>, transaction: nat)
    requires forall i :: 0 <= i < |entries| ==> entries[i].transaction != transaction
    ensures SumOf(entries, transaction) == 0
  {
    if entries != [] {
      SumOfNone(entries[..|entries| - 1], transaction);
    }
  }

  /** Every row belongs to a transaction, and the rows of each transaction sum to zero. */
  ghost predicate DoubleEntry(s: State) {
    && (forall i :: 0 <= i < |s.entries| ==> s.entries[i].transaction < |s.transactions|)
    && (forall t: nat :: t < |s.transactions| ==> SumOf(s.entries, t) == 0)
  }

  lemma TwoRowsBalance(s: State, t: State, tx: Transaction, a: Id, b: Id, amount: int)
    requires DoubleEntry(s) && t.transactions == s.transactions + [tx]
    requires t.entries == s.entries + [Entry(|s.transactions|, a, amount), Entry(|s.transactions|, b, -amount)]
    ensures DoubleEntry(t)
  {
    var n := |s.transactions|;
    forall k: nat | k < |t.transactions| ensures SumOf(t.entries, k) == 0 {
      SumOfTwo(s.entries, Entry(n, a, amount), Entry(n, b, -amount), k);
      if k == n {
        SumOfNone(s.entries, n);
      }
    }
  }

  // ----- the three things a request can do to accounts and ledger -----

  predicate Untouched(s: State, t: State) {
    t.accounts == s.accounts && t.transactions == s.transactions && t.entries == s.entries
  }

  predicate MovedBetween(s: State, t: State, source: Id, target: Id, amount: int) {
    && t.accounts == Credited(Credited(s.accounts, source, -amount), target, amount)
    && |t.transactions| == |s.transactions| + 1 && t.transactions[..|s.transactions|] == s.transactions
    && t.entries == s.entries + [Entry(|s.transactions|, source, -amount), Entry(|s.transactions|, target, amount)]
  }

  predicate OpenedWith(s: State, t: State, id: Id, balance: int) {
    && id !in s.accounts && id in t.accounts
    && t.accounts == s.accounts[id := t.accounts[id]] && t.accounts[id].balance == balance
    && t.transactions == s.transactions + (if balance > 0 then [Transaction(t.accounts[id].tenant, "initial_deposit")] else [])
    && t.entries == s.entries + (if balance > 0 then [Entry(|s.transactions|, id, balance), Entry(|s.transactions|, id, -balance)] else [])
  }

  predicate Opens(r: Request, reply: Reply) {
    r.CreateAccount? && reply.Opened?
  }

  predicate Transfers(s: State, r: Request, reply: Reply) {
    r.Transfer? && !Seen(s, r) && reply.Transferred?
  }

  predicate Captures(r: Request, reply: Reply) {
    r.CaptureHold? && reply.HoldCaptured?
  }

  lemma CreateEffect(s: State, r: Request)
    requires r.CreateAccount?
    ensures var o := OnCreateAccount(s, r);
            && o.state.holds == s.holds
            && (o.reply.Opened? <==> IdOf(r) !in s.accounts)
            && (o.reply.Opened? ==> o.reply == Opened(IdOf(r), BalanceOf(r)))
            && (o.reply.Opened? ==> OpenedWith(s, o.state, o.reply.id, o.reply.balance))
            && (!o.reply.Opened? ==> o.state == s)
  {
  }

  lemma CaptureEffect(s: State, now: int, r: Request)
    requires r.CaptureHold?
    ensures var o := OnCaptureHold(s, now, r);
            && (o.reply.HoldCaptured? <==> Capturable(Fresh(s, now), r))
            && (o.reply.HoldCaptured? ==>
                  && r.hold in s.holds && Live(s.holds[r.hold], s.holds[r.hold].account, now)
                  && 0 < o.reply.amount <= s.holds[r.hold].amount
                  && MovedBetween(s, o.state, s.holds[r.hold].account, r.destination, o.reply.amount)
                  && o.state.holds == Refreshed(s.holds, now)[r.hold := Refreshed(s.holds, now)[r.hold].(status := Captured)])
            && (!o.reply.HoldCaptured? ==> o.state == Fresh(s, now))
  {
    var o := OnCaptureHold(s, now, r);
    if o.reply.HoldCaptured? {
      var h := Refreshed(s.holds, now)[r.hold];
      assert h == s.holds[r.hold];
    }
  }

  lemma TransferEffect(s: State, now: int, r: Request)
    requires r.Transfer?
    ensures var o := OnTransfer(s, now, r);
            && (Transfers(s, r, o.reply) ==>
                  && r.source in s.accounts && r.target in s.accounts && 0 < r.amount <= Available(Fresh(s, now), r.source, now)
                  && MovedBetween(s, o.state, r.source, r.target, r.amount) && o.state.holds == Refreshed(s.holds, now))
            && (!Transfers(s, r, o.reply) ==> o.state == s || o.state == Fresh(s, now))
  {
    var o := OnTransfer(s, now, r);
    if Transfers(s, r, o.reply) {
      assert o.state.transactions[..|s.transactions|] == s.transactions;
      assert o.state.accounts == Moved(Fresh(s, now), r.source, r.target, r.amount).accounts;
    }
  }

  /** Only a transfer that succeeds, a capture that succeeds and a new account touch accounts or ledger. */
  lemma Effect(s: State, now: int, r: Request)
    ensures var o := Handle(s, now, r);
            && (Opens(r, o.reply) ==> OpenedWith(s, o.state, o.reply.id, o.reply.balance))
            && (Transfers(s, r, o.reply) ==>
                  MovedBetween(s, o.state, r.source, r.target, r.amount) && r.source in s.accounts && r.target in s.accounts)
            && (Captures(r, o.reply) ==>
                  && r.hold in s.holds && MovedBetween(s, o.state, s.holds[r.hold].account, r.destination, o.reply.amount)
                  && o.reply.amount > 0)
            && (Opens(r, o.reply) || Transfers(s, r, o.reply) || Captures(r, o.reply) || Untouched(s, o.state))
  {
    if r.CreateAccount? {
      CreateEffect(s, r);
    } else if r.CaptureHold? {
      CaptureEffect(s, now, r);
    } else if r.Transfer? {
      TransferEffect(s, now, r);
    }
  }

  lemma MoveKeepsDoubleEntry(s: State, t: State, source: Id, target: Id, amount: int)
    requires DoubleEntry(s) && MovedBetween(s, t, source, target, amount)
    ensures DoubleEntry(t)
  {
    assert t.transactions == s.transactions + [t.transactions[|s.transactions|]];
    TwoRowsBalance(s, t, t.transactions[|s.transactions|], source, target, -amount);
  }

  lemma OpenKeepsDoubleEntry(s: State, t: State, id: Id, balance: int)
    requires DoubleEntry(s) && OpenedWith(s, t, id, balance)
    ensures DoubleEntry(t)
  {
    if balance > 0 {
      TwoRowsBalance(s, t, Transaction(t.accounts[id].tenant, "initial_deposit"), id, id, balance);
    } else {
      assert t.transactions == s.transactions && t.entries == s.entries;
    }
  }

  lemma NextKeepsDoubleEntry(s: State, now: int, r: Request)
    requires DoubleEntry(s)
    ensures DoubleEntry(Handle(s, now, r).state)
  {
    var o := Handle(s, now, r);
    Effect(s, now, r);
    if Opens(r, o.reply) {
      OpenKeepsDoubleEntry(s, o.state, o.reply.id, o.reply.balance);
    } else if Transfers(s, r, o.reply) {
      MoveKeepsDoubleEntry(s, o.state, r.source, r.target, r.amount);
    } else if Captures(r, o.reply) {
      MoveKeepsDoubleEntry(s, o.state, s.holds[r.hold].account, r.destination, o.reply.amount);
    }
  }

  // ----- every balance is explained by the ledger -----

  /** A balance is what the account was opened with and the ledger rows posted to it since. */
  ghost predicate Explained(s: State, openings: map<Id, Opening>) {
    && s.accounts.Keys == openings.Keys
    && forall id :: id in openings ==>
         && openings[id].at <= |s.entries|
         && s.accounts[id].balance == openings[id].balance + SumFor(s.entries[openings[id].at..], id)
  }

  lemma RowsSince(entries: seq<Entry>, at: nat, a: Entry, b: Entry, id: Id)
    requires at <= |entries|
    ensures SumFor((entries + [a, b])[at..], id) ==
            SumFor(entries[at..], id) + (if a.account == id then a.amount else 0) + (if b.account == id then b.amount else 0)
  {
    assert (entries + [a, b])[at..] == entries[at..] + [a, b];
    SumForTwo(entries[at..], a, b, id);
  }

  lemma MovedBalance(s: State, t: State, source: Id, target: Id, amount: int, id: Id)
    requires MovedBetween(s, t, source, target, amount) && id in s.accounts
    ensures id in t.accounts
    ensures t.accounts[id].balance == s.accounts[id].balance - (if id == source then amount else 0) + (if id == target then amount else 0)
  {
  }

  lemma MoveExplained(s: State, t: State, openings: map<Id, Opening>, source: Id, target: Id, amount: int)
    requires Explained(s, openings) && MovedBetween(s, t, source, target, amount)
    ensures Explained(t, openings)
  {
    var n := |s.transactions|;
    forall id | id in openings
      ensures openings[id].at <= |t.entries|
              && id in t.accounts && t.accounts[id].balance == openings[id].balance + SumFor(t.entries[openings[id].at..], id)
    {
      MovedBalance(s, t, source, target, amount, id);
      RowsSince(s.entries, openings[id].at, Entry(n, source, -amount), Entry(n, target, amount), id);
    }
  }

  lemma OpenExplained(s: State, t: State, openings: map<Id, Opening>, id: Id, balance: int)
    requires Explained(s, openings) && OpenedWith(s, t, id, balance)
    ensures Explained(t, openings[id := Opening(balance, |s.entries|)])
  {
    var after := openings[id := Opening(balance, |s.entries|)];
    var n := |s.transactions|;
    forall i | i in after
      ensures after[i].at <= |t.entries| && t.accounts[i].balance == after[i].balance + SumFor(t.entries[after[i].at..], i)
    {
      if balance > 0 {
        RowsSince(s.entries, after[i].at, Entry(n, id, balance), Entry(n, id, -balance), i);
      } else {
        assert t.entries == s.entries;
      }
    }
  }

  lemma NextExplained(w: World, c: Call)
    requires Explained(w.state, w.openings)
    ensures Explained(Next(w, c).state, Next(w, c).openings)
  {
    var s, r := w.state, c.request;
    var o := Handle(s, c.now, r);
    Effect(s, c.now, r);
    if Opens(r, o.reply) {
      OpenExplained(s, o.state, w.openings, o.reply.id, o.reply.balance);
    } else if Transfers(s, r, o.reply) {
      MoveExplained(s, o.state, w.openings, r.source, r.target, r.amount);
    } else if Captures(r, o.reply) {
      MoveExplained(s, o.state, w.openings, s.holds[r.hold].account, r.destination, o.reply.amount);
    }
  }

  // ----- money is conserved -----

  function Balances(accounts: map<Id, Account>): map<Id, int> {
    map id | id in accounts :: accounts[id].balance
  }

  function OpeningBalances(openings: map<Id, Opening>): map<Id, int> {
    map id | id in openings :: openings[id].balance
  }

  ghost function Money(s: State): int {
    Total(Balances(s.accounts))
  }

  lemma CreditTotal(accounts: map<Id, Account>, id: Id, amount: int)
    ensures Total(Balances(Credited(accounts, id, amount))) == Total(Balances(accounts)) + (if id in accounts then amount else 0)
  {
    if id in accounts {
      assert Balances(Credited(accounts, id, amount)) == Balances(accounts)[id := accounts[id].balance + amount];
      TotalUpdate(Balances(accounts), id, accounts[id].balance + amount);
    }
  }

  lemma MoveMoney(s: State, t: State, source: Id, target: Id, amount: int)
    requires MovedBetween(s, t, source, target, amount) && source in s.accounts
    ensures Money(t) == Money(s) - if target in s.accounts then 0 else amount
  {
    CreditTotal(s.accounts, source, -amount);
    CreditTotal(Credited(s.accounts, source, -amount), target, amount);
  }

  lemma OpenMoney(s: State, t: State, id: Id, balance: int)
    requires OpenedWith(s, t, id, balance)
    ensures Money(t) == Money(s) + balance
  {
    assert Balances(t.accounts) == Balances(s.accounts)[id := balance];
    TotalUpdate(Balances(s.accounts), id, balance);
  }

  lemma OpeningMoney(openings: map<Id, Opening>, id: Id, o: Opening)
    requires id !in openings
    ensures Total(OpeningBalances(openings[id := o])) == Total(OpeningBalances(openings)) + o.balance
  {
    assert OpeningBalances(openings[id := o]) == OpeningBalances(openings)[id := o.balance];
    TotalUpdate(OpeningBalances(openings), id, o.balance);
  }

  /** Holds are placed on accounts that exist, for positive amounts. */
  predicate HoldsSound(s: State) {
    forall h :: h in s.holds ==> s.holds[h].account in s.accounts && s.holds[h].amount > 0
  }

  ghost predicate Accounted(w: World) {
    && w.state.accounts.Keys == w.openings.Keys
    && Money(w.state) == Total(OpeningBalances(w.openings)) - w.lost
  }

  lemma NextAccounted(w: World, c: Call)
    requires Accounted(w) && HoldsSound(w.state)
    ensures Accounted(Next(w, c))
  {
    var s, r := w.state, c.request;
    var o := Handle(s, c.now, r);
    Effect(s, c.now, r);
    if Opens(r, o.reply) {
      OpenMoney(s, o.state, o.reply.id, o.reply.balance);
      OpeningMoney(w.openings, o.reply.id, Opening(o.reply.balance, |s.entries|));
    } else if Transfers(s, r, o.reply) {
      MoveMoney(s, o.state, r.source, r.target, r.amount);
    } else if Captures(r, o.reply) {
      MoveMoney(s, o.state, s.holds[r.hold].account, r.destination, o.reply.amount);
    }
  }

  /** Accounts are never removed. */
  lemma AccountsStay(s: State, now: int, r: Request)
    ensures s.accounts.Keys <= Handle(s, now, r).state.accounts.Keys
  {
    Effect(s, now, r);
  }

  /** Requests other than new holds only change the status of holds. */
  lemma HoldsStay(s: State, now: int, r: Request, h: Id)
    requires !r.CreateHold? && h in Handle(s, now, r).state.holds
    ensures var t := Handle(s, now, r).state;
            h in s.holds && t.holds[h].account == s.holds[h].account && t.holds[h].amount == s.holds[h].amount
  {
  }

  lemma NewHoldSound(s: State, now: int, r: Request)
    requires HoldsSound(s) && r.CreateHold?
    ensures HoldsSound(OnCreateHold(s, now, r).state)
  {
  }

  lemma NextHoldsSound(s: State, now: int, r: Request)
    requires HoldsSound(s)
    ensures HoldsSound(Handle(s, now, r).state)
  {
    if r.CreateHold? {
      NewHoldSound(s, now, r);
    } else {
      var t := Handle(s, now, r).state;
      AccountsStay(s, now, r);
      forall h | h in t.holds ensures t.holds[h].account in t.accounts && t.holds[h].amount > 0 {
        HoldsStay(s, now, r, h);
      }
    }
  }

  /** What a new account brings. */
  function Brought(s: State, r: Request): int {
    if r.CreateAccount? && IdOf(r) !in s.accounts then BalanceOf(r) else 0
  }

  /** A capture of a live hold, to be paid to an account that does not exist. */
  predicate PaysUnknown(s: State, now: int, r: Request) {
    r.CaptureHold? && Capturable(Fresh(s, now), r) && r.destination !in s.accounts
  }

  /** A request conserves money, apart from what a new account brings, if and only if it
      is not a capture that pays an account that does not exist. */
  lemma ConservedIffDestinationExists(s: State, now: int, r: Request)
    requires HoldsSound(s)
    ensures Money(Handle(s, now, r).state) == Money(s) + Brought(s, r) <==> !PaysUnknown(s, now, r)
  {
    var o := Handle(s, now, r);
    Effect(s, now, r);
    if r.CreateAccount? {
      CreateEffect(s, r);
      if IdOf(r) !in s.accounts {
        OpenMoney(s, o.state, IdOf(r), BalanceOf(r));
      }
    } else if r.CaptureHold? {
      CaptureEffect(s, now, r);
      if Capturable(Fresh(s, now), r) {
        MoveMoney(s, o.state, s.holds[r.hold].account, r.destination, o.reply.amount);
      }
    } else if Transfers(s, r, o.reply) {
      MoveMoney(s, o.state, r.source, r.target, r.amount);
    }
  }

  // ----- holds are covered -----

  /** The live holds on every account are covered by its balance. */
  ghost predicate Solvent(s: State, now: int) {
    forall id :: id in s.accounts ==> OnHold(s.holds, id, now) <= s.accounts[id].balance
  }

  lemma {:induction false} TotalOfPart(part: map<Id, int>, all: map<Id, int>)
    requires forall k :: k in part ==> k in all && all[k] == part[k]
    requires forall k :: k in all ==> all[k] >= 0
    ensures 0 <= Total(part) <= Total(all)
    decreases |all|
  {
    if all != map[] {
      var k :| k in all;
      TotalPick(all, k);
      if k in part {
        TotalPick(part, k);
        TotalOfPart(part - {k}, all - {k});
      } else {
        TotalOfPart(part, all - {k});
      }
    }
  }

  /** As time goes by holds run out, and only that. */
  lemma TimeFreesHolds(s: State, before: int, now: int)
    requires HoldsSound(s) && before <= now && Solvent(s, before)
    ensures Solvent(s, now)
  {
    forall id | id in s.accounts ensures OnHold(s.holds, id, now) <= s.accounts[id].balance {
      TotalOfPart(LiveHolds(s.holds, id, now), LiveHolds(s.holds, id, before));
    }
  }

  lemma FreshKeepsHolds(holds: map<Id, Hold>, account: Id, now: int)
    ensures OnHold(Refreshed(holds, now), account, now) == OnHold(holds, account, now)
  {
    assert LiveHolds(Refreshed(holds, now), account, now) == LiveHolds(holds, account, now);
  }

  lemma NewHold(holds: map<Id, Hold>, h: Id, hold: Hold, account: Id, now: int)
    requires h !in holds
    ensures OnHold(holds[h := hold], account, now) == OnHold(holds, account, now) + if Live(hold, account, now) then hold.amount else 0
  {
    if Live(hold, account, now) {
      assert LiveHolds(holds[h := hold], account, now) == LiveHolds(holds, account, now)[h := hold.amount];
      TotalUpdate(LiveHolds(holds, account, now), h, hold.amount);
    } else {
      assert LiveHolds(holds[h := hold], account, now) == LiveHolds(holds, account, now);
    }
  }

  lemma SettledHold(holds: map<Id, Hold>, h: Id, status: Status, account: Id, now: int)
    requires h in holds && status != Active
    ensures OnHold(holds[h := holds[h].(status := status)], account, now) ==
            OnHold(holds, account, now) - if Live(holds[h], account, now) then holds[h].amount else 0
  {
    var live := LiveHolds(holds, account, now);
    assert LiveHolds(holds[h := holds[h].(status := status)], account, now) == live - {h};
    if h in live {
      TotalPick(live, h);
    } else {
      assert live - {h} == live;
    }
  }

  lemma NoHoldsYet(s: State, id: Id, now: int)
    requires HoldsSound(s) && id !in s.accounts
    ensures OnHold(s.holds, id, now) == 0
  {
    assert LiveHolds(s.holds, id, now) == map[];
  }

  lemma FreshSolvent(s: State, now: int)
    requires Solvent(s, now)
    ensures Solvent(Fresh(s, now), now)
  {
    forall id | id in s.accounts ensures OnHold(Refreshed(s.holds, now), id, now) <= s.accounts[id].balance {
      FreshKeepsHolds(s.holds, id, now);
    }
  }

  lemma TransferSolvent(s: State, now: int, r: Request)
    requires r.Transfer? && Solvent(s, now)
    ensures Solvent(OnTransfer(s, now, r).state, now)
  {
    FreshSolvent(s, now);
    TransferEffect(s, now, r);
    var o := OnTransfer(s, now, r);
    if Transfers(s, r, o.reply) {
      forall id | id in o.state.accounts ensures OnHold(o.state.holds, id, now) <= o.state.accounts[id].balance {
        assert OnHold(Fresh(s, now).holds, id, now) <= s.accounts[id].balance;
      }
    }
  }

  lemma CreateHoldSolvent(s: State, now: int, r: Request)
    requires r.CreateHold? && Solvent(s, now)
    ensures Solvent(OnCreateHold(s, now, r).state, now)
  {
    FreshSolvent(s, now);
    var t := OnCreateHold(s, now, r).state;
    forall id | id in t.accounts ensures OnHold(t.holds, id, now) <= t.accounts[id].balance {
      if r.freshId !in Refreshed(s.holds, now) {
        NewHold(Refreshed(s.holds, now), r.freshId, Hold(r.account, r.amount, r.currency, Active, r.expiresAt), id, now);
      }
    }
  }

  lemma CaptureSolvent(s: State, now: int, r: Request)
    requires r.CaptureHold? && Solvent(s, now)
    ensures Solvent(OnCaptureHold(s, now, r).state, now)
  {
    FreshSolvent(s, now);
    CaptureEffect(s, now, r);
    var o := OnCaptureHold(s, now, r);
    if o.reply.HoldCaptured? {
      forall id | id in o.state.accounts ensures OnHold(o.state.holds, id, now) <= o.state.accounts[id].balance {
        SettledHold(Refreshed(s.holds, now), r.hold, Captured, id, now);
      }
    }
  }

  lemma VoidSolvent(s: State, now: int, r: Request)
    requires r.VoidHold? && HoldsSound(s) && Solvent(s, now)
    ensures Solvent(OnVoidHold(s, now, r).state, now)
  {
    FreshSolvent(s, now);
    var t := OnVoidHold(s, now, r).state;
    forall id | id in t.accounts ensures OnHold(t.holds, id, now) <= t.accounts[id].balance {
      if r.hold in Refreshed(s.holds, now) {
        SettledHold(Refreshed(s.holds, now), r.hold, Voided, id, now);
      }
    }
  }

  /** A request for a new account with a negative balance. */
  predicate OpensBelowZero(s: State, r: Request) {
    r.CreateAccount? && BalanceOf(r) < 0 && IdOf(r) !in s.accounts
  }

  lemma CreateSolventIff(s: State, now: int, r: Request)
    requires r.CreateAccount? && HoldsSound(s) && Solvent(s, now)
    ensures Solvent(OnCreateAccount(s, r).state, now) <==> !OpensBelowZero(s, r)
  {
    CreateEffect(s, r);
    if IdOf(r) !in s.accounts {
      NoHoldsYet(s, IdOf(r), now);
    }
  }

  /** A request keeps all holds covered if and only if it does not open an account below zero. */
  lemma SolventIffNotOverdrawn(s: State, now: int, r: Request)
    requires HoldsSound(s) && Solvent(s, now)
    ensures Solvent(Handle(s, now, r).state, now) <==> !OpensBelowZero(s, r)
  {
    match r
    case CreateAccount(_, _, _, _, _) => CreateSolventIff(s, now, r);
    case GetAccount(_) => FreshSolvent(s, now);
    case Transfer(_, _, _, _, _, _) => TransferSolvent(s, now, r);
    case CreateHold(_, _, _, _, _) => CreateHoldSolvent(s, now, r);
    case CaptureHold(_, _, _) => CaptureSolvent(s, now, r);
    case VoidHold(_) => VoidSolvent(s, now, r);
  }

  // ----- all runs -----

  lemma {:induction false} RunIsSound(calls: seq<Call>)
    ensures var w := Run(calls);
            HoldsSound(w.state) && DoubleEntry(w.state) && Explained(w.state, w.openings) && Accounted(w)
  {
    if calls == [] {
      assert Balances(map[]) == map[] && OpeningBalances(map[]) == map[];
    } else {
      var before, c := calls[..|calls| - 1], calls[|calls| - 1];
      RunIsSound(before);
      var w := Run(before);
      NextHoldsSound(w.state, c.now, c.request);
      NextKeepsDoubleEntry(w.state, c.now, c.request);
      NextExplained(w, c);
      NextAccounted(w, c);
    }
  }

  /** After any requests: the rows of every transaction sum to zero; every balance is its opening
      balance and the rows since; and the accounts together hold what they were opened with, except
      for what was captured to accounts that did not exist. */
  lemma LedgerBalances(calls: seq<Call>)
    ensures var w := Run(calls);
            && (forall t: nat :: t < |w.state.transactions| ==> SumOf(w.state.entries, t) == 0)
            && w.state.accounts.Keys == w.openings.Keys
            && (forall id :: id in w.openings ==>
                  && w.openings[id].at <= |w.state.entries|
                  && w.state.accounts[id].balance == w.openings[id].balance + SumFor(w.state.entries[w.openings[id].at..], id))
            && Money(w.state) == Total(OpeningBalances(w.openings)) - w.lost
  {
    RunIsSound(calls);
  }

  lemma LostNext(w: World, c: Call)
    requires HoldsSound(w.state)
    ensures w.lost <= Next(w, c).lost
    ensures Next(w, c).lost == w.lost <==> !PaysUnknown(w.state, c.now, c.request)
  {
    if c.request.CaptureHold? {
      CaptureEffect(w.state, c.now, c.request);
    }
  }

  ghost predicate PaysUnknownAt(calls: seq<Call>, i: nat)
    requires i < |calls|
  {
    PaysUnknown(Before(calls, i), calls[i].now, calls[i].request)
  }

  ghost predicate NeverPaysUnknown(calls: seq<Call>) {
    forall i: nat :: i < |calls| ==> !PaysUnknownAt(calls, i)
  }

  lemma SameInPrefix(calls: seq<Call>, n: nat, i: nat)
    requires i < n <= |calls|
    ensures PaysUnknownAt(calls[..n], i) <==> PaysUnknownAt(calls, i)
  {
    assert calls[..n][..i] == calls[..i];
  }

  lemma NeverPaysNext(calls: seq<Call>, n: nat)
    requires n + 1 == |calls|
    ensures NeverPaysUnknown(calls) <==> NeverPaysUnknown(calls[..n]) && !PaysUnknownAt(calls, n)
  {
    forall i: nat | i < n ensures PaysUnknownAt(calls[..n], i) <==> PaysUnknownAt(calls, i) {
      SameInPrefix(calls, n, i);
    }
  }

  lemma LostAtEnd(calls: seq<Call>, n: nat)
    requires n + 1 == |calls|
    ensures Run(calls[..n]).lost <= Run(calls).lost
    ensures Run(calls).lost == Run(calls[..n]).lost <==> !PaysUnknownAt(calls, n)
  {
    RunIsSound(calls[..n]);
    LostNext(Run(calls[..n]), calls[n]);
  }

  lemma {:induction false} LostIff(calls: seq<Call>)
    ensures Run(calls).lost >= 0 && (Run(calls).lost == 0 <==> NeverPaysUnknown(calls))
  {
    if calls != [] {
      var n := |calls| - 1;
      var before := calls[..n];
      LostIff(before);
      LostAtEnd(calls, n);
      NeverPaysNext(calls, n);
    }
  }

  /** The accounts together hold what they were opened with if and only if no capture of the run paid an account
      that did not exist when it was made. */
  lemma RunConservesIff(calls: seq<Call>)
    ensures Money(Run(calls).state) == Total(OpeningBalances(Run(calls).openings)) <==> NeverPaysUnknown(calls)
  {
    RunIsSound(calls);
    LostIff(calls);
  }

  predicate ClockRuns(calls: seq<Call>) {
    forall i, j :: 0 <= i <= j < |calls| ==> calls[i].now <= calls[j].now
  }

  predicate OpenedAboveZero(calls: seq<Call>) {
    forall i :: 0 <= i < |calls| && calls[i].request.CreateAccount? && calls[i].request.initialBalance.Some?
      ==> calls[i].request.initialBalance.value >= 0
  }

  /** When no account is opened below zero and the clock does not run backwards, the live holds
      on each account are covered by its balance, from the last request on. */
  lemma {:induction false} HoldsAreCovered(calls: seq<Call>, now: int)
    requires ClockRuns(calls) && OpenedAboveZero(calls) && (calls != [] ==> calls[|calls| - 1].now <= now)
    ensures Solvent(Run(calls).state, now)
  {
    if calls != [] {
      var before, c := calls[..|calls| - 1], calls[|calls| - 1];
      HoldsAreCovered(before, c.now);
      RunIsSound(before);
      RunIsSound(calls);
      var s := Run(before).state;
      SolventIffNotOverdrawn(s, c.now, c.request);
      TimeFreesHolds(Run(calls).state, c.now, now);
    }
  }

  ghost predicate CoveredAfter(calls: seq<Call>, n: nat)
    requires 0 < n <= |calls|
  {
    Solvent(Run(calls[..n]).state, calls[n - 1].now)
  }

  predicate Creates(r: Request, id: Id) {
    r.CreateAccount? && IdOf(r) == id
  }

  /** A request for an account with a negative balance, under an id that no request has asked for before. */
  predicate OverdrawnAt(calls: seq<Call>, i: nat)
    requires i < |calls|
  {
    var r := calls[i].request;
    r.CreateAccount? && BalanceOf(r) < 0 && forall j: nat :: j < i ==> !Creates(calls[j].request, IdOf(r))
  }

  /** Handling a request adds the account it creates, and no other. */
  lemma NextAccounts(s: State, now: int, r: Request, id: Id)
    ensures id in Handle(s, now, r).state.accounts <==> id in s.accounts || Creates(r, id)
  {
    Effect(s, now, r);
    if r.CreateAccount? {
      CreateEffect(s, r);
    }
  }

  /** The accounts are those that requests have created. */
  lemma {:induction false} AccountsAreCreated(calls: seq<Call>, n: nat, id: Id)
    requires n <= |calls|
    ensures id in Run(calls[..n]).state.accounts <==> exists j: nat :: j < n && Creates(calls[j].request, id)
  {
    if n > 0 {
      assert calls[..n][..n - 1] == calls[..n - 1];
      AccountsAreCreated(calls, n - 1, id);
      NextAccounts(Run(calls[..n - 1]).state, calls[n - 1].now, calls[n - 1].request, id);
    }
  }

  /** One more request, after requests that left all holds covered. */
  lemma CoveredNext(calls: seq<Call>, i: nat)
    requires ClockRuns(calls) && i < |calls| && (i > 0 ==> CoveredAfter(calls, i))
    ensures CoveredAfter(calls, i + 1) <==> !OverdrawnAt(calls, i)
  {
    var s := Before(calls, i);
    RunIsSound(calls[..i]);
    assert calls[..i + 1][..i] == calls[..i];
    if i > 0 {
      TimeFreesHolds(s, calls[i - 1].now, calls[i].now);
    } else {
      assert calls[..0] == [];
    }
    SolventIffNotOverdrawn(s, calls[i].now, calls[i].request);
    if calls[i].request.CreateAccount? {
      AccountsAreCreated(calls, i, IdOf(calls[i].request));
    }
  }

  lemma {:induction false} CoveredUpTo(calls: seq<Call>, n: nat)
    requires ClockRuns(calls) && n <= |calls| && forall i: nat :: i < n ==> !OverdrawnAt(calls, i)
    ensures n > 0 ==> CoveredAfter(calls, n)
  {
    if n > 0 {
      CoveredUpTo(calls, n - 1);
      CoveredNext(calls, n - 1);
    }
  }

  /** All holds are covered after every request of a run if and only if no request opens an account below zero. */
  lemma AlwaysCoveredIff(calls: seq<Call>)
    requires ClockRuns(calls)
    ensures (forall n: nat :: 0 < n <= |calls| ==> CoveredAfter(calls, n)) <==> (forall i: nat :: i < |calls| ==> !OverdrawnAt(calls, i))
  {
    if forall n: nat :: 0 < n <= |calls| ==> CoveredAfter(calls, n) {
      forall i: nat | i < |calls| ensures !OverdrawnAt(calls, i) {
        assert CoveredAfter(calls, i + 1);
        CoveredNext(calls, i);
      }
    }
    if forall i: nat :: i < |calls| ==> !OverdrawnAt(calls, i) {
      forall n: nat | 0 < n <= |calls| ensures CoveredAfter(calls, n) {
        CoveredUpTo(calls, n);
      }
    }
  }

  // ----- the failing requests can be made -----

  lemma FirstCall(c: Call)
    ensures Run([c]) == Next(Start, c)
  {
    assert [c][..0] == [];
  }

  lemma NextCall(calls: seq<Call>, c: Call)
    ensures Run(calls + [c]) == Next(Run(calls), c)
  {
    assert (calls + [c])[..|calls|] == calls;
  }

  /** The first request can open an account below zero. */
  lemma OpenedBelowZeroIsUncovered(now: int)
    ensures var calls := [Call(now, CreateAccount(Some("a"), "x", "t", "EUR", Some(-1)))];
            !Solvent(Run(calls).state, now)
  {
    var c := Call(now, CreateAccount(Some("a"), "x", "t", "EUR", Some(-1)));
    FirstCall(c);
    SolventIffNotOverdrawn(Start.state, now, c.request);
  }

  /** An account is opened, all its money put on hold, and the hold captured for an account nobody has: no money is left. */
  lemma CaptureForUnknownLoses(now: int, amount: int)
    requires amount > 0
    ensures var start := [Call(now, CreateAccount(Some("a"), "x", "t", "EUR", Some(amount)))];
            var held := start + [Call(now, CreateHold("h", "a", amount, "EUR", now + 1))];
            var captured := held + [Call(now, CaptureHold("h", "b", None))];
            Money(Run(held).state) == amount && Money(Run(captured).state) == 0
  {
    var create := Call(now, CreateAccount(Some("a"), "x", "t", "EUR", Some(amount)));
    var hold := Call(now, CreateHold("h", "a", amount, "EUR", now + 1));
    var capture := Call(now, CaptureHold("h", "b", None));
    var start := [create];
    FirstCall(create);
    assert Balances(map[]) == map[];
    OpenMoney(Start.state, Run(start).state, "a", amount);
    NextCall(start, hold);
    HoldIsPlaced(Run(start).state, now, hold.request);
    NextCall(start + [hold], capture);
    var s := Run(start + [hold]).state;
    CaptureEffect(s, now, capture.request);
    MoveMoney(s, Run(start + [hold] + [capture]).state, "a", "b", amount);
  }

  lemma HoldIsPlaced(s: State, now: int, r: Request)
    requires r.CreateHold? && s.holds == map[] && r.account in s.accounts && 0 < r.amount <= s.accounts[r.account].balance
    ensures Handle(s, now, r).state == s.(holds := map[r.freshId := Hold(r.account, r.amount, r.currency, Active, r.expiresAt)])
  {
    assert Refreshed(s.holds, now) == map[];
    assert LiveHolds(map[], r.account, now) == map[];
  }

  // ----- exactly once -----

  ghost function Before(calls: seq<Call>, i: nat): State
    requires i <= |calls|
  {
    Run(calls[..i]).state
  }

  ghost function ReplyTo(calls: seq<Call>, i: nat): Reply
    requires i < |calls|
  {
    Handle(Before(calls, i), calls[i].now, calls[i].request).reply
  }

  /** The call at `j` is a transfer with the key and tenant of `r`, and succeeds. */
  ghost predicate Succeeds(calls: seq<Call>, j: nat, r: Request)
    requires j < |calls|
  {
    Keyed(r) && Keyed(calls[j].request) && KeyOf(calls[j].request) == KeyOf(r) && ReplyTo(calls, j).Transferred?
  }

  /** Every success is stored, with its body's digest and its reply. */
  ghost predicate Remembered(calls: seq<Call>) {
    forall j: nat :: j < |calls| && Succeeds(calls, j, calls[j].request) ==>
      var key := KeyOf(calls[j].request);
      key in Run(calls).state.keys && Run(calls).state.keys[key] == Stored(calls[j].request.hash, ReplyTo(calls, j))
  }

  lemma HandleKeys(s: State, now: int, r: Request)
    ensures var o := Handle(s, now, r);
            && (forall k :: k in s.keys ==> k in o.state.keys && o.state.keys[k] == s.keys[k])
            && (Keyed(r) && !Seen(s, r) && o.reply.Transferred? ==>
                  KeyOf(r) in o.state.keys && o.state.keys[KeyOf(r)] == Stored(r.hash, o.reply))
  {
  }

  lemma {:induction false} RunRemembers(calls: seq<Call>)
    ensures Remembered(calls)
  {
    if calls != [] {
      var n := |calls| - 1;
      var before, c := calls[..n], calls[n];
      RunRemembers(before);
      HandleKeys(Run(before).state, c.now, c.request);
      forall j: nat | j < |calls| && Succeeds(calls, j, calls[j].request)
        ensures var key := KeyOf(calls[j].request);
                key in Run(calls).state.keys && Run(calls).state.keys[key] == Stored(calls[j].request.hash, ReplyTo(calls, j))
      {
        if j < n {
          assert before[..j] == calls[..j];
          assert Succeeds(before, j, before[j].request);
        }
      }
    }
  }

  lemma SuccessIsSeen(calls: seq<Call>, i: nat, j: nat)
    requires j < i < |calls| && Succeeds(calls, j, calls[i].request)
    ensures Seen(Before(calls, i), calls[i].request)
    ensures Before(calls, i).keys[KeyOf(calls[i].request)] == Stored(calls[j].request.hash, ReplyTo(calls, j))
  {
    var before := calls[..i];
    RunRemembers(before);
    assert before[..j] == calls[..j];
    assert Succeeds(before, j, before[j].request);
  }

  /** After a success, a transfer with the same key and tenant gets the stored reply if its body is
      the same, and is refused otherwise. */
  lemma RetryIsAnswered(calls: seq<Call>, i: nat, j: nat)
    requires j < i < |calls| && Succeeds(calls, j, calls[i].request)
    ensures ReplyTo(calls, i) == if calls[i].request.hash == calls[j].request.hash then ReplyTo(calls, j) else Failed(422)
  {
    SuccessIsSeen(calls, i, j);
  }

  /** Each key of a tenant moves money at most once. */
  lemma AtMostOnce(calls: seq<Call>, i: nat, j: nat)
    requires j <= i < |calls| && Succeeds(calls, j, calls[i].request)
    requires Transfers(Before(calls, i), calls[i].request, ReplyTo(calls, i))
    ensures i == j
  {
    if j < i {
      SuccessIsSeen(calls, i, j);
    }
  }

  ghost predicate IsRetry(calls: seq<Call>, r: Request) {
    exists j: nat :: j < |calls| && Succeeds(calls, j, r)
  }

  /** The calls without the transfers that come after a success with the same key and tenant. */
  ghost function WithoutRetries(calls: seq<Call>): seq<Call> {
    if calls == [] then []
    else
      var before, c := calls[..|calls| - 1], calls[|calls| - 1];
      if IsRetry(before, c.request) then WithoutRetries(before) else WithoutRetries(before) + [c]
  }

  lemma SeenChangesNothing(w: World, c: Call)
    requires Seen(w.state, c.request)
    ensures Next(w, c) == w
  {
  }

  lemma SuccessInPrefix(calls: seq<Call>, n: nat, j: nat, r: Request)
    requires j < n <= |calls| && Succeeds(calls[..n], j, r)
    ensures Succeeds(calls, j, r)
  {
    assert calls[..n][..j] == calls[..j];
  }

  lemma RetryChangesNothing(calls: seq<Call>, n: nat)
    requires n == |calls| - 1 && IsRetry(calls[..n], calls[n].request)
    ensures Run(calls) == Run(calls[..n])
  {
    assert Seen(Before(calls, n), calls[n].request) by {
      var j: nat :| j < n && Succeeds(calls[..n], j, calls[n].request);
      SuccessInPrefix(calls, n, j, calls[n].request);
      SuccessIsSeen(calls, n, j);
    }
    SeenChangesNothing(Run(calls[..n]), calls[n]);
  }

  /** Retries leave no trace: accounts, holds, ledger and keys are as if they had never been made. */
  lemma {:induction false} RetriesLeaveNoTrace(calls: seq<Call>)
    ensures Run(WithoutRetries(calls)) == Run(calls)
  {
    if calls != [] {
      var n := |calls| - 1;
      var before, kept := calls[..n], WithoutRetries(calls[..n]);
      RetriesLeaveNoTrace(before);
      if IsRetry(before, calls[n].request) {
        RetryChangesNothing(calls, n);
      } else {
        assert (kept + [calls[n]])[..|kept|] == kept;
      }
    }
  }
}
