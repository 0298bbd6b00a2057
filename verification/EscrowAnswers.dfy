/** What requests answer and do, in terms of the rows before them. */
module EscrowAnswers {
  import opened Options
  import opened EscrowLedger
  import opened EscrowSafety

  // ----- the sum over the holds -----

  /** The amounts on hold on an account, hold by hold. */
  function HeldAmount(holds: map<Id, Hold>, ids: seq<Id>, account: Id, now: int): int {
    if ids == [] then 0
    else
      var h := ids[|ids| - 1];
      HeldAmount(holds, ids[..|ids| - 1], account, now)
      + if h in holds && holds[h].status == Active && holds[h].expiresAt > now && holds[h].account == account then holds[h].amount else 0
  }

  /** The ids of all holds, each once. */
  ghost predicate ListsAll(ids: seq<Id>, holds: map<Id, Hold>) {
    (forall h :: h in ids <==> h in holds) && forall i, j :: 0 <= i < j < |ids| ==> ids[i] != ids[j]
  }

  lemma {:induction false} OthersDoNotCount(holds: map<Id, Hold>, ids: seq<Id>, gone: Id, account: Id, now: int)
    requires gone !in ids
    ensures HeldAmount(holds - {gone}, ids, account, now) == HeldAmount(holds, ids, account, now)
  {
    if ids != [] {
      OthersDoNotCount(holds, ids[..|ids| - 1], gone, account, now);
    }
  }

  lemma WithoutOne(holds: map<Id, Hold>, h: Id, account: Id, now: int)
    requires h in holds
    ensures OnHold(holds, account, now) == OnHold(holds - {h}, account, now)
            + if holds[h].status == Active && holds[h].expiresAt > now && holds[h].account == account then holds[h].amount else 0
  {
    var live := LiveHolds(holds, account, now);
    assert LiveHolds(holds - {h}, account, now) == live - {h};
    if h in live {
      TotalPick(live, h);
    } else {
      assert live - {h} == live;
    }
  }

  /** What the source sums with SUM(amount) is the sum over the account's active holds that have not run out. */
  lemma {:induction false} OnHoldIsSum(holds: map<Id, Hold>, ids: seq<Id>, account: Id, now: int)
    requires ListsAll(ids, holds)
    ensures OnHold(holds, account, now) == HeldAmount(holds, ids, account, now)
    decreases |ids|
  {
    if ids == [] {
      assert LiveHolds(holds, account, now) == map[];
    } else {
      var n := |ids| - 1;
      var h, rest := ids[n], ids[..n];
      assert h in ids && h !in rest;
      forall x ensures x in rest <==> x in holds - {h} {
        if x in holds && x != h {
          assert x in ids;
        }
      }
      OnHoldIsSum(holds - {h}, rest, account, now);
      WithoutOne(holds, h, account, now);
      OthersDoNotCount(holds, rest, h, account, now);
    }
  }

  /** The balance less the account's holds, hold by hold. */
  function Spendable(s: State, ids: seq<Id>, account: Id, now: int): int
    requires account in s.accounts
  {
    s.accounts[account].balance - HeldAmount(s.holds, ids, account, now)
  }

  lemma FreshSpendable(s: State, ids: seq<Id>, account: Id, now: int)
    requires account in s.accounts && ListsAll(ids, s.holds)
    ensures Available(Fresh(s, now), account, now) == Spendable(s, ids, account, now)
  {
    FreshKeepsHolds(s.holds, account, now);
    OnHoldIsSum(s.holds, ids, account, now);
  }

  // ----- accounts -----

  /** One transaction was written, with two ledger rows. */
  predicate Journaled(s: State, t: State, tenant: string, reference: string, first: Id, amount: int, second: Id, counter: int) {
    && t.transactions == s.transactions + [Transaction(tenant, reference)]
    && t.entries == s.entries + [Entry(|s.transactions|, first, amount), Entry(|s.transactions|, second, counter)]
  }

  /** An account is opened with the balance asked for, zero if none is, under the id asked for, or a made-up one if none or
      an empty one is; it is refused if and only if that id is taken. */
  lemma CreateIffNew(s: State, now: int, r: Request)
    requires r.CreateAccount?
    ensures var o := Handle(s, now, r);
            var id := if r.id == None || r.id == Some("") then r.freshId else r.id.value;
            var balance := if r.initialBalance == None then 0 else r.initialBalance.value;
            && o.reply == (if id in s.accounts then Failed(500) else Opened(id, balance))
            && o.state.accounts == (if id in s.accounts then s.accounts else s.accounts[id := Account(r.tenant, r.currency, balance)])
            && o.state.holds == s.holds
            && (if id !in s.accounts && balance > 0 then Journaled(s, o.state, r.tenant, "initial_deposit", id, balance, id, -balance)
                else o.state.transactions == s.transactions && o.state.entries == s.entries)
  {
  }

  /** GetAccount answers with the account as it is and what is spendable, and moves nothing. */
  lemma AccountIsDescribed(s: State, now: int, account: Id, ids: seq<Id>)
    requires ListsAll(ids, s.holds)
    ensures var o := Handle(s, now, GetAccount(account));
            && Untouched(s, o.state)
            && o.reply == if account in s.accounts then Described(s.accounts[account], Spendable(s, ids, account, now)) else Failed(404)
  {
    if account in s.accounts {
      FreshSpendable(s, ids, account, now);
    }
  }

  // ----- transfers -----

  /** The source has less, the target more, and all else about the accounts is as before. */
  ghost predicate Paid(before: map<Id, Account>, after: map<Id, Account>, source: Id, target: Id, amount: int) {
    && after.Keys == before.Keys
    && forall id :: id in before ==>
         after[id] == before[id].(balance := before[id].balance - (if id == source then amount else 0) + (if id == target then amount else 0))
  }

  lemma CreditedPays(accounts: map<Id, Account>, source: Id, target: Id, amount: int)
    ensures Paid(accounts, Credited(Credited(accounts, source, -amount), target, amount), source, target, amount)
  {
  }

  /** A transfer that is not a replay moves its amount if and only if that is positive and at most what is spendable
      at the source, and both accounts exist; otherwise it answers 400 and moves nothing. */
  lemma TransferIffCovered(s: State, now: int, r: Request, ids: seq<Id>)
    requires r.Transfer? && !Seen(s, r) && ListsAll(ids, s.holds)
    ensures var o := Handle(s, now, r);
            var moves := r.source in s.accounts && r.target in s.accounts && 0 < r.amount <= Spendable(s, ids, r.source, now);
            && o.reply == (if moves then Transferred(|s.transactions|, r.amount) else Failed(400))
            && (!moves ==> Untouched(s, o.state))
  {
    if r.source in s.accounts {
      FreshSpendable(s, ids, r.source, now);
    }
  }

  lemma TransferPays(s: State, now: int, r: Request)
    requires r.Transfer? && !Seen(s, r) && Handle(s, now, r).reply.Transferred?
    ensures var t := Handle(s, now, r).state;
            && Paid(s.accounts, t.accounts, r.source, r.target, r.amount)
            && Journaled(s, t, r.tenant, "transfer", r.source, -r.amount, r.target, r.amount)
  {
    CreditedPays(s.accounts, r.source, r.target, r.amount);
  }

  /** GetAccount's number is exactly what can still be spent at that moment. */
  lemma AvailableCanBeSpent(s: State, now: int, account: Id, r: Request)
    requires account in s.accounts && r.Transfer? && !Seen(s, r) && r.source == account && r.target in s.accounts
    ensures Handle(s, now, GetAccount(account)).reply.Described?
    ensures Handle(s, now, r).reply.Transferred? <==> 0 < r.amount <= Handle(s, now, GetAccount(account)).reply.available
  {
  }

  // ----- new holds -----

  /** A hold is placed if and only if its amount is positive and spendable; it is then live until it runs out. */
  lemma HoldIffCovered(s: State, now: int, r: Request, ids: seq<Id>)
    requires r.CreateHold? && ListsAll(ids, s.holds)
    ensures var o := Handle(s, now, r);
            var covered := r.account in s.accounts && 0 < r.amount <= Spendable(s, ids, r.account, now);
            && o.reply == (if r.account !in s.accounts then Failed(404)
                           else if !covered then Failed(400)
                           else if r.freshId in s.holds then Failed(500)
                           else HoldPlaced(r.freshId, r.amount, r.expiresAt))
            && (o.reply.HoldPlaced? ==>
                  && o.state.holds.Keys == s.holds.Keys + {r.freshId}
                  && o.state.holds[r.freshId] == Hold(r.account, r.amount, r.currency, Active, r.expiresAt))
            && Untouched(s, o.state)
  {
    if r.account in s.accounts {
      FreshSpendable(s, ids, r.account, now);
    }
  }

  // ----- settling a hold -----

  /** The hold is active and has not run out. */
  predicate Unsettled(s: State, now: int, h: Id) {
    h in s.holds && s.holds[h].status == Active && s.holds[h].expiresAt > now
  }

  /** The hold is no longer live, and its amount is free again on its own account and no other. */
  ghost predicate Freed(s: State, t: State, now: int, h: Id)
    requires h in s.holds
  {
    && h in t.holds && t.holds[h].status != Active
    && forall id :: OnHold(t.holds, id, now) == OnHold(s.holds, id, now) - if id == s.holds[h].account then s.holds[h].amount else 0
  }

  lemma SettlingFrees(s: State, now: int, h: Id, status: Status)
    requires Unsettled(s, now, h) && status != Active
    ensures var r := Refreshed(s.holds, now);
            h in r && Freed(s, s.(holds := r[h := r[h].(status := status)]), now, h)
  {
    var r := Refreshed(s.holds, now);
    forall id ensures OnHold(r[h := r[h].(status := status)], id, now)
                      == OnHold(s.holds, id, now) - if id == s.holds[h].account then s.holds[h].amount else 0
    {
      FreshKeepsHolds(s.holds, id, now);
      SettledHold(r, h, status, id, now);
    }
  }

  /** A void succeeds if and only if the hold is there, active and has not run out. Its amount is then free again. */
  lemma VoidIff(s: State, now: int, r: Request)
    requires r.VoidHold?
    ensures var o := Handle(s, now, r);
            && o.reply == (if Unsettled(s, now, r.hold) then HoldVoided else Failed(409))
            && Untouched(s, o.state)
            && (o.reply.HoldVoided? ==> r.hold in o.state.holds && o.state.holds[r.hold].status == Voided && Freed(s, o.state, now, r.hold))
  {
    if Unsettled(s, now, r.hold) {
      SettlingFrees(s, now, r.hold, Voided);
      assert Handle(s, now, r).state.holds == Refreshed(s.holds, now)[r.hold := Refreshed(s.holds, now)[r.hold].(status := Voided)];
    }
  }

  /** A capture succeeds if and only if the hold is there, active and has not run out, and the amount asked for is
      positive and no more than the hold's. */
  lemma CaptureIff(s: State, now: int, r: Request)
    requires r.CaptureHold?
    ensures var o := Handle(s, now, r);
            var asked := if r.captureAmount.Some? then r.captureAmount.value else if r.hold in s.holds then s.holds[r.hold].amount else 0;
            && o.reply == (if r.hold !in s.holds then Failed(404)
                           else if !Unsettled(s, now, r.hold) then Failed(409)
                           else if !(0 < asked <= s.holds[r.hold].amount) then Failed(400)
                           else HoldCaptured(asked))
            && (!o.reply.HoldCaptured? ==> Untouched(s, o.state))
  {
  }

  /** The hold is then settled, and the amount paid. */
  lemma CapturePays(s: State, now: int, r: Request)
    requires r.CaptureHold? && Handle(s, now, r).reply.HoldCaptured?
    ensures var o := Handle(s, now, r);
            && Unsettled(s, now, r.hold) && r.hold in o.state.holds && o.state.holds[r.hold].status == Captured
            && Freed(s, o.state, now, r.hold)
            && Paid(s.accounts, o.state.accounts, s.holds[r.hold].account, r.destination, o.reply.amount)
            && Journaled(s, o.state, "system", "hold_capture", s.holds[r.hold].account, -o.reply.amount, r.destination, o.reply.amount)
  {
    CaptureIff(s, now, r);
    CaptureEffect(s, now, r);
    CreditedPays(s.accounts, s.holds[r.hold].account, r.destination, Handle(s, now, r).reply.amount);
    SettlingFrees(s, now, r.hold, Captured);
  }

  /** Other holds are as before, but for those that a request finds to have run out: an active one becomes expired if
      and only if its time has come and the request is neither a new account nor a replay. */
  lemma OtherHoldsOnlyExpire(s: State, now: int, r: Request, h: Id)
    requires h in s.holds && !((r.CaptureHold? || r.VoidHold?) && r.hold == h)
    ensures var t := Handle(s, now, r).state;
            var expires := s.holds[h].status == Active && s.holds[h].expiresAt <= now && !r.CreateAccount? && !Seen(s, r);
            h in t.holds && t.holds[h] == if expires then s.holds[h].(status := Expired) else s.holds[h]
  {
  }

  // ----- settled once -----

  predicate OnHoldId(r: Request, h: Id) {
    (r.CaptureHold? || r.VoidHold?) && r.hold == h
  }

  /** The call captures or voids the hold. */
  ghost predicate Settles(calls: seq<Call>, i: nat, h: Id)
    requires i < |calls|
  {
    OnHoldId(calls[i].request, h) && (ReplyTo(calls, i).HoldCaptured? || ReplyTo(calls, i).HoldVoided?)
  }

  ghost predicate Settled(s: State, h: Id) {
    h in s.holds && s.holds[h].status != Active
  }

  lemma StaysSettled(s: State, now: int, r: Request, h: Id)
    requires Settled(s, h)
    ensures h in Handle(s, now, r).state.holds && Handle(s, now, r).state.holds[h] == s.holds[h]
  {
  }

  lemma SettledIsRefused(s: State, now: int, r: Request, h: Id)
    requires Settled(s, h) && OnHoldId(r, h)
    ensures Handle(s, now, r).reply == Failed(409)
  {
  }

  lemma NextState(calls: seq<Call>, i: nat)
    requires i < |calls|
    ensures Before(calls, i + 1) == Handle(Before(calls, i), calls[i].now, calls[i].request).state
  {
    assert calls[..i + 1][..i] == calls[..i];
  }

  lemma {:induction false} SettledAfter(calls: seq<Call>, i: nat, j: nat, h: Id)
    requires i < j <= |calls| && Settles(calls, i, h)
    ensures Settled(Before(calls, j), h)
    decreases j
  {
    NextState(calls, j - 1);
    var s, c := Before(calls, j - 1), calls[j - 1];
    if j == i + 1 {
      if c.request.VoidHold? {
        VoidIff(s, c.now, c.request);
      } else {
        CapturePays(s, c.now, c.request);
      }
    } else {
      SettledAfter(calls, i, j - 1, h);
      StaysSettled(s, c.now, c.request, h);
    }
  }

  /** A hold is captured or voided once at most: after that every capture and every void of it is answered 409. */
  lemma SettledOnce(calls: seq<Call>, i: nat, j: nat, h: Id)
    requires i < j < |calls| && Settles(calls, i, h) && OnHoldId(calls[j].request, h)
    ensures ReplyTo(calls, j) == Failed(409)
  {
    SettledAfter(calls, i, j, h);
    SettledIsRefused(Before(calls, j), calls[j].now, calls[j].request, h);
  }

  // ----- which transfers are replays -----

  /** The call at `j` is a transfer with the key and the tenant of `r`, and succeeds. */
  ghost predicate SameKeySucceeds(calls: seq<Call>, j: nat, r: Request)
    requires j < |calls| && r.Transfer?
  {
    var q := calls[j].request;
    q.Transfer? && q.key == r.key && q.tenant == r.tenant && ReplyTo(calls, j).Transferred?
  }

  lemma KeysBefore(s: State, now: int, r: Request, key: string, tenant: string)
    ensures var o := Handle(s, now, r);
            (key, tenant) in o.state.keys <==>
            (key, tenant) in s.keys || (r.Transfer? && r.key == Some(key) && key != "" && r.tenant == tenant && o.reply.Transferred?)
  {
  }

  lemma StoredNext(calls: seq<Call>, i: nat, r: Request)
    requires i < |calls| && r.Transfer? && r.key.Some? && r.key.value != ""
    ensures (r.key.value, r.tenant) in Before(calls, i + 1).keys <==>
            (r.key.value, r.tenant) in Before(calls, i).keys || SameKeySucceeds(calls, i, r)
  {
    NextState(calls, i);
    KeysBefore(Before(calls, i), calls[i].now, calls[i].request, r.key.value, r.tenant);
  }

  /** A key of a tenant is stored if and only if some transfer with both has succeeded. */
  lemma {:induction false} StoredIffSucceeded(calls: seq<Call>, n: nat, r: Request)
    requires n <= |calls| && r.Transfer? && r.key.Some? && r.key.value != ""
    ensures (r.key.value, r.tenant) in Before(calls, n).keys <==> exists j: nat :: j < n && SameKeySucceeds(calls, j, r)
  {
    if n == 0 {
      assert calls[..0] == [];
    } else {
      StoredIffSucceeded(calls, n - 1, r);
      StoredNext(calls, n - 1, r);
    }
  }

  /** A transfer is answered from the store if and only if it has a key that is not empty and an earlier one with the
      same key and tenant has succeeded. Any other is decided by what its source can spend. */
  lemma FirstUseIsExecuted(calls: seq<Call>, i: nat, ids: seq<Id>)
    requires i < |calls| && calls[i].request.Transfer? && ListsAll(ids, Before(calls, i).holds)
    requires var r := calls[i].request;
             r.key == None || r.key == Some("") || forall j: nat :: j < i ==> !SameKeySucceeds(calls, j, r)
    ensures var s, r, now := Before(calls, i), calls[i].request, calls[i].now;
            ReplyTo(calls, i) ==
            if r.source in s.accounts && r.target in s.accounts && 0 < r.amount <= Spendable(s, ids, r.source, now)
            then Transferred(|s.transactions|, r.amount) else Failed(400)
  {
    var s, r := Before(calls, i), calls[i].request;
    if r.key.Some? && r.key.value != "" {
      StoredIffSucceeded(calls, i, r);
    }
    TransferIffCovered(s, calls[i].now, r, ids);
  }
}
