/** The escrow ledger: accounts, holds, double-entry rows and idempotency keys. */
module EscrowLedger {
  import opened Options

  type Id = string

  datatype Account = Account(tenant: string, currency: string, balance: int)

  datatype Status = Active | Captured | Voided | Expired

  datatype Hold = Hold(account: Id, amount: int, currency: string, status: Status, expiresAt: int)

  datatype Transaction = Transaction(tenant: string, reference: string)

  /** A row of the ledger; the transaction is given by its position. */
  datatype Entry = Entry(transaction: nat, account: Id, amount: int)

  datatype Reply =
    | Failed(code: nat)
    | Opened(id: Id, balance: int)
    | Described(account: Account, available: int)
    | Transferred(transaction: nat, amount: int)
    | HoldPlaced(id: Id, amount: int, expiresAt: int)
    | HoldCaptured(amount: int)
    | HoldVoided

  datatype Stored = Stored(hash: string, reply: Reply)

  datatype State = State(accounts: map<Id, Account>, holds: map<Id, Hold>, transactions: seq<Transaction>,
                         entries: seq<Entry>, keys: map<(string, string), Stored>)

  const Empty := State(map[], map[], [], [], map[])

  /** Ids the server makes up and the digest of the raw body come with the request. */
  datatype Request =
    | CreateAccount(id: Option<Id>, freshId: Id, tenant: string, currency: string, initialBalance: Option<int>)
    | GetAccount(account: Id)
    | Transfer(key: Option<string>, tenant: string, hash: string, source: Id, target: Id, amount: int)
    | CreateHold(freshId: Id, account: Id, amount: int, currency: string, expiresAt: int)
    | CaptureHold(hold: Id, destination: Id, captureAmount: Option<int>)
    | VoidHold(hold: Id)

  datatype Outcome = Outcome(state: State, reply: Reply)

  // ----- sums -----

  /** The sum of the values of a map. */
  ghost function Total(m: map<Id, int>): int {
    if m == map[] then 0
    else
      var k :| k in m;
      m[k] + Total(m - {k})
  }

  lemma {:induction false} TotalPick(m: map<Id, int>, k: Id)
    requires k in m
    ensures Total(m) == m[k] + Total(m - {k})
    decreases |m|
  {
    var j :| j in m && Total(m) == m[j] + Total(m - {j});
    if j != k {
      TotalPick(m - {j}, k);
      TotalPick(m - {k}, j);
      assert m - {j} - {k} == m - {k} - {j};
    }
  }

  lemma TotalUpdate(m: map<Id, int>, k: Id, v: int)
    ensures Total(m[k := v]) == Total(m) + v - (if k in m then m[k] else 0)
  {
    TotalPick(m[k := v], k);
    assert m[k := v] - {k} == m - {k};
    if k in m {
      TotalPick(m, k);
    } else {
      assert m - {k} == m;
    }
  }

  predicate Live(h: Hold, account: Id, now: int) {
    h.account == account && h.status == Active && h.expiresAt > now
  }

  /** The amounts on hold on an account. */
  function LiveHolds(holds: map<Id, Hold>, account: Id, now: int): map<Id, int> {
    map h | h in holds && Live(holds[h], account, now) :: holds[h].amount
  }

  ghost function OnHold(holds: map<Id, Hold>, account: Id, now: int): int {
    Total(LiveHolds(holds, account, now))
  }

  // ----- what each handler does -----

  predicate Stale(h: Hold, now: int) {
    h.status == Active && h.expiresAt <= now
  }

  function Refreshed(holds: map<Id, Hold>, now: int): map<Id, Hold> {
    map h | h in holds :: if Stale(holds[h], now) then holds[h].(status := Expired) else holds[h]
  }

  function Fresh(s: State, now: int): State {
    s.(holds := Refreshed(s.holds, now))
  }

  ghost function Available(s: State, account: Id, now: int): int
    requires account in s.accounts
  {
    s.accounts[account].balance - OnHold(s.holds, account, now)
  }

  /** An UPDATE of a balance, which does nothing to an account that does not exist. */
  function Credited(accounts: map<Id, Account>, id: Id, amount: int): map<Id, Account> {
    if id in accounts then accounts[id := accounts[id].(balance := accounts[id].balance + amount)] else accounts
  }

  /** One transaction with a debit and a credit row. */
  function Posted(s: State, tenant: string, reference: string, debit: Id, credit: Id, amount: int): State {
    s.(transactions := s.transactions + [Transaction(tenant, reference)],
       entries := s.entries + [Entry(|s.transactions|, debit, -amount), Entry(|s.transactions|, credit, amount)])
  }

  function Moved(s: State, source: Id, target: Id, amount: int): State {
    s.(accounts := Credited(Credited(s.accounts, source, -amount), target, amount))
  }

  /** An empty id counts as none. */
  function IdOf(r: Request): Id
    requires r.CreateAccount?
  {
    if r.id.Some? && r.id.value != "" then r.id.value else r.freshId
  }

  function BalanceOf(r: Request): int
    requires r.CreateAccount?
  {
    if r.initialBalance.Some? then r.initialBalance.value else 0
  }

  function OnCreateAccount(s: State, r: Request): Outcome
    requires r.CreateAccount?
  {
    var id, balance := IdOf(r), BalanceOf(r);
    if id in s.accounts then Outcome(s, Failed(500))
    else
      var t := s.(accounts := s.accounts[id := Account(r.tenant, r.currency, balance)]);
      var n := |s.transactions|;
      Outcome(if balance > 0
              then t.(transactions := s.transactions + [Transaction(r.tenant, "initial_deposit")],
                      entries := s.entries + [Entry(n, id, balance), Entry(n, id, -balance)])
              else t,
              Opened(id, balance))
  }

  ghost function OnGetAccount(s: State, now: int, r: Request): Outcome
    requires r.GetAccount?
  {
    var t := Fresh(s, now);
    Outcome(t, if r.account in t.accounts then Described(t.accounts[r.account], Available(t, r.account, now)) else Failed(404))
  }

  /** An empty header counts as none. */
  predicate Keyed(r: Request) {
    r.Transfer? && r.key.Some? && r.key.value != ""
  }

  function KeyOf(r: Request): (string, string)
    requires Keyed(r)
  {
    (r.key.value, r.tenant)
  }

  predicate Seen(s: State, r: Request) {
    Keyed(r) && KeyOf(r) in s.keys
  }

  function Replay(s: State, r: Request): Reply
    requires Seen(s, r)
  {
    if s.keys[KeyOf(r)].hash != r.hash then Failed(422) else s.keys[KeyOf(r)].reply
  }

  ghost predicate Transferable(s: State, now: int, r: Request)
    requires r.Transfer?
  {
    r.source in s.accounts && r.target in s.accounts && Available(s, r.source, now) >= r.amount && r.amount > 0
  }

  function Executed(s: State, r: Request): Outcome
    requires r.Transfer?
  {
    var reply := Transferred(|s.transactions|, r.amount);
    var t := Posted(Moved(s, r.source, r.target, r.amount), r.tenant, "transfer", r.source, r.target, r.amount);
    Outcome(if Keyed(r) then t.(keys := t.keys[KeyOf(r) := Stored(r.hash, reply)]) else t, reply)
  }

  ghost function OnTransfer(s: State, now: int, r: Request): Outcome
    requires r.Transfer?
  {
    if Seen(s, r) then Outcome(s, Replay(s, r))
    else
      var t := Fresh(s, now);
      if Transferable(t, now, r) then Executed(t, r) else Outcome(t, Failed(400))
  }

  ghost function OnCreateHold(s: State, now: int, r: Request): Outcome
    requires r.CreateHold?
  {
    var t := Fresh(s, now);
    if r.account !in t.accounts then Outcome(t, Failed(404))
    else if r.amount > Available(t, r.account, now) || r.amount <= 0 then Outcome(t, Failed(400))
    else if r.freshId in t.holds then Outcome(t, Failed(500))
    else Outcome(t.(holds := t.holds[r.freshId := Hold(r.account, r.amount, r.currency, Active, r.expiresAt)]),
                 HoldPlaced(r.freshId, r.amount, r.expiresAt))
  }

  function CaptureAmount(h: Hold, r: Request): int
    requires r.CaptureHold?
  {
    if r.captureAmount.Some? then r.captureAmount.value else h.amount
  }

  predicate Capturable(s: State, r: Request)
    requires r.CaptureHold?
  {
    && r.hold in s.holds && s.holds[r.hold].status == Active
    && 0 < CaptureAmount(s.holds[r.hold], r) <= s.holds[r.hold].amount
  }

  function OnCaptureHold(s: State, now: int, r: Request): Outcome
    requires r.CaptureHold?
  {
    var t := Fresh(s, now);
    if r.hold !in t.holds then Outcome(t, Failed(404))
    else if t.holds[r.hold].status != Active then Outcome(t, Failed(409))
    else if !Capturable(t, r) then Outcome(t, Failed(400))
    else
      var h := t.holds[r.hold];
      var amount := CaptureAmount(h, r);
      var u := Moved(t, h.account, r.destination, amount);
      Outcome(Posted(u.(holds := u.holds[r.hold := h.(status := Captured)]), "system", "hold_capture", h.account, r.destination, amount),
              HoldCaptured(amount))
  }

  function OnVoidHold(s: State, now: int, r: Request): Outcome
    requires r.VoidHold?
  {
    var t := Fresh(s, now);
    if r.hold !in t.holds || t.holds[r.hold].status != Active then Outcome(t, Failed(409))
    else Outcome(t.(holds := t.holds[r.hold := t.holds[r.hold].(status := Voided)]), HoldVoided)
  }

  ghost function Handle(s: State, now: int, r: Request): Outcome {
    match r
    case CreateAccount(_, _, _, _, _) => OnCreateAccount(s, r)
    case GetAccount(_) => OnGetAccount(s, now, r)
    case Transfer(_, _, _, _, _, _) => OnTransfer(s, now, r)
    case CreateHold(_, _, _, _, _) => OnCreateHold(s, now, r)
    case CaptureHold(_, _, _) => OnCaptureHold(s, now, r)
    case VoidHold(_) => OnVoidHold(s, now, r)
  }

  // ----- the tables as an object -----

  class Ledger {
    var accounts: map<Id, Account>
    var holds: map<Id, Hold>
    var transactions: seq<Transaction>
    var entries: seq<Entry>
    var keys: map<(string, string), Stored>

    ghost function View(): State
      reads this
    {
      State(accounts, holds, transactions, entries, keys)
    }

    constructor ()
      ensures View() == Empty
    {
      accounts, holds, transactions, entries, keys := map[], map[], [], [], map[];
    }

    method ExpireStaleHolds(now: int)
      modifies this`holds
      ensures View() == Fresh(old(View()), now)
    {
      holds := map h | h in holds :: if Stale(holds[h], now) then holds[h].(status := Expired) else holds[h];
    }

    /** The SUM over the active holds of an account. */
    method SumHolds(account: Id, now: int) returns (sum: int)
      ensures sum == OnHold(holds, account, now)
    {
      var rest := LiveHolds(holds, account, now);
      sum := 0;
      while rest != map[]
        invariant sum + Total(rest) == OnHold(holds, account, now)
        decreases |rest|
      {
        var k :| k in rest;
        TotalPick(rest, k);
        sum := sum + rest[k];
        rest := rest - {k};
      }
    }

    method GetAccountBalances(account: Id, now: int) returns (res: Option<(Account, int)>)
      modifies this`holds
      ensures View() == Fresh(old(View()), now)
      ensures res == if account in accounts then Some((accounts[account], Available(View(), account, now))) else None
    {
      ExpireStaleHolds(now);
      if account !in accounts {
        return None;
      }
      var holdSum := SumHolds(account, now);
      return Some((accounts[account], accounts[account].balance - holdSum));
    }

    method AddToBalance(id: Id, amount: int)
      modifies this`accounts
      ensures accounts == Credited(old(accounts), id, amount)
    {
      if id in accounts {
        accounts := accounts[id := accounts[id].(balance := accounts[id].balance + amount)];
      }
    }

    method Post(tenant: string, reference: string, debit: Id, credit: Id, amount: int) returns (tx: nat)
      modifies this`transactions, this`entries
      ensures tx == |old(transactions)| && View() == Posted(old(View()), tenant, reference, debit, credit, amount)
    {
      tx := |transactions|;
      transactions := transactions + [Transaction(tenant, reference)];
      entries := entries + [Entry(tx, debit, -amount)];
      entries := entries + [Entry(tx, credit, amount)];
    }

    method CreateAccountRow(r: Request) returns (reply: Reply)
      requires r.CreateAccount?
      modifies this
      ensures Outcome(View(), reply) == OnCreateAccount(old(View()), r)
    {
      var id := if r.id.Some? && r.id.value != "" then r.id.value else r.freshId;
      var balance := if r.initialBalance.Some? then r.initialBalance.value else 0;
      if id in accounts {
        return Failed(500);
      }
      accounts := accounts[id := Account(r.tenant, r.currency, balance)];
      if balance > 0 {
        var tx := |transactions|;
        transactions := transactions + [Transaction(r.tenant, "initial_deposit")];
        entries := entries + [Entry(tx, id, balance)];
        entries := entries + [Entry(tx, id, -balance)];
      }
      return Opened(id, balance);
    }

    method ReadAccount(r: Request, now: int) returns (reply: Reply)
      requires r.GetAccount?
      modifies this`holds
      ensures Outcome(View(), reply) == OnGetAccount(old(View()), now, r)
    {
      var res := GetAccountBalances(r.account, now);
      if res.None? {
        return Failed(404);
      }
      return Described(res.value.0, res.value.1);
    }

    method MakeTransfer(r: Request, now: int) returns (reply: Reply)
      requires r.Transfer?
      modifies this
      ensures Outcome(View(), reply) == OnTransfer(old(View()), now, r)
    {
      var keyed := r.key.Some? && r.key.value != "";
      if keyed {
        var key := (r.key.value, r.tenant);
        if key in keys {
          if keys[key].hash != r.hash {
            return Failed(422);
          }
          return keys[key].reply;
        }
      }
      var res := GetAccountBalances(r.source, now);
      if res.None? {
        return Failed(400);
      }
      var avail := res.value.1;
      if r.target !in accounts || avail < r.amount || r.amount <= 0 {
        return Failed(400);
      }
      AddToBalance(r.source, -r.amount);
      AddToBalance(r.target, r.amount);
      var tx := Post(r.tenant, "transfer", r.source, r.target, r.amount);
      reply := Transferred(tx, r.amount);
      if keyed {
        keys := keys[(r.key.value, r.tenant) := Stored(r.hash, reply)];
      }
    }

    method PlaceHold(r: Request, now: int) returns (reply: Reply)
      requires r.CreateHold?
      modifies this`holds
      ensures Outcome(View(), reply) == OnCreateHold(old(View()), now, r)
    {
      var res := GetAccountBalances(r.account, now);
      if res.None? {
        return Failed(404);
      }
      var avail := res.value.1;
      if r.amount > avail || r.amount <= 0 {
        return Failed(400);
      }
      if r.freshId in holds {
        return Failed(500);
      }
      holds := holds[r.freshId := Hold(r.account, r.amount, r.currency, Active, r.expiresAt)];
      return HoldPlaced(r.freshId, r.amount, r.expiresAt);
    }

    method Capture(r: Request, now: int) returns (reply: Reply)
      requires r.CaptureHold?
      modifies this
      ensures Outcome(View(), reply) == OnCaptureHold(old(View()), now, r)
    {
      ExpireStaleHolds(now);
      if r.hold !in holds {
        return Failed(404);
      }
      var hold := holds[r.hold];
      if hold.status != Active {
        return Failed(409);
      }
      var amount := if r.captureAmount.Some? then r.captureAmount.value else hold.amount;
      if amount > hold.amount || amount <= 0 {
        return Failed(400);
      }
      AddToBalance(hold.account, -amount);
      AddToBalance(r.destination, amount);
      holds := holds[r.hold := hold.(status := Captured)];
      var tx := Post("system", "hold_capture", hold.account, r.destination, amount);
      return HoldCaptured(amount);
    }

    method Void(r: Request, now: int) returns (reply: Reply)
      requires r.VoidHold?
      modifies this`holds
      ensures Outcome(View(), reply) == OnVoidHold(old(View()), now, r)
    {
      ExpireStaleHolds(now);
      if r.hold !in holds || holds[r.hold].status != Active {
        return Failed(409);
      }
      holds := holds[r.hold := holds[r.hold].(status := Voided)];
      return HoldVoided;
    }
  }
}
