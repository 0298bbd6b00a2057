/** Hazard pointers as interleaved atomic steps of any number of threads. */
module HazardMachine {
  type Tid = nat

  /** An address; zero is the null pointer. */
  type Ptr = nat

  const NULL: Ptr := 0
  const RETIRE_LIMIT := 32

  /** `since` counts the retirements before the record got its present contents. */
  datatype Record = Record(pointer: Ptr, active: bool, since: nat)

  /** A retired pointer; the ticket tells one retirement from another of the same address. */
  datatype Retired = Retired(ptr: Ptr, ticket: nat)

  datatype Pc =
    | Idle
    | Acquiring(next: nat)
    | Releasing(record: nat, cleared: bool)
    | Reclaiming(done: nat, kept: seq<Retired>, at: nat, sawActive: bool)

  datatype Thread = Thread(pc: Pc, held: set<nat>, retired: seq<Retired>)

  datatype Place = Listed(tid: Tid) | Freed

  /** One call of Retire: the pointer, and where it is now. */
  datatype Retirement = Retirement(ptr: Ptr, place: Place)

  datatype State = State(records: seq<Record>, threads: map<Tid, Thread>, history: seq<Retirement>, freed: seq<Retired>)

  /** The calls a thread can make, and `Step`, the next atomic step of the call it is in. */
  datatype Action =
    | CallAcquire(tid: Tid)
    | Protect(tid: Tid, record: nat, ptr: Ptr)
    | CallRelease(tid: Tid, record: nat)
    | CallRetire(tid: Tid, ptr: Ptr)
    | CallReclaim(tid: Tid)
    | Step(tid: Tid)

  const StartOfReclaim := Reclaiming(0, [], 0, false)

  function Fresh(n: nat, tids: set<Tid>): State {
    State(seq(n, i => Record(NULL, false, 0)), map t | t in tids :: Thread(Idle, {}, []), [], [])
  }

  predicate Enabled(s: State, a: Action) {
    && a.tid in s.threads
    && var th := s.threads[a.tid];
       match a
       case Step(_) => th.pc != Idle
       case Protect(_, r, _) => th.pc == Idle && r in th.held
       case CallRelease(_, r) => th.pc == Idle && r in th.held
       case _ => th.pc == Idle
  }

  /** Writing a record; contents that do not change keep their age. */
  function Written(rec: Record, ptr: Ptr, active: bool, now: nat): Record {
    if rec.pointer == ptr && rec.active == active then rec else Record(ptr, active, now)
  }

  function Store(s: State, r: nat, ptr: Ptr, active: bool): State
    requires r < |s.records|
  {
    s.(records := s.records[r := Written(s.records[r], ptr, active, |s.history|)])
  }

  function Set(s: State, tid: Tid, th: Thread): State {
    s.(threads := s.threads[tid := th])
  }

  /** One compare-and-swap of Acquire. */
  function TryRecord(s: State, tid: Tid, th: Thread, i: nat): State {
    if i >= |s.records| then Set(s, tid, th.(pc := Idle))
    else if s.records[i].active then Set(s, tid, th.(pc := Acquiring(i + 1)))
    else Set(Store(s, i, s.records[i].pointer, true), tid, th.(pc := Idle, held := th.held + {i}))
  }

  /** One of the two stores of Release. */
  function ReleaseStep(s: State, tid: Tid, th: Thread, r: nat, cleared: bool): State {
    if r >= |s.records| then s
    else if !cleared then Set(Store(s, r, NULL, s.records[r].active), tid, th.(pc := Releasing(r, true)))
    else Set(Store(s, r, s.records[r].pointer, false), tid, th.(pc := Idle, held := th.held - {r}))
  }

  function Retire(s: State, tid: Tid, th: Thread, p: Ptr): State {
    var retired := th.retired + [Retired(p, |s.history|)];
    var pc := if |retired| >= RETIRE_LIMIT then StartOfReclaim else Idle;
    Set(s, tid, th.(pc := pc, retired := retired)).(history := s.history + [Retirement(p, Listed(tid))])
  }

  function Free(s: State, e: Retired): State
    requires e.ticket < |s.history|
  {
    s.(history := s.history[e.ticket := Retirement(e.ptr, Freed)], freed := s.freed + [e])
  }

  /** One load of Reclaim's scan, or the swap of lists after the last entry. */
  function Scanned(th: Thread, records: seq<Record>): Thread
    requires th.pc.Reclaiming? && (th.pc.done >= |th.retired| || th.pc.at < |records|)
  {
    var Reclaiming(done, kept, at, sawActive) := th.pc;
    if done >= |th.retired| then th.(pc := Idle, retired := kept)
    else if !sawActive then
      th.(pc := if records[at].active then Reclaiming(done, kept, at, true) else Reclaiming(done, kept, at + 1, false))
    else if records[at].pointer == th.retired[done].ptr then
      th.(pc := Reclaiming(done + 1, kept + [th.retired[done]], 0, false))
    else th.(pc := Reclaiming(done, kept, at + 1, false))
  }

  /** A step of Reclaim: the entry under scan is freed once all records have been passed. */
  function ReclaimStep(s: State, tid: Tid, th: Thread): State
    requires th.pc.Reclaiming?
  {
    if th.pc.done >= |th.retired| || th.pc.at < |s.records| then Set(s, tid, Scanned(th, s.records))
    else
      var e := th.retired[th.pc.done];
      var t := Set(s, tid, th.(pc := Reclaiming(th.pc.done + 1, th.pc.kept, 0, false)));
      if e.ticket < |s.history| then Free(t, e) else t
  }

  function Apply(s: State, a: Action): State
    requires Enabled(s, a)
  {
    var th := s.threads[a.tid];
    match a
    case CallAcquire(tid) => Set(s, tid, th.(pc := Acquiring(0)))
    case Protect(tid, r, p) => if r < |s.records| then Store(s, r, p, s.records[r].active) else s
    case CallRelease(tid, r) => Set(s, tid, th.(pc := Releasing(r, false)))
    case CallRetire(tid, p) => Retire(s, tid, th, p)
    case CallReclaim(tid) => Set(s, tid, th.(pc := StartOfReclaim))
    case Step(tid) =>
      match th.pc
      case Acquiring(i) => TryRecord(s, tid, th, i)
      case Releasing(r, cleared) => ReleaseStep(s, tid, th, r, cleared)
      case Reclaiming(_, _, _, _) => ReclaimStep(s, tid, th)
      case Idle => s
  }

  /** A run of any interleaving; actions that are not enabled do nothing. */
  function Run(n: nat, tids: set<Tid>, actions: seq<Action>): State {
    if actions == [] then Fresh(n, tids)
    else
      var s, a := Run(n, tids, actions[..|actions| - 1]), actions[|actions| - 1];
      if Enabled(s, a) then Apply(s, a) else s
  }

  /** Retire starts a Reclaim with the thirty-second pointer on the list. */
  lemma RetireReclaims(s: State, tid: Tid, p: Ptr)
    requires Enabled(s, CallRetire(tid, p))
    ensures var th := Apply(s, CallRetire(tid, p)).threads[tid];
            && th.retired == s.threads[tid].retired + [Retired(p, |s.history|)]
            && th.pc == if |s.threads[tid].retired| >= 31 then StartOfReclaim else Idle
  {
  }

  // ----- the invariant -----

  /** The record has held the pointer since before it was retired. */
  predicate Guards(rec: Record, e: Retired) {
    rec.active && rec.pointer == e.ptr && rec.since <= e.ticket
  }

  /** The pointers a thread is still responsible for. */
  function ListOf(th: Thread): seq<Retired> {
    if th.pc.Reclaiming? && th.pc.done <= |th.retired| then th.pc.kept + th.retired[th.pc.done..] else th.retired
  }

  ghost predicate Tickets(l: seq<Retired>, place: Place, history: seq<Retirement>) {
    && (forall i :: 0 <= i < |l| ==> l[i].ticket < |history| && history[l[i].ticket] == Retirement(l[i].ptr, place))
    && (forall i, j :: 0 <= i < j < |l| ==> l[i].ticket != l[j].ticket)
  }

  /** Records before `at` do not guard the pointer under scan. */
  ghost predicate Passed(th: Thread, records: seq<Record>) {
    th.pc.Reclaiming? && th.pc.done < |th.retired| ==>
      th.pc.at <= |records| && forall r :: 0 <= r < th.pc.at ==> !Guards(records[r], th.retired[th.pc.done])
  }

  ghost predicate ThreadOk(tid: Tid, th: Thread, records: seq<Record>, history: seq<Retirement>) {
    && (forall r :: r in th.held ==> r < |records| && records[r].active)
    && (th.pc.Releasing? ==> th.pc.record in th.held)
    && (th.pc.Reclaiming? ==> th.pc.done <= |th.retired|)
    && Tickets(ListOf(th), Listed(tid), history)
    && Passed(th, records)
  }

  ghost predicate HasTicket(l: seq<Retired>, ticket: nat) {
    exists i :: 0 <= i < |l| && l[i].ticket == ticket
  }

  ghost predicate Found(s: State, ticket: nat)
    requires ticket < |s.history|
  {
    match s.history[ticket].place
    case Listed(tid) => tid in s.threads && HasTicket(ListOf(s.threads[tid]), ticket)
    case Freed => HasTicket(s.freed, ticket)
  }

  ghost predicate Inv(s: State) {
    && (forall tid :: tid in s.threads ==> ThreadOk(tid, s.threads[tid], s.records, s.history))
    && (forall a, b :: a in s.threads && b in s.threads && a != b ==> s.threads[a].held !! s.threads[b].held)
    && (forall r :: 0 <= r < |s.records| ==> s.records[r].since <= |s.history|)
    && Tickets(s.freed, Freed, s.history)
    && (forall t :: 0 <= t < |s.history| ==> Found(s, t))
  }

  // ----- steps that change one thread only -----

  lemma ThreadMoves(s: State, tid: Tid, th: Thread)
    requires Inv(s) && tid in s.threads && ThreadOk(tid, th, s.records, s.history)
    requires th.held == s.threads[tid].held && ListOf(th) == ListOf(s.threads[tid])
    ensures Inv(Set(s, tid, th))
  {
    var t := Set(s, tid, th);
    forall k: nat | k < |t.history| ensures Found(t, k) {
      assert Found(s, k);
    }
  }

  // ----- steps that write a record -----

  /** A write is younger than every retirement so far, so it guards none of them. */
  lemma WriteIsYoung(tid: Tid, th: Thread, records: seq<Record>, history: seq<Retirement>, r: nat, ptr: Ptr, active: bool)
    requires ThreadOk(tid, th, records, history) && r < |records| && (r in th.held ==> active)
    ensures ThreadOk(tid, th, records[r := Written(records[r], ptr, active, |history|)], history)
  {
    if th.pc.Reclaiming? && th.pc.done < |th.retired| {
      assert ListOf(th)[|th.pc.kept|] == th.retired[th.pc.done];
    }
  }

  lemma Writes(s: State, tid: Tid, th: Thread, r: nat, ptr: Ptr, active: bool)
    requires Inv(s) && tid in s.threads && r < |s.records|
    requires !th.pc.Reclaiming? && !s.threads[tid].pc.Reclaiming? && th.retired == s.threads[tid].retired
    requires forall b :: b in s.threads && b != tid ==> th.held !! s.threads[b].held && r !in s.threads[b].held
    requires forall x :: x in th.held ==> x < |s.records| && if x == r then active else s.records[x].active
    requires th.pc.Releasing? ==> th.pc.record in th.held
    ensures Inv(Set(Store(s, r, ptr, active), tid, th))
  {
    var t := Set(Store(s, r, ptr, active), tid, th);
    forall b | b in t.threads ensures ThreadOk(b, t.threads[b], t.records, t.history) {
      assert ThreadOk(b, s.threads[b], s.records, s.history);
      if b != tid {
        WriteIsYoung(b, s.threads[b], s.records, s.history, r, ptr, active);
      }
    }
    forall k: nat | k < |t.history| ensures Found(t, k) {
      assert Found(s, k);
    }
  }

  // ----- retiring and freeing -----

  lemma MoreTickets(l: seq<Retired>, e: Retired)
    ensures HasTicket(l + [e], e.ticket)
    ensures forall x :: HasTicket(l, x) ==> HasTicket(l + [e], x)
  {
    assert (l + [e])[|l|] == e;
    forall x | HasTicket(l, x) ensures HasTicket(l + [e], x) {
      var i :| 0 <= i < |l| && l[i].ticket == x;
      assert (l + [e])[i].ticket == x;
    }
  }

  lemma BystanderOfRetire(tid: Tid, th: Thread, records: seq<Record>, history: seq<Retirement>, r: Retirement)
    requires ThreadOk(tid, th, records, history)
    ensures ThreadOk(tid, th, records, history + [r])
  {
  }

  lemma NewTicket(l: seq<Retired>, place: Place, history: seq<Retirement>, p: Ptr)
    requires Tickets(l, place, history)
    ensures Tickets(l + [Retired(p, |history|)], place, history + [Retirement(p, place)])
  {
  }

  lemma RetirerOk(tid: Tid, th: Thread, records: seq<Record>, history: seq<Retirement>, p: Ptr, pc: Pc)
    requires ThreadOk(tid, th, records, history) && th.pc == Idle && (pc == Idle || pc == StartOfReclaim)
    ensures var l := th.retired + [Retired(p, |history|)];
            var after := th.(pc := pc, retired := l);
            ListOf(after) == l && ThreadOk(tid, after, records, history + [Retirement(p, Listed(tid))])
  {
    var l := th.retired + [Retired(p, |history|)];
    NewTicket(th.retired, Listed(tid), history, p);
    assert [] + l[0..] == l;
  }

  lemma RetireKeepsFound(s: State, tid: Tid, p: Ptr, k: nat)
    requires Inv(s) && Enabled(s, CallRetire(tid, p)) && k <= |s.history|
    ensures Found(Apply(s, CallRetire(tid, p)), k)
  {
    var th := s.threads[tid];
    RetirerOk(tid, th, s.records, s.history, p, Apply(s, CallRetire(tid, p)).threads[tid].pc);
    MoreTickets(th.retired, Retired(p, |s.history|));
    if k < |s.history| {
      assert Found(s, k);
    }
  }

  lemma RetireKeeps(s: State, tid: Tid, p: Ptr)
    requires Inv(s) && Enabled(s, CallRetire(tid, p))
    ensures Inv(Apply(s, CallRetire(tid, p)))
  {
    var th := s.threads[tid];
    var t := Retire(s, tid, th, p);
    RetirerOk(tid, th, s.records, s.history, p, t.threads[tid].pc);
    forall b | b in t.threads ensures ThreadOk(b, t.threads[b], t.records, t.history) {
      if b != tid {
        BystanderOfRetire(b, s.threads[b], s.records, s.history, Retirement(p, Listed(tid)));
      }
    }
    forall k: nat | k < |t.history| ensures Found(t, k) {
      RetireKeepsFound(s, tid, p, k);
    }
  }

  lemma FreedTickets(freed: seq<Retired>, history: seq<Retirement>, e: Retired, place: Place)
    requires Tickets(freed, Freed, history) && e.ticket < |history|
    requires history[e.ticket] == Retirement(e.ptr, place) && place != Freed
    ensures Tickets(freed + [e], Freed, history[e.ticket := Retirement(e.ptr, Freed)])
  {
  }

  /** Lists without the freed ticket are not affected. */
  lemma OtherTickets(l: seq<Retired>, place: Place, history: seq<Retirement>, ticket: nat, r: Retirement)
    requires Tickets(l, place, history) && ticket < |history| && forall i :: 0 <= i < |l| ==> l[i].ticket != ticket
    ensures Tickets(l, place, history[ticket := r])
  {
  }

  lemma BystanderOfFree(tid: Tid, th: Thread, records: seq<Record>, history: seq<Retirement>, e: Retired, owner: Tid)
    requires ThreadOk(tid, th, records, history) && tid != owner
    requires e.ticket < |history| && history[e.ticket].place == Listed(owner)
    ensures ThreadOk(tid, th, records, history[e.ticket := Retirement(e.ptr, Freed)])
  {
    OtherTickets(ListOf(th), Listed(tid), history, e.ticket, Retirement(e.ptr, Freed));
  }

  function Without(l: seq<Retired>, k: nat): seq<Retired>
    requires k < |l|
  {
    l[..k] + l[k + 1..]
  }

  lemma LessOne(l: seq<Retired>, k: nat, place: Place, history: seq<Retirement>)
    requires Tickets(l, place, history) && k < |l|
    ensures Tickets(Without(l, k), place, history)
    ensures forall i :: 0 <= i < |Without(l, k)| ==> Without(l, k)[i].ticket != l[k].ticket
    ensures forall x :: HasTicket(l, x) && x != l[k].ticket ==> HasTicket(Without(l, k), x)
  {
    var m := Without(l, k);
    forall i | 0 <= i < |m| ensures m[i] == if i < k then l[i] else l[i + 1] {
    }
    forall x | HasTicket(l, x) && x != l[k].ticket ensures HasTicket(m, x) {
      var i :| 0 <= i < |l| && l[i].ticket == x;
      assert m[if i < k then i else i - 1].ticket == x;
    }
  }

  lemma FreerList(th: Thread)
    requires th.pc.Reclaiming? && th.pc.done < |th.retired|
    ensures var l, k := ListOf(th), |th.pc.kept|;
            && k < |l| && l[k] == th.retired[th.pc.done]
            && ListOf(th.(pc := Reclaiming(th.pc.done + 1, th.pc.kept, 0, false))) == Without(l, k)
  {
    var l, k := ListOf(th), |th.pc.kept|;
    assert l[..k] == th.pc.kept && l[k + 1..] == th.retired[th.pc.done + 1..];
  }

  /** The thread after a free: the entry under scan is off its list. */
  lemma FreerOk(tid: Tid, th: Thread, records: seq<Record>, history: seq<Retirement>)
    requires ThreadOk(tid, th, records, history) && th.pc.Reclaiming? && th.pc.done < |th.retired|
    ensures var e := th.retired[th.pc.done];
            var after := th.(pc := Reclaiming(th.pc.done + 1, th.pc.kept, 0, false));
            && |th.pc.kept| < |ListOf(th)| && ListOf(th)[|th.pc.kept|] == e
            && ListOf(after) == Without(ListOf(th), |th.pc.kept|)
            && e.ticket < |history| && ThreadOk(tid, after, records, history[e.ticket := Retirement(e.ptr, Freed)])
  {
    var l, k := ListOf(th), |th.pc.kept|;
    var e := th.retired[th.pc.done];
    FreerList(th);
    LessOne(l, k, Listed(tid), history);
    OtherTickets(Without(l, k), Listed(tid), history, e.ticket, Retirement(e.ptr, Freed));
  }

  lemma FreeKeepsThreads(s: State, tid: Tid)
    requires Inv(s) && tid in s.threads
    requires var th := s.threads[tid]; th.pc.Reclaiming? && th.pc.done < |th.retired| && th.pc.at >= |s.records|
    ensures var t := ReclaimStep(s, tid, s.threads[tid]);
            forall b :: b in t.threads ==> ThreadOk(b, t.threads[b], t.records, t.history)
  {
    var th := s.threads[tid];
    var t := ReclaimStep(s, tid, th);
    var e := th.retired[th.pc.done];
    FreerOk(tid, th, s.records, s.history);
    forall b | b in t.threads ensures ThreadOk(b, t.threads[b], t.records, t.history) {
      if b != tid {
        BystanderOfFree(b, s.threads[b], s.records, s.history, e, tid);
      }
    }
  }

  lemma FreeKeepsFound(s: State, tid: Tid, x: nat)
    requires Inv(s) && tid in s.threads
    requires var th := s.threads[tid]; th.pc.Reclaiming? && th.pc.done < |th.retired| && th.pc.at >= |s.records|
    requires x < |s.history|
    ensures Found(ReclaimStep(s, tid, s.threads[tid]), x)
  {
    var th := s.threads[tid];
    FreerOk(tid, th, s.records, s.history);
    LessOne(ListOf(th), |th.pc.kept|, Listed(tid), s.history);
    MoreTickets(s.freed, th.retired[th.pc.done]);
    assert Found(s, x);
  }

  lemma FreeKeeps(s: State, tid: Tid)
    requires Inv(s) && tid in s.threads
    requires var th := s.threads[tid]; th.pc.Reclaiming? && th.pc.done < |th.retired| && th.pc.at >= |s.records|
    ensures Inv(ReclaimStep(s, tid, s.threads[tid]))
  {
    var th := s.threads[tid];
    var t := ReclaimStep(s, tid, th);
    FreerOk(tid, th, s.records, s.history);
    FreeKeepsThreads(s, tid);
    FreedTickets(s.freed, s.history, th.retired[th.pc.done], Listed(tid));
    forall x: nat | x < |t.history| ensures Found(t, x) {
      FreeKeepsFound(s, tid, x);
    }
  }

  // ----- every step -----

  lemma CounterOk(tid: Tid, th: Thread, records: seq<Record>, history: seq<Retirement>, pc: Pc)
    requires ThreadOk(tid, th, records, history) && !th.pc.Reclaiming?
    requires pc == Idle || pc.Acquiring? || pc == StartOfReclaim || (pc.Releasing? && pc.record in th.held)
    ensures ListOf(th.(pc := pc)) == ListOf(th) && ThreadOk(tid, th.(pc := pc), records, history)
  {
    assert [] + th.retired[0..] == th.retired;
  }

  /** A step that only moves the thread's program counter. */
  lemma CounterMoves(s: State, tid: Tid, pc: Pc)
    requires Inv(s) && tid in s.threads && !s.threads[tid].pc.Reclaiming?
    requires pc == Idle || pc.Acquiring? || pc == StartOfReclaim || (pc.Releasing? && pc.record in s.threads[tid].held)
    ensures Inv(Set(s, tid, s.threads[tid].(pc := pc)))
  {
    CounterOk(tid, s.threads[tid], s.records, s.history, pc);
    ThreadMoves(s, tid, s.threads[tid].(pc := pc));
  }

  lemma InactiveIsFree(s: State, i: nat)
    requires Inv(s) && i < |s.records| && !s.records[i].active
    ensures forall b :: b in s.threads ==> i !in s.threads[b].held
  {
    forall b | b in s.threads ensures i !in s.threads[b].held {
      assert ThreadOk(b, s.threads[b], s.records, s.history);
    }
  }

  lemma SwapKeeps(s: State, tid: Tid, i: nat)
    requires Inv(s) && tid in s.threads && s.threads[tid].pc.Acquiring? && i < |s.records| && !s.records[i].active
    ensures Inv(TryRecord(s, tid, s.threads[tid], i))
  {
    var th := s.threads[tid];
    InactiveIsFree(s, i);
    assert ThreadOk(tid, th, s.records, s.history);
    Writes(s, tid, th.(pc := Idle, held := th.held + {i}), i, s.records[i].pointer, true);
  }

  lemma PassKeeps(s: State, tid: Tid, i: nat)
    requires Inv(s) && tid in s.threads && s.threads[tid].pc.Acquiring? && (i >= |s.records| || s.records[i].active)
    ensures Inv(TryRecord(s, tid, s.threads[tid], i))
  {
    var pc := if i >= |s.records| then Idle else Acquiring(i + 1);
    assert TryRecord(s, tid, s.threads[tid], i) == Set(s, tid, s.threads[tid].(pc := pc));
    CounterMoves(s, tid, pc);
  }

  lemma AcquireKeeps(s: State, tid: Tid, i: nat)
    requires Inv(s) && tid in s.threads && s.threads[tid].pc == Acquiring(i)
    ensures Inv(TryRecord(s, tid, s.threads[tid], i))
  {
    if i < |s.records| && !s.records[i].active {
      SwapKeeps(s, tid, i);
    } else {
      PassKeeps(s, tid, i);
    }
  }

  lemma HolderIsAlone(s: State, tid: Tid, r: nat)
    requires Inv(s) && tid in s.threads && r in s.threads[tid].held
    ensures r < |s.records| && s.records[r].active
    ensures forall b :: b in s.threads && b != tid ==> r !in s.threads[b].held
  {
    assert ThreadOk(tid, s.threads[tid], s.records, s.history);
  }

  lemma ProtectKeeps(s: State, tid: Tid, r: nat, p: Ptr)
    requires Inv(s) && Enabled(s, Protect(tid, r, p))
    ensures Inv(Apply(s, Protect(tid, r, p)))
  {
    HolderIsAlone(s, tid, r);
    var th := s.threads[tid];
    assert ThreadOk(tid, th, s.records, s.history);
    Writes(s, tid, th, r, p, true);
    assert s.threads[tid := th] == s.threads;
  }

  lemma ReleaseKeeps(s: State, tid: Tid)
    requires Inv(s) && tid in s.threads && s.threads[tid].pc.Releasing?
    ensures Inv(ReleaseStep(s, tid, s.threads[tid], s.threads[tid].pc.record, s.threads[tid].pc.cleared))
  {
    var th := s.threads[tid];
    var r := th.pc.record;
    assert ThreadOk(tid, th, s.records, s.history);
    HolderIsAlone(s, tid, r);
    if th.pc.cleared {
      Writes(s, tid, th.(pc := Idle, held := th.held - {r}), r, s.records[r].pointer, false);
    } else {
      Writes(s, tid, th.(pc := Releasing(r, true)), r, NULL, true);
    }
  }

  lemma ScannedList(th: Thread, records: seq<Record>)
    requires th.pc.Reclaiming? && th.pc.done <= |th.retired| && (th.pc.done == |th.retired| || th.pc.at < |records|)
    ensures ListOf(Scanned(th, records)) == ListOf(th)
  {
    var Reclaiming(done, kept, at, sawActive) := th.pc;
    if done < |th.retired| {
      assert (kept + [th.retired[done]]) + th.retired[done + 1..] == kept + th.retired[done..];
    } else {
      assert kept + th.retired[done..] == kept;
    }
  }

  lemma ScannedPassed(th: Thread, records: seq<Record>)
    requires Passed(th, records) && th.pc.Reclaiming? && (th.pc.done >= |th.retired| || th.pc.at < |records|)
    ensures Passed(Scanned(th, records), records)
  {
  }

  lemma ScannerOk(tid: Tid, th: Thread, records: seq<Record>, history: seq<Retirement>)
    requires ThreadOk(tid, th, records, history) && th.pc.Reclaiming? && (th.pc.done >= |th.retired| || th.pc.at < |records|)
    ensures ListOf(Scanned(th, records)) == ListOf(th)
    ensures ThreadOk(tid, Scanned(th, records), records, history)
  {
    ScannedList(th, records);
    ScannedPassed(th, records);
  }

  lemma ScanKeeps(s: State, tid: Tid)
    requires Inv(s) && tid in s.threads
    requires var th := s.threads[tid]; th.pc.Reclaiming? && (th.pc.done >= |th.retired| || th.pc.at < |s.records|)
    ensures Inv(ReclaimStep(s, tid, s.threads[tid]))
  {
    ScannerOk(tid, s.threads[tid], s.records, s.history);
    ThreadMoves(s, tid, Scanned(s.threads[tid], s.records));
  }

  lemma OwnStepKeeps(s: State, tid: Tid)
    requires Inv(s) && Enabled(s, Step(tid))
    ensures Inv(Apply(s, Step(tid)))
  {
    var th := s.threads[tid];
    match th.pc
    case Acquiring(i) => AcquireKeeps(s, tid, i);
    case Releasing(r, cleared) => ReleaseKeeps(s, tid);
    case Reclaiming(done, _, at, _) =>
      if done < |th.retired| && at >= |s.records| {
        FreeKeeps(s, tid);
      } else {
        ScanKeeps(s, tid);
      }
  }

  lemma StepKeepsInv(s: State, a: Action)
    requires Inv(s) && Enabled(s, a)
    ensures Inv(Apply(s, a))
  {
    match a
    case CallAcquire(tid) => CounterMoves(s, tid, Acquiring(0));
    case Protect(tid, r, p) => ProtectKeeps(s, tid, r, p);
    case CallRelease(tid, r) => CounterMoves(s, tid, Releasing(r, false));
    case CallRetire(tid, p) => RetireKeeps(s, tid, p);
    case CallReclaim(tid) => CounterMoves(s, tid, StartOfReclaim);
    case Step(tid) => OwnStepKeeps(s, tid);
  }

  lemma {:induction false} RunKeepsInv(n: nat, tids: set<Tid>, actions: seq<Action>)
    ensures Inv(Run(n, tids, actions)) && |Run(n, tids, actions).records| == n
  {
    if actions != [] {
      var s, a := Run(n, tids, actions[..|actions| - 1]), actions[|actions| - 1];
      RunKeepsInv(n, tids, actions[..|actions| - 1]);
      if Enabled(s, a) {
        StepKeepsInv(s, a);
        StepKeepsRecords(s, a);
      }
    } else {
      FreshIsFine(n, tids);
    }
  }

  lemma StepKeepsRecords(s: State, a: Action)
    requires Enabled(s, a)
    ensures |Apply(s, a).records| == |s.records|
  {
  }

  lemma FreshIsFine(n: nat, tids: set<Tid>)
    ensures Inv(Fresh(n, tids))
  {
  }
}
