/** src/waiter.c: tickets, the poll set, and the wait loop. The ticket list is the sequence that
    `IntrusiveList` proves the linked list to be; clock readings and poll results are arguments. */
module Waiter {

  const U64: nat := 0x1_0000_0000_0000_0000
  const FOREVER: nat := U64 - 1
  const MAX_DELAY: nat := 0x7fff_ffff

  type u64 = x: nat | x < U64

  /** The `type` and the union of a ticket. */
  datatype Watch = Nothing | Fd(filedes: int) | Timeout(interval: nat)

  /** What a ticket's fields say. */
  datatype State = State(watch: Watch, start: u64, updated: bool)
  {
    /** start + interval in 64-bit arithmetic. */
    function Deadline(): u64 {
      if watch.Timeout? then (start + watch.interval) % U64 else FOREVER
    }

    /** A timeout at or past its deadline, or a ticket on the descriptor that caused the wake-up. */
    predicate Hit(now: u64, cause: seq<int>) {
      match watch
      case Nothing => false
      case Timeout(_) => now >= Deadline()
      case Fd(fd) => cause == [fd]
    }

    /** A hit timeout restarts at `now`; whatever is hit is marked. */
    function After(now: u64, cause: seq<int>): State {
      if Hit(now, cause) then State(watch, if watch.Timeout? then now else start, true) else this
    }
  }

  class Ticket {
    var watch: Watch
    var start: u64
    var updated: bool

    constructor ()
      ensures View() == State(Nothing, 0, false)
    {
      watch, start, updated := Nothing, 0, false;
    }

    function View(): State
      reads this
    {
      State(watch, start, updated)
    }
  }

  ghost function Views(ts: seq<Ticket>): (vs: seq<State>)
    reads ts
    ensures |vs| == |ts| && forall i :: 0 <= i < |ts| ==> vs[i] == ts[i].View()
  {
    seq(|ts|, i requires 0 <= i < |ts| reads ts => ts[i].View())
  }

  /** struct pollset with its array of descriptors. */
  class Pollset {
    var nfds: nat
    var cause: int
    var fds: array<int>

    constructor (capacity: nat)
      ensures fresh(fds) && fds.Length == capacity && nfds == 0
    {
      nfds, cause := 0, 0;
      fds := new int[capacity](_ => 0);
    }

    /** pollset_add_fd: the index is in range because the capacity follows the ticket count. */
    method AddFd(fd: int)
      requires nfds < fds.Length
      modifies this`nfds, fds
      ensures nfds == old(nfds) + 1 && fds[..nfds] == old(fds[..nfds]) + [fd]
    {
      fds[nfds] := fd;
      nfds := nfds + 1;
    }

    /** pollset_wait after poll returned rc and marked the descriptors in `ready`: the cause is the
        first one that is ready, -1 if none is. */
    method Record(rc: int, ready: seq<bool>)
      requires nfds <= |ready|
      modifies this`cause
      ensures rc <= 0 ==> cause == old(cause)
      ensures rc > 0 ==> -1 <= cause < nfds
      ensures rc > 0 ==> (cause == -1 <==> forall i :: 0 <= i < nfds ==> !ready[i])
      ensures rc > 0 && cause != -1 ==> ready[cause] && forall i :: 0 <= i < cause ==> !ready[i]
    {
      if rc <= 0 {
        return;
      }
      cause := -1;
      var i := 0;
      while i < nfds
        invariant 0 <= i <= nfds && cause == -1
        invariant forall k :: 0 <= k < i ==> !ready[k]
      {
        if ready[i] {
          cause := i;
          break;
        }
        i := i + 1;
      }
    }
  }

  /** The index of the first ready descriptor at or after i, or -1. */
  function FirstReady(ready: seq<bool>, i: nat): (c: int)
    ensures -1 <= c < |ready|
    decreases |ready| - i
  {
    if i >= |ready| then -1 else if ready[i] then i else FirstReady(ready, i + 1)
  }

  lemma {:induction false} FirstReadyIs(ready: seq<bool>, i: nat)
    requires i <= |ready|
    ensures var c := FirstReady(ready, i);
            if c < 0 then forall k :: i <= k < |ready| ==> !ready[k]
            else i <= c && ready[c] && forall k :: i <= k < c ==> !ready[k]
    decreases |ready| - i
  {
    if i < |ready| && !ready[i] {
      FirstReadyIs(ready, i + 1);
    }
  }

  /** How waiter_wait polls. */
  datatype Poll = Skipped | Forever | For(ms: nat)

  /** The earliest deadline among the first n tickets. */
  function Earliest(vs: seq<State>, n: nat): (e: u64)
    requires n <= |vs|
  {
    if n == 0 then FOREVER
    else
      var e, v := Earliest(vs, n - 1), vs[n-1];
      if v.watch.Timeout? && v.Deadline() < e then v.Deadline() else e
  }

  lemma {:induction false} EarliestIsLeast(vs: seq<State>, n: nat)
    requires n <= |vs|
    ensures forall i :: 0 <= i < n ==> Earliest(vs, n) <= vs[i].Deadline()
    ensures Earliest(vs, n) == FOREVER ||
            exists i :: 0 <= i < n && vs[i].watch.Timeout? && Earliest(vs, n) == vs[i].Deadline()
  {
    if n > 0 {
      EarliestIsLeast(vs, n - 1);
    }
  }

  /** The descriptors the first n tickets poll, in list order. */
  function Fds(vs: seq<State>, n: nat): (f: seq<int>)
    requires n <= |vs|
    ensures |f| <= n
  {
    if n == 0 then [] else Fds(vs, n - 1) + if vs[n-1].watch.Fd? then [vs[n-1].watch.filedes] else []
  }

  function PollFor(earliest: u64, now: u64): Poll {
    if earliest == FOREVER then Forever
    else if now >= earliest then Skipped
    else For(if earliest - now > MAX_DELAY then MAX_DELAY else earliest - now)
  }

  /** The deadline of a timeout, in 64-bit arithmetic. */
  function DueAt(v: State): nat
    requires v.watch.Timeout?
  {
    (v.start + v.watch.interval) % 0x1_0000_0000_0000_0000
  }

  /** What the poll may ask for, read off the tickets. A deadline of 2^64 - 1 stands for never. Without
      an earlier one it waits for ever, with one that has passed it is skipped, and otherwise it waits no
      longer than 2^31 - 1 nor past any deadline, and if less than that, until one of them. */
  ghost predicate Asks(vs: seq<State>, before: u64, asked: Poll) {
    && (asked.Forever? <==>
          forall i :: 0 <= i < |vs| && vs[i].watch.Timeout? ==> DueAt(vs[i]) == 0xffff_ffff_ffff_ffff)
    && (asked.Skipped? <==>
          exists i :: 0 <= i < |vs| && vs[i].watch.Timeout? && DueAt(vs[i]) <= before
                      && DueAt(vs[i]) < 0xffff_ffff_ffff_ffff)
    && (asked.For? ==>
          && 0 < asked.ms <= 0x7fff_ffff
          && (forall i :: 0 <= i < |vs| && vs[i].watch.Timeout? ==> before + asked.ms <= DueAt(vs[i]))
          && (asked.ms < 0x7fff_ffff ==>
                exists i :: 0 <= i < |vs| && vs[i].watch.Timeout? && before + asked.ms == DueAt(vs[i])))
  }

  lemma PollForAsks(vs: seq<State>, before: u64)
    ensures Asks(vs, before, PollFor(Earliest(vs, |vs|), before))
  {
    var e := Earliest(vs, |vs|);
    EarliestIsLeast(vs, |vs|);
    forall i | 0 <= i < |vs| && vs[i].watch.Timeout?
      ensures e <= DueAt(vs[i]) <= FOREVER
    {
      assert vs[i].Deadline() == DueAt(vs[i]);
    }
    if e != FOREVER {
      var i :| 0 <= i < |vs| && vs[i].watch.Timeout? && e == vs[i].Deadline();
      assert DueAt(vs[i]) == e;
    }
  }

  lemma {:induction false} FdsGrow(vs: seq<State>, i: nat, n: nat)
    requires i <= n <= |vs|
    ensures |Fds(vs, i)| <= |Fds(vs, n)|
    decreases n - i
  {
    if i < n {
      FdsGrow(vs, i + 1, n);
    }
  }

  lemma {:induction false} SamePrefix(vs: seq<State>, ws: seq<State>, n: nat)
    requires n <= |vs| && n <= |ws| && forall i :: 0 <= i < n ==> vs[i] == ws[i]
    ensures Earliest(vs, n) == Earliest(ws, n) && Fds(vs, n) == Fds(ws, n)
  {
    if n > 0 {
      SamePrefix(vs, ws, n - 1);
    }
  }

  lemma OneMore(vs: seq<State>, own: State)
    requires own.watch.Timeout?
    ensures var e, n := Earliest(vs, |vs|), |vs|;
            && Earliest(vs + [own], n + 1) == (if own.Deadline() < e then own.Deadline() else e)
            && Fds(vs + [own], n + 1) == Fds(vs, n)
  {
    SamePrefix(vs, vs + [own], |vs|);
  }

  // ----- Synchronisation -----

  /** Two timeouts of the same interval. */
  predicate Alike(a: State, b: State) { a.watch.Timeout? && a.watch == b.watch }

  /** The nearest timeout like ticket j before position n, or -1. */
  function LastAlike(vs: seq<State>, j: nat, n: nat): (p: int)
    requires n <= j < |vs|
    ensures -1 <= p < n
    ensures p >= 0 ==> Alike(vs[p], vs[j])
    ensures forall m :: p < m < n ==> !Alike(vs[m], vs[j])
  {
    if n == 0 then -1 else if Alike(vs[n-1], vs[j]) then n - 1 else LastAlike(vs, j, n - 1)
  }

  /** The first timeout like ticket j, reached by going back one such ticket at a time. */
  function FirstAlike(vs: seq<State>, j: nat): (p: nat)
    requires j < |vs|
    ensures p <= j
  {
    var p := LastAlike(vs, j, j);
    if p < 0 then j else FirstAlike(vs, p)
  }

  lemma {:induction false} FirstAlikeIsFirst(vs: seq<State>, j: nat)
    requires j < |vs| && vs[j].watch.Timeout?
    ensures vs[FirstAlike(vs, j)].watch == vs[j].watch
    ensures forall m :: 0 <= m < FirstAlike(vs, j) ==> vs[m].watch != vs[j].watch
  {
    var p := LastAlike(vs, j, j);
    if p >= 0 {
      FirstAlikeIsFirst(vs, p);
    }
  }

  /** Every timeout starts when the first timeout of its interval did; nothing else is different. */
  ghost predicate Synchronized(vs: seq<State>, ws: seq<State>) {
    && |vs| == |ws|
    && forall j :: 0 <= j < |vs| ==>
         && ws[j].watch == vs[j].watch && ws[j].updated == vs[j].updated
         && if vs[j].watch.Timeout? then
              exists m ::
                && 0 <= m <= j && vs[m].watch == vs[j].watch && ws[j].start == vs[m].start
                && forall k :: 0 <= k < m ==> vs[k].watch != vs[j].watch
            else ws[j].start == vs[j].start
  }

  lemma SynchronizedBy(vs: seq<State>, ws: seq<State>)
    requires |vs| == |ws|
    requires forall j :: 0 <= j < |vs| ==>
               ws[j] == if vs[j].watch.Timeout? then vs[j].(start := vs[FirstAlike(vs, j)].start) else vs[j]
    ensures Synchronized(vs, ws)
  {
    forall j | 0 <= j < |vs| && vs[j].watch.Timeout?
      ensures exists m ::
                && 0 <= m <= j && vs[m].watch == vs[j].watch && ws[j].start == vs[m].start
                && forall k :: 0 <= k < m ==> vs[k].watch != vs[j].watch
    {
      FirstAlikeIsFirst(vs, j);
      assert vs[FirstAlike(vs, j)].watch == vs[j].watch;
    }
  }

  /** The start a ticket has once the tickets before position i have handed theirs on. */
  function Handed(vs: seq<State>, j: nat, i: int): State
    requires j < |vs|
  {
    if vs[j].watch.Timeout? && LastAlike(vs, j, j) < i then vs[j].(start := vs[FirstAlike(vs, j)].start) else vs[j]
  }

  lemma NothingHanded(vs: seq<State>, i: nat)
    requires i < |vs| && !vs[i].watch.Timeout?
    ensures forall j :: 0 <= j < |vs| ==> Handed(vs, j, i + 1) == Handed(vs, j, i)
  {
    forall j | 0 <= j < |vs|
      ensures Handed(vs, j, i + 1) == Handed(vs, j, i)
    {
      assert LastAlike(vs, j, j) != i;
    }
  }

  /** The positions among the first n of the hit tickets that were not marked yet: those called
      back, in list order. */
  function Fresh(vs: seq<State>, n: nat, now: u64, cause: seq<int>): seq<nat>
    requires n <= |vs|
  {
    if n == 0 then []
    else Fresh(vs, n - 1, now, cause) + if vs[n-1].Hit(now, cause) && !vs[n-1].updated then [n - 1] else []
  }

  /** The descriptor pollset_cause_fd compares with: at most one. */
  function CauseFd(rc: int, ready: seq<bool>, fds: seq<int>): seq<int>
    requires |fds| <= |ready|
  {
    if rc > 0 && FirstReady(ready[..|fds|], 0) >= 0 then [fds[FirstReady(ready[..|fds|], 0)]] else []
  }

  ghost predicate Increasing(at: seq<nat>) { forall j, k :: 0 <= j < k < |at| ==> at[j] < at[k] }

  /** The positions of the tickets that watch a descriptor, in list order: the order they are polled in. */
  ghost predicate Polled(vs: seq<State>, at: seq<nat>) {
    && Increasing(at)
    && (forall j :: 0 <= j < |at| ==> at[j] < |vs| && vs[at[j]].watch.Fd?)
    && forall i :: 0 <= i < |vs| && vs[i].watch.Fd? ==> i in at
  }

  /** Ticket i watches the descriptor of the first ticket, in that order, that was found ready. */
  ghost predicate Woken(vs: seq<State>, at: seq<nat>, ready: seq<bool>, i: nat)
    requires i < |vs| && Polled(vs, at) && |at| == |ready|
  {
    exists c :: 0 <= c < |at| && ready[c] && (forall d :: 0 <= d < c ==> !ready[d])
                && vs[i].watch == vs[at[c]].watch
  }

  /** A timeout that has come to its deadline, or a descriptor that woke the poll. */
  ghost predicate Due(vs: seq<State>, at: seq<nat>, ready: seq<bool>, rc: int, now: u64, i: nat)
    requires i < |vs| && Polled(vs, at) && |at| == |ready|
  {
    if vs[i].watch.Timeout? then DueAt(vs[i]) <= now else rc > 0 && Woken(vs, at, ready, i)
  }

  /** What a wait does whose poll gave rc, read off the tickets before it. If the poll failed, nothing.
      Otherwise exactly the due tickets that were not marked are called back, in list order; every due
      ticket is marked, a due timeout starts again now, and nothing else changes. */
  ghost predicate CalledBack(vs: seq<State>, at: seq<nat>, ready: seq<bool>, rc: int, now: u64, fired: seq<nat>,
                             ws: seq<State>)
    requires Polled(vs, at) && |at| == |ready| && |vs| == |ws|
  {
    if rc < 0 then fired == [] && ws == vs
    else
      && Increasing(fired)
      && (forall j :: 0 <= j < |fired| ==>
            fired[j] < |vs| && Due(vs, at, ready, rc, now, fired[j]) && !vs[fired[j]].updated)
      && (forall i :: 0 <= i < |vs| && Due(vs, at, ready, rc, now, i) && !vs[i].updated ==> i in fired)
      && forall i :: 0 <= i < |vs| ==>
           && ws[i].watch == vs[i].watch
           && (ws[i].updated <==> vs[i].updated || Due(vs, at, ready, rc, now, i))
           && ws[i].start == if vs[i].watch.Timeout? && DueAt(vs[i]) <= now then now else vs[i].start
  }

  lemma {:induction false} FdsAt(vs: seq<State>, n: nat) returns (at: seq<nat>)
    requires n <= |vs|
    ensures Polled(vs[..n], at) && |Fds(vs, n)| == |at|
    ensures forall j :: 0 <= j < |at| ==> vs[at[j]].watch == Fd(Fds(vs, n)[j])
  {
    at := [];
    if n > 0 {
      at := FdsAt(vs, n - 1);
      if vs[n-1].watch.Fd? {
        at := at + [n - 1];
      }
    }
  }

  /** What CauseFd names is the descriptor that woke the poll. */
  lemma CauseIsWoken(vs: seq<State>, at: seq<nat>, ready: seq<bool>, rc: int, i: nat)
    requires i < |vs| && Polled(vs, at) && |ready| == |at| == |Fds(vs, |vs|)|
    requires forall j :: 0 <= j < |at| ==> vs[at[j]].watch == Fd(Fds(vs, |vs|)[j])
    ensures vs[i].watch.Fd? ==>
              (CauseFd(rc, ready, Fds(vs, |vs|)) == [vs[i].watch.filedes] <==> rc > 0 && Woken(vs, at, ready, i))
  {
    assert ready[..|at|] == ready;
    FirstReadyIs(ready, 0);
  }

  lemma HitIsDue(vs: seq<State>, at: seq<nat>, ready: seq<bool>, rc: int, now: u64, i: nat)
    requires i < |vs| && Polled(vs, at) && |ready| == |at| == |Fds(vs, |vs|)|
    requires forall j :: 0 <= j < |at| ==> vs[at[j]].watch == Fd(Fds(vs, |vs|)[j])
    ensures vs[i].Hit(now, CauseFd(rc, ready, Fds(vs, |vs|))) <==> Due(vs, at, ready, rc, now, i)
  {
    CauseIsWoken(vs, at, ready, rc, i);
  }

  lemma {:induction false} FreshAre(vs: seq<State>, n: nat, now: u64, cause: seq<int>)
    requires n <= |vs|
    ensures var fired := Fresh(vs, n, now, cause);
            && Increasing(fired)
            && (forall j :: 0 <= j < |fired| ==>
                  fired[j] < n && vs[fired[j]].Hit(now, cause) && !vs[fired[j]].updated)
            && forall i :: 0 <= i < n && vs[i].Hit(now, cause) && !vs[i].updated ==> i in fired
  {
    if n > 0 {
      FreshAre(vs, n - 1, now, cause);
    }
  }

  ghost predicate Waited(vs: seq<State>, ready: seq<bool>, rc: int, now: u64, fired: seq<nat>, ws: seq<State>) {
    |vs| == |ws| &&
    exists at :: Polled(vs, at) && |at| == |ready| && CalledBack(vs, at, ready, rc, now, fired, ws)
  }

  lemma WaitCallsBack(vs: seq<State>, ready: seq<bool>, rc: int, now: u64, ws: seq<State>)
    requires |ready| == |Fds(vs, |vs|)| && |ws| == |vs|
    requires var cause := CauseFd(rc, ready, Fds(vs, |vs|));
             forall i :: 0 <= i < |vs| ==> ws[i] == if rc < 0 then vs[i] else vs[i].After(now, cause)
    ensures var cause := CauseFd(rc, ready, Fds(vs, |vs|));
            Waited(vs, ready, rc, now, if rc < 0 then [] else Fresh(vs, |vs|, now, cause), ws)
  {
    var at := FdsAt(vs, |vs|);
    assert vs[..|vs|] == vs;
    if rc >= 0 {
      var cause := CauseFd(rc, ready, Fds(vs, |vs|));
      forall i | 0 <= i < |vs|
        ensures vs[i].Hit(now, cause) <==> Due(vs, at, ready, rc, now, i)
      {
        HitIsDue(vs, at, ready, rc, now, i);
      }
      CalledBackWhenDue(vs, at, ready, rc, now, cause, ws);
    } else {
      assert ws == vs;
    }
  }

  lemma CalledBackWhenDue(vs: seq<State>, at: seq<nat>, ready: seq<bool>, rc: int, now: u64, cause: seq<int>,
                          ws: seq<State>)
    requires Polled(vs, at) && |at| == |ready| && |vs| == |ws| && rc >= 0
    requires forall i :: 0 <= i < |vs| ==> (vs[i].Hit(now, cause) <==> Due(vs, at, ready, rc, now, i))
    requires forall i :: 0 <= i < |vs| ==> ws[i] == vs[i].After(now, cause)
    ensures CalledBack(vs, at, ready, rc, now, Fresh(vs, |vs|, now, cause), ws)
  {
    FreshAre(vs, |vs|, now, cause);
  }

  /** The tickets' states are those of `was` stepped by a wait whose poll gave rc; -1 changes nothing. */
  ghost predicate Stepped(ts: seq<Ticket>, was: seq<State>, rc: int, now: u64, cause: seq<int>)
    requires |ts| <= |was|
    reads ts
  {
    forall i :: 0 <= i < |ts| ==> ts[i].View() == if rc < 0 then was[i] else was[i].After(now, cause)
  }

  /** What holds of the tickets and one more holds of the tickets, and of the one. */
  lemma OneLess(ts: seq<Ticket>, ticket: Ticket, was: seq<State>, own: State, rc: int, now: u64, cause: seq<int>)
    requires |ts| == |was| && Stepped(ts + [ticket], was + [own], rc, now, cause)
    ensures Stepped(ts, was, rc, now, cause)
    ensures ticket.View() == if rc < 0 then own else own.After(now, cause)
  {
    assert (ts + [ticket])[|ts|] == ticket && (was + [own])[|ts|] == own;
    forall i | 0 <= i < |ts|
      ensures ts[i].View() == if rc < 0 then was[i] else was[i].After(now, cause)
    {
      assert (ts + [ticket])[i] == ts[i] && (was + [own])[i] == was[i];
    }
  }

  /** The positions called back when a timeout without a callback stands behind all other tickets:
      theirs as in an ordinary wait, then its own if it is due. */
  function FiredWith(was: seq<State>, own: State, rc: int, now: u64, cause: seq<int>): seq<nat> {
    if rc < 0 then []
    else Fresh(was, |was|, now, cause) + if own.Hit(now, cause) && !own.updated then [|was|] else []
  }

  /** A wait with a timeout of its own behind all others, and whether that was called back. */
  ghost predicate WaitedWith(vs: seq<State>, own: State, ready: seq<bool>, rc: int, now: u64, fired: seq<nat>,
                             ws: seq<State>, result: int) {
    && own.watch.Timeout?
    && result == (if rc >= 0 && DueAt(own) <= now then -1 else 0)
    && exists after :: Waited(vs + [own], ready, rc, now, fired, ws + [after])
  }

  lemma WaitedWithOwn(vs: seq<State>, own: State, ready: seq<bool>, rc: int, now: u64, ws: seq<State>)
    requires |ready| == |Fds(vs, |vs|)| && |ws| == |vs| && own.watch.Timeout?
    requires var cause := CauseFd(rc, ready, Fds(vs, |vs|));
             forall i :: 0 <= i < |vs| ==> ws[i] == if rc < 0 then vs[i] else vs[i].After(now, cause)
    ensures WaitedWith(vs, own, ready, rc, now, FiredWith(vs, own, rc, now, CauseFd(rc, ready, Fds(vs, |vs|))), ws,
                       if rc >= 0 && now >= own.Deadline() then -1 else 0)
  {
    var cause := CauseFd(rc, ready, Fds(vs, |vs|));
    var after := if rc < 0 then own else own.After(now, cause);
    OneMore(vs, own);
    OneMoreFired(vs, own, now, cause);
    WaitCallsBack(vs + [own], ready, rc, now, ws + [after]);
  }

  lemma {:induction false} FreshPrefix(vs: seq<State>, more: seq<State>, n: nat, now: u64, cause: seq<int>)
    requires n <= |vs|
    ensures Fresh(vs + more, n, now, cause) == Fresh(vs, n, now, cause)
  {
    if n > 0 {
      FreshPrefix(vs, more, n - 1, now, cause);
    }
  }

  lemma OneMoreFired(was: seq<State>, own: State, now: u64, cause: seq<int>)
    ensures Fresh(was + [own], |was| + 1, now, cause) == FiredWith(was, own, 0, now, cause)
  {
    FreshPrefix(was, [own], |was|, now, cause);
  }

  class Waiter {
    var tickets: seq<Ticket>
    var count: nat
    var pollset: Pollset?

    /** The capacity the poll set has at least, for a given number of tickets. */
    static function Capacity(n: nat): nat { (n + 31) / 32 * 32 + 1 }

    static lemma CapacityStep(n: nat)
      ensures Capacity(n) <= Capacity(n + 1)
      ensures if n % 32 == 0 then Capacity(n + 1) == n + 33 else Capacity(n + 1) == Capacity(n)
    {
    }

    ghost predicate Distinct()
      reads this
    {
      forall i, j :: 0 <= i < j < |tickets| ==> tickets[i] != tickets[j]
    }

    ghost predicate Valid()
      reads this, pollset
    {
      && count == |tickets|
      && Distinct()
      && (tickets != [] ==> pollset != null)
      && (pollset != null ==> pollset.fds.Length >= Capacity(count))
    }

    /** waiter_create */
    constructor ()
      ensures Valid() && tickets == [] && pollset == null
    {
      tickets, count, pollset := [], 0, null;
    }

    /** waiter_add_null: the poll set is replaced whenever the count is a multiple of 32. */
    method AddNull() returns (ticket: Ticket)
      requires Valid()
      modifies this
      ensures Valid() && fresh(ticket) && tickets == old(tickets) + [ticket]
      ensures ticket.View() == State(Nothing, 0, false)
      ensures pollset != null && if old(count) % 32 == 0 then fresh(pollset) && pollset.fds.Length == old(count) + 33
                                 else pollset == old(pollset)
    {
      CapacityStep(count);
      ticket := new Ticket();
      tickets := tickets + [ticket];
      if count % 32 == 0 {
        pollset := new Pollset(count + 33);
      }
      count := count + 1;
    }

    /** waiter_add_fd */
    method AddFd(fd: int) returns (ticket: Ticket)
      requires Valid()
      modifies this
      ensures Valid() && fresh(ticket) && tickets == old(tickets) + [ticket]
      ensures ticket.View() == State(Fd(fd), 0, false)
      ensures pollset != null && if old(count) % 32 == 0 then fresh(pollset) && pollset.fds.Length == old(count) + 33
                                 else pollset == old(pollset)
    {
      ticket := AddNull();
      ticket.watch := Fd(fd);
    }

    /** waiter_add_timeout, at clock reading `now` */
    method AddTimeout(ms: nat, now: u64) returns (ticket: Ticket)
      requires Valid()
      modifies this
      ensures Valid() && fresh(ticket) && tickets == old(tickets) + [ticket]
      ensures ticket.View() == State(Timeout(ms), now, false)
      ensures pollset != null && if old(count) % 32 == 0 then fresh(pollset) && pollset.fds.Length == old(count) + 33
                                 else pollset == old(pollset)
    {
      ticket := AddNull();
      ticket.watch := Timeout(ms);
      ticket.start := now;
    }

    /** waiter_ticket_delete */
    method Delete(ticket: Ticket, ghost k: nat)
      requires Valid() && k < |tickets| && tickets[k] == ticket
      modifies this
      ensures Valid() && tickets == old(tickets)[..k] + old(tickets)[k+1..] && pollset == old(pollset)
    {
      var i := 0;
      while tickets[i] != ticket
        invariant 0 <= i <= k
        decreases k - i
      {
        i := i + 1;
      }
      CapacityStep(count - 1);
      tickets := tickets[..i] + tickets[i+1..];
      count := count - 1;
    }

    /** The inner loop of waiter_synchronize: ticket i hands its start to the next ticket like it. */
    method HandOn(i: nat, ghost was: seq<State>)
      requires Distinct() && i < |tickets| == |was| && was[i].watch.Timeout?
      requires forall j :: 0 <= j < |tickets| ==> tickets[j].View() == Handed(was, j, i)
      modifies tickets
      ensures forall j :: 0 <= j < |tickets| ==> tickets[j].View() == Handed(was, j, i + 1)
    {
      var ticket := tickets[i];
      assert ticket.View() == Handed(was, i, i);
      var k := i + 1;
      while k < |tickets|
        invariant i < k <= |tickets|
        invariant forall j :: 0 <= j < |tickets| ==> tickets[j].View() == Handed(was, j, i)
        invariant forall m :: i < m < k ==> !Alike(was[m], was[i])
      {
        var oticket := tickets[k];
        assert oticket.View() == Handed(was, k, i);
        if oticket.watch.Timeout? && oticket.watch.interval == ticket.watch.interval {
          assert LastAlike(was, k, k) == i;
          oticket.start := ticket.start;
          assert oticket.View() == Handed(was, k, i + 1);
          break;
        }
        k := k + 1;
      }
      assert forall j :: 0 <= j < |was| && j != k && was[j].watch.Timeout? ==> LastAlike(was, j, j) != i;
    }

    /** waiter_synchronize: all timeouts of the same interval end up with the start of the first
        of them, although each only hands its start to the next one; nothing else changes. */
    method Synchronize()
      requires Distinct()
      modifies tickets
      ensures Synchronized(old(Views(tickets)), Views(tickets))
    {
      ghost var was := Views(tickets);
      HandAllOn();
      SynchronizedBy(was, Views(tickets));
    }

    /** The outer loop of waiter_synchronize. */
    method HandAllOn()
      requires Distinct()
      modifies tickets
      ensures forall j :: 0 <= j < |tickets| ==>
                var was := old(Views(tickets));
                tickets[j].View() == if was[j].watch.Timeout? then was[j].(start := was[FirstAlike(was, j)].start)
                  else was[j]
    {
      ghost var was := Views(tickets);
      var i := 0;
      while i < |tickets|
        invariant 0 <= i <= |tickets|
        invariant forall j :: 0 <= j < |tickets| ==> tickets[j].View() == Handed(was, j, i)
      {
        assert tickets[i].View() == Handed(was, i, i);
        if tickets[i].watch.Timeout? {
          HandOn(i, was);
        } else {
          NothingHanded(was, i);
        }
        i := i + 1;
      }
    }

    /** The body of the first loop of waiter_wait. */
    method CollectOne(ticket: Ticket, termTime: u64) returns (t: u64)
      requires pollset != null && (ticket.watch.Fd? ==> pollset.nfds < pollset.fds.Length)
      modifies pollset`nfds, pollset.fds
      ensures var d := ticket.View().Deadline();
              t == if ticket.watch.Timeout? && d < termTime then d else termTime
      ensures var more := if ticket.watch.Fd? then [ticket.watch.filedes] else [];
              && pollset.nfds == old(pollset.nfds) + |more|
              && (old(pollset.nfds) <= pollset.fds.Length ==>
                    pollset.nfds <= pollset.fds.Length
                    && pollset.fds[..pollset.nfds] == old(pollset.fds[..pollset.nfds]) + more)
    {
      t := termTime;
      match ticket.watch {
        case Timeout(interval) =>
          if (ticket.start + interval) % U64 < termTime {
            t := (ticket.start + interval) % U64;
          }
        case Fd(filedes) => pollset.AddFd(filedes);
        case Nothing =>
      }
    }

    /** The first loop of waiter_wait: the earliest deadline and the descriptors to poll. */
    method Collect() returns (termTime: u64)
      requires pollset != null && |Fds(Views(tickets), |tickets|)| <= pollset.fds.Length
      modifies pollset, pollset.fds
      ensures pollset.fds == old(pollset.fds) && pollset.nfds <= pollset.fds.Length
      ensures termTime == Earliest(old(Views(tickets)), |tickets|)
      ensures pollset.fds[..pollset.nfds] == Fds(old(Views(tickets)), |tickets|)
    {
      ghost var was := Views(tickets);
      pollset.nfds := 0;
      termTime := FOREVER;
      var i := 0;
      while i < |tickets|
        invariant 0 <= i <= |tickets| && pollset.fds == old(pollset.fds)
        invariant termTime == Earliest(was, i)
        invariant pollset.nfds == |Fds(was, i)| <= pollset.fds.Length && pollset.fds[..pollset.nfds] == Fds(was, i)
      {
        FdsGrow(was, i + 1, |tickets|);
        assert was[i] == tickets[i].View();
        termTime := CollectOne(tickets[i], termTime);
        i := i + 1;
      }
    }

    /** The body of the second loop of waiter_wait. */
    method FireOne(ticket: Ticket, now: u64, rc: int, ghost cause: seq<int>) returns (isFresh: bool)
      requires pollset != null && rc >= 0
      requires rc > 0 ==> pollset.cause < pollset.nfds <= pollset.fds.Length
      requires cause == if rc > 0 && pollset.cause >= 0 then [pollset.fds[pollset.cause]] else []
      modifies ticket
      ensures ticket.View() == old(ticket.View()).After(now, cause)
      ensures isFresh <==> old(ticket.View()).Hit(now, cause) && !old(ticket.updated)
    {
      isFresh := false;
      match ticket.watch {
        case Timeout(interval) =>
          if now >= (ticket.start + interval) % U64 {
            ticket.start := now;
            isFresh := !ticket.updated;
          }
        case Fd(filedes) =>
          if rc != 0 && pollset.cause >= 0 && pollset.fds[pollset.cause] == filedes {
            isFresh := !ticket.updated;
          }
        case Nothing =>
      }
      if isFresh {
        ticket.updated := true;
      }
    }

    /** The second loop of waiter_wait: every hit timeout restarts at `now`, every hit ticket is
        marked, and those not yet marked are called back. */
    method Fire(now: u64, rc: int, ghost cause: seq<int>) returns (fired: seq<nat>)
      requires Distinct() && pollset != null && rc >= 0
      requires rc > 0 ==> pollset.cause < pollset.nfds <= pollset.fds.Length
      requires cause == if rc > 0 && pollset.cause >= 0 then [pollset.fds[pollset.cause]] else []
      modifies tickets
      ensures forall i :: 0 <= i < |tickets| ==> tickets[i].View() == old(Views(tickets))[i].After(now, cause)
      ensures fired == Fresh(old(Views(tickets)), |tickets|, now, cause)
    {
      ghost var was := Views(tickets);
      fired := [];
      var i := 0;
      while i < |tickets|
        invariant 0 <= i <= |tickets|
        invariant forall j :: 0 <= j < |tickets| ==> tickets[j].View() == if j < i then was[j].After(now, cause)
                  else was[j]
        invariant fired == Fresh(was, i, now, cause)
      {
        assert tickets[i].View() == was[i];
        var isFresh := FireOne(tickets[i], now, rc, cause);
        fired := fired + if isFresh then [i] else [];
        i := i + 1;
      }
    }

    /** The poll in the middle of waiter_wait; `rc` is 0 when it is skipped. */
    method DoPoll(termTime: u64, before: u64, polled: int, ready: seq<bool>) returns (asked: Poll, rc: int)
      requires pollset != null && pollset.nfds <= |ready|
      modifies pollset`cause
      ensures asked == PollFor(termTime, before) && rc == if asked.Skipped? then 0 else polled
      ensures asked.Forever? <==> termTime == 0xffff_ffff_ffff_ffff
      ensures asked.Skipped? <==> termTime != 0xffff_ffff_ffff_ffff && termTime <= before
      ensures asked.For? ==> 0 < asked.ms <= 0x7fff_ffff && before + asked.ms <= termTime
                             && (asked.ms < 0x7fff_ffff ==> before + asked.ms == termTime)
      ensures rc > 0 ==> pollset.cause == FirstReady(ready[..pollset.nfds], 0)
    {
      rc := polled;
      FirstReadyIs(ready[..pollset.nfds], 0);
      if termTime == FOREVER {
        asked := Forever;
        pollset.Record(rc, ready);
      } else if before >= termTime {
        asked := Skipped;
        rc := 0;
      } else {
        var delta := termTime - before;
        if delta > MAX_DELAY {
          delta := MAX_DELAY;
        }
        asked := For(delta);
        pollset.Record(rc, ready);
      }
    }

    /** The loops of waiter_wait and the poll between them. */
    method PollAndFire(before: u64, polled: int, ready: seq<bool>, after: u64) returns (asked: Poll, fired: seq<nat>)
      requires Distinct() && pollset != null
      requires |ready| == |Fds(Views(tickets), |tickets|)| <= pollset.fds.Length
      modifies pollset, pollset.fds, tickets
      ensures pollset.fds == old(pollset.fds)
      ensures asked == PollFor(Earliest(old(Views(tickets)), |tickets|), before)
      ensures var rc := if asked.Skipped? then 0 else polled;
              var was := old(Views(tickets));
              var cause := CauseFd(rc, ready, Fds(was, |was|));
              && fired == (if rc < 0 then [] else Fresh(was, |was|, after, cause))
              && Stepped(tickets, was, rc, after, cause)
    {
      ghost var was := Views(tickets);
      var termTime := Collect();
      var rc;
      asked, rc := DoPoll(termTime, before, polled, ready);
      if rc < 0 {
        return asked, [];
      }
      fired := Fire(after, rc, CauseFd(rc, ready, Fds(was, |was|)));
    }

    /** waiter_wait: `before` and `after` are the clock readings around the poll, `polled` its
        result, `ready` the descriptors it marks. `fired` are the positions called back, in order.
        `Asks` and `Waited` say on the tickets' fields how it polls and what it does then. */
    method Wait(before: u64, polled: int, ready: seq<bool>, after: u64) returns (asked: Poll, fired: seq<nat>)
      requires Distinct() && pollset != null
      requires |ready| == |Fds(Views(tickets), |tickets|)| <= pollset.fds.Length
      modifies pollset, pollset.fds, tickets
      ensures pollset.fds == old(pollset.fds)
      ensures asked == PollFor(Earliest(old(Views(tickets)), |tickets|), before)
      ensures var rc := if asked.Skipped? then 0 else polled;
              var was := old(Views(tickets));
              var cause := CauseFd(rc, ready, Fds(was, |was|));
              && fired == (if rc < 0 then [] else Fresh(was, |was|, after, cause))
              && Stepped(tickets, was, rc, after, cause)
      ensures Asks(old(Views(tickets)), before, asked)
      ensures Waited(old(Views(tickets)), ready, if asked.Skipped? then 0 else polled, after, fired, Views(tickets))
    {
      ghost var was := Views(tickets);
      asked, fired := PollAndFire(before, polled, ready, after);
      PollForAsks(was, before);
      WaitCallsBack(was, ready, if asked.Skipped? then 0 else polled, after, Views(tickets));
    }

    /** The temporary ticket of waiter_wait_timeout joins the list without a new poll set. */
    method Join(ms: nat, begin: u64) returns (ticket: Ticket)
      requires Distinct()
      modifies this`tickets, this`count
      ensures Distinct() && fresh(ticket) && tickets == old(tickets) + [ticket] && count == old(count) + 1
      ensures Views(tickets) == old(Views(tickets)) + [State(Timeout(ms), begin, false)]
    {
      ticket := new Ticket();
      ticket.watch := Timeout(ms);
      ticket.start := begin;
      tickets := tickets + [ticket];
      count := count + 1;
    }

    /** ... and leaves it again. */
    method Leave()
      requires tickets != [] && count > 0
      modifies this`tickets, this`count
      ensures tickets == old(tickets)[..|old(tickets)|-1] && count == old(count) - 1
    {
      tickets := tickets[..|tickets|-1];
      count := count - 1;
    }

    /** The wait between the two, seen from the other tickets and from the temporary one. */
    method WaitWith(ticket: Ticket, ghost mine: seq<Ticket>, ghost was: seq<State>, ghost own: State,
                    before: u64, polled: int, ready: seq<bool>, after: u64) returns (asked: Poll, fired: seq<nat>)
      requires Distinct() && pollset != null && tickets == mine + [ticket] && |mine| == |was|
      requires Views(tickets) == was + [own] && own.watch.Timeout?
      requires |ready| == |Fds(was, |was|)| <= pollset.fds.Length
      modifies pollset, pollset.fds, tickets
      ensures pollset.fds == old(pollset.fds)
      ensures var e := Earliest(was, |was|);
              asked == PollFor(if own.Deadline() < e then own.Deadline() else e, before)
      ensures var rc := if asked.Skipped? then 0 else polled;
              var cause := CauseFd(rc, ready, Fds(was, |was|));
              && Stepped(mine, was, rc, after, cause)
              && ticket.View() == (if rc < 0 then own else own.After(after, cause))
              && fired == FiredWith(was, own, rc, after, cause)
    {
      OneMore(was, own);
      asked, fired := PollAndFire(before, polled, ready, after);
      ghost var rc := if asked.Skipped? then 0 else polled;
      OneLess(mine, ticket, was, own, rc, after, CauseFd(rc, ready, Fds(was, |was|)));
      OneMoreFired(was, own, after, CauseFd(rc, ready, Fds(was, |was|)));
    }

    /** waiter_wait_timeout: the result is nonzero exactly when the temporary ticket fired; the
        other tickets see an ordinary wait and are called back as in one. On the tickets' fields it is a
        wait with one more timeout behind all others, which is due at `begin` plus its interval. */
    method WaitTimeout(ms: nat, begin: u64, before: u64, polled: int, ready: seq<bool>, after: u64)
      returns (result: int, asked: Poll, fired: seq<nat>)
      requires Valid() && pollset != null
      requires |ready| == |Fds(Views(tickets), |tickets|)|
      modifies this`tickets, this`count, pollset, pollset.fds, tickets
      ensures Valid() && tickets == old(tickets)
      ensures var own := State(Timeout(ms), begin, false);
              var was := old(Views(tickets));
              var e := Earliest(was, |was|);
              && asked == PollFor(if own.Deadline() < e then own.Deadline() else e, before)
              && var rc := if asked.Skipped? then 0 else polled;
                 var cause := CauseFd(rc, ready, Fds(was, |was|));
                 && result == (if rc >= 0 && after >= own.Deadline() then -1 else 0)
                 && Stepped(tickets, was, rc, after, cause)
                 && fired == FiredWith(was, own, rc, after, cause)
      ensures Asks(old(Views(tickets)) + [State(Timeout(ms), begin, false)], before, asked)
      ensures WaitedWith(old(Views(tickets)), State(Timeout(ms), begin, false), ready,
                         if asked.Skipped? then 0 else polled, after, fired, Views(tickets), result)
    {
      ghost var was, own := Views(tickets), State(Timeout(ms), begin, false);
      result, asked, fired := WaitJoined(ms, begin, before, polled, ready, after);
      OneMore(was, own);
      PollForAsks(was + [own], before);
      WaitedWithOwn(was, own, ready, if asked.Skipped? then 0 else polled, after, Views(tickets));
    }

    /** The body of waiter_wait_timeout. */
    method WaitJoined(ms: nat, begin: u64, before: u64, polled: int, ready: seq<bool>, after: u64)
      returns (result: int, asked: Poll, fired: seq<nat>)
      requires Valid() && pollset != null
      requires |ready| == |Fds(Views(tickets), |tickets|)|
      modifies this`tickets, this`count, pollset, pollset.fds, tickets
      ensures Valid() && tickets == old(tickets)
      ensures var own := State(Timeout(ms), begin, false);
              var was := old(Views(tickets));
              var e := Earliest(was, |was|);
              && asked == PollFor(if own.Deadline() < e then own.Deadline() else e, before)
              && var rc := if asked.Skipped? then 0 else polled;
                 var cause := CauseFd(rc, ready, Fds(was, |was|));
                 && result == (if rc >= 0 && after >= own.Deadline() then -1 else 0)
                 && Stepped(tickets, was, rc, after, cause)
                 && fired == FiredWith(was, own, rc, after, cause)
    {
      ghost var mine, was := tickets, Views(tickets);
      ghost var own := State(Timeout(ms), begin, false);
      var ticket := Join(ms, begin);
      asked, fired := WaitWith(ticket, mine, was, own, before, polled, ready, after);
      result := if ticket.updated then -1 else 0;
      Leave();
    }
  }
}
