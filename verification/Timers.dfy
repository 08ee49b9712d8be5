/** Timers and their manager.

    The manager keeps a heap of entries, not of timers: an entry is skipped when it
    surfaces if its timer is gone, if another timer now lives at the same address,
    or if the timer has been rescheduled since.  What exists in memory is a map from
    addresses to timers, so that an address can be reused; the heap is known only by
    its contents and by having an earliest entry in front. */
module Timers {
  type Address = nat
  type Time = int  // nanoseconds

  datatype Timer = Timer(singleShot: bool, interval: Time, due: Time, serial: nat)
  datatype Entry = Entry(due: Time, addr: Address, serial: nat)

  /** The heap's contents, the registered addresses, the timers that exist, and the
      last serial handed out. */
  datatype Manager = Manager(heap: multiset<Entry>, live: set<Address>, timers: map<Address, Timer>, serial: nat)

  function EntryOf(m: Manager, a: Address): Entry
    requires a in m.timers
  {
    Entry(m.timers[a].due, a, m.timers[a].serial)
  }

  /** An entry still refers to the timer it was made for. */
  predicate Current(m: Manager, e: Entry)
    requires m.live <= m.timers.Keys
  {
    e.addr in m.live && m.timers[e.addr].serial == e.serial && m.timers[e.addr].due == e.due
  }

  // ---- the operations on values ------------------------------------------------------

  function Schedule(m: Manager, a: Address): Manager
    requires a in m.timers
  {
    m.(heap := m.heap + multiset{EntryOf(m, a)})
  }

  function Construct(m: Manager, a: Address, at: Time, interval: Time, singleShot: bool): Manager
    requires a !in m.timers
  {
    var t := Timer(singleShot, interval, at + interval, m.serial + 1);
    Schedule(m.(timers := m.timers[a := t], live := m.live + {a}, serial := m.serial + 1), a)
  }

  function Destroy(m: Manager, a: Address): Manager {
    m.(timers := m.timers - {a}, live := m.live - {a})
  }

  function Rearm(m: Manager, a: Address, due: Time): Manager
    requires a in m.timers
  {
    Schedule(m.(timers := m.timers[a := m.timers[a].(due := due)]), a)
  }

  function Reset(m: Manager, a: Address, at: Time): Manager
    requires a in m.timers
  {
    Rearm(m, a, at + m.timers[a].interval)
  }

  /** What firing does before the callback runs. */
  function Fire(m: Manager, a: Address, now: Time): Manager
    requires a in m.timers
  {
    if m.timers[a].singleShot then m.(live := m.live - {a}) else Rearm(m, a, now + m.timers[a].interval)
  }

  // ---- what every operation keeps -------------------------------------------------------

  ghost predicate Inv(m: Manager) {
    && m.live <= m.timers.Keys
    && (forall a :: a in m.live ==> EntryOf(m, a) in m.heap)
    && (forall a :: a in m.timers ==> m.timers[a].serial <= m.serial)
    && (forall e :: e in m.heap ==> e.serial <= m.serial)
    && (forall a, b :: a in m.timers && b in m.timers && m.timers[a].serial == m.timers[b].serial ==> a == b)
    && (forall e, a :: e in m.heap && a in m.timers && m.timers[a].serial == e.serial ==> e.addr == a)
  }

  lemma ScheduleKeeps(m: Manager, a: Address)
    requires Inv(m) && a in m.timers
    ensures Inv(Schedule(m, a))
  {
  }

  lemma RegisterKeeps(m: Manager, a: Address)
    requires Inv(m) && a in m.timers && EntryOf(m, a) in m.heap
    ensures Inv(m.(live := m.live + {a}))
  {
    var n := m.(live := m.live + {a});
    assert forall b :: b in m.timers ==> EntryOf(n, b) == EntryOf(m, b);
  }

  lemma CreateKeeps(m: Manager, a: Address, t: Timer)
    requires Inv(m) && a !in m.timers && t.serial == m.serial + 1
    ensures Inv(m.(timers := m.timers[a := t], serial := t.serial))
  {
    var n := m.(timers := m.timers[a := t], serial := t.serial);
    assert forall b :: b in m.live ==> EntryOf(n, b) == EntryOf(m, b);
  }

  lemma ConstructKeeps(m: Manager, a: Address, at: Time, interval: Time, singleShot: bool)
    requires Inv(m) && a !in m.timers
    ensures Inv(Construct(m, a, at, interval, singleShot))
  {
    hide Inv;
    var t := Timer(singleShot, interval, at + interval, m.serial + 1);
    var n := m.(timers := m.timers[a := t], serial := t.serial);
    CreateKeeps(m, a, t);
    ScheduleKeeps(n, a);
    RegisterKeeps(Schedule(n, a), a);
  }

  lemma DestroyKeeps(m: Manager, a: Address)
    requires Inv(m)
    ensures Inv(Destroy(m, a))
  {
    var n := Destroy(m, a);
    assert forall b :: b in n.timers ==> EntryOf(n, b) == EntryOf(m, b);
  }

  lemma DueKeeps(m: Manager, a: Address, due: Time)
    requires Inv(m) && a in m.timers && a !in m.live
    ensures Inv(m.(timers := m.timers[a := m.timers[a].(due := due)]))
  {
    var n := m.(timers := m.timers[a := m.timers[a].(due := due)]);
    assert forall b :: b in m.timers && b != a ==> EntryOf(n, b) == EntryOf(m, b);
  }

  lemma RearmKeeps(m: Manager, a: Address, due: Time)
    requires Inv(m) && a in m.timers
    ensures Inv(Rearm(m, a, due))
  {
    hide Inv;
    var n := m.(live := m.live - {a});
    var q := n.(timers := n.timers[a := n.timers[a].(due := due)]);
    RetireKeeps(m, a);
    DueKeeps(n, a, due);
    ScheduleKeeps(q, a);
    if a in m.live {
      RegisterKeeps(Schedule(q, a), a);
      assert m.live - {a} + {a} == m.live;
    } else {
      assert m.live - {a} == m.live;
    }
  }

  lemma RetireKeeps(m: Manager, a: Address)
    requires Inv(m)
    ensures Inv(m.(live := m.live - {a}))
  {
    var n := m.(live := m.live - {a});
    assert forall b :: b in m.timers ==> EntryOf(n, b) == EntryOf(m, b);
  }

  /** An entry that is not current may be dropped. */
  lemma DropStaleKeeps(m: Manager, e: Entry)
    requires Inv(m) && e in m.heap && !Current(m, e)
    ensures Inv(m.(heap := m.heap - multiset{e}))
  {
    var n := m.(heap := m.heap - multiset{e});
    forall a | a in m.live ensures EntryOf(n, a) in n.heap {
      assert EntryOf(m, a) in m.heap && EntryOf(m, a) != e;
    }
  }

  /** The current entry of a timer is dropped as the timer fires. */
  lemma FireKeeps(m: Manager, e: Entry, now: Time)
    requires m.live <= m.timers.Keys && Inv(m) && e in m.heap && Current(m, e)
    ensures Inv(Fire(m.(heap := m.heap - multiset{e}), e.addr, now))
  {
    hide Inv, Rearm;
    var a, t := e.addr, m.timers[e.addr];
    var n := m.(live := m.live - {a});
    RetireKeeps(m, a);
    DropStaleKeeps(n, e);
    if !t.singleShot {
      FireAgainKeeps(m.(heap := m.heap - multiset{e}), a, now + t.interval);
    }
  }

  lemma FireAgainKeeps(m: Manager, a: Address, due: Time)
    requires a in m.live && a in m.timers && Inv(m.(live := m.live - {a}))
    ensures Inv(Rearm(m, a, due))
  {
    hide Inv;
    var n := m.(live := m.live - {a});
    RearmKeeps(n, a, due);
    RegisterKeeps(Rearm(n, a, due), a);
    assert n.live + {a} == m.live;
  }

  // ---- the wait until the next deadline ---------------------------------------------------

  const MS: nat := 1_000_000

  /** The plain computation over the live timers: -1 without any, 0 when one is due,
      and otherwise the milliseconds after which the earliest deadline has just
      passed. */
  ghost predicate IsWait(m: Manager, now: Time, w: int)
    requires m.live <= m.timers.Keys
  {
    if m.live == {} then w == -1
    else if exists a :: a in m.live && m.timers[a].due <= now then w == 0
    else exists a :: a in m.live
                     && (forall b :: b in m.live ==> m.timers[a].due <= m.timers[b].due)
                     && now + (w - 1) * MS < m.timers[a].due <= now + w * MS
  }

  lemma NoWait(m: Manager, now: Time, a: Address)
    requires m.live <= m.timers.Keys && a in m.live && m.timers[a].due <= now
    ensures IsWait(m, now, 0)
  {
  }

  lemma WaitForFirst(m: Manager, now: Time, a: Address)
    requires m.live <= m.timers.Keys && a in m.live && now < m.timers[a].due
    requires forall b :: b in m.live ==> m.timers[a].due <= m.timers[b].due
    ensures IsWait(m, now, (m.timers[a].due - now + MS - 1) / MS)
  {
  }

  /** Of the first `n` entries the current ones are none, or all lie ahead and `best` is
      the earliest of them, the deadline of `from`. */
  ghost predicate Scanned(m: Manager, heap: seq<Entry>, n: nat, now: Time, found: bool, best: Time, from: Address)
    requires m.live <= m.timers.Keys && n <= |heap|
  {
    && (found ==> from in m.live && best == m.timers[from].due > now)
    && (forall k :: 0 <= k < n && Current(m, heap[k]) ==> found && best <= heap[k].due)
  }

  lemma ScannedAll(m: Manager, heap: seq<Entry>, now: Time, found: bool, best: Time, from: Address)
    requires Inv(m) && m.heap == multiset(heap) && Scanned(m, heap, |heap|, now, found, best, from)
    ensures found ==> IsWait(m, now, (best - now + MS - 1) / MS)
    ensures !found ==> IsWait(m, now, -1)
  {
    hide IsWait, Current;
    forall a | a in m.live ensures found && best <= m.timers[a].due {
      assert EntryOf(m, a) in multiset(heap);
      var k :| 0 <= k < |heap| && heap[k] == EntryOf(m, a);
      assert Current(m, heap[k]) by { EntryIsCurrent(m, a); }
    }
    if found { WaitForFirst(m, now, from); } else { NothingToWaitFor(m, now); }
  }

  lemma EntryIsCurrent(m: Manager, a: Address)
    requires m.live <= m.timers.Keys && a in m.live
    ensures Current(m, EntryOf(m, a))
  {
  }

  lemma NothingToWaitFor(m: Manager, now: Time)
    requires m.live == {}
    ensures IsWait(m, now, -1)
  {
  }

  lemma WaitUnique(m: Manager, now: Time, v: int, w: int)
    requires m.live <= m.timers.Keys && IsWait(m, now, v) && IsWait(m, now, w)
    ensures v == w
  {
  }

  /** The conversion to a 32-bit int. */
  function ToInt32(w: int): (r: int)
    ensures -0x8000_0000 <= r < 0x8000_0000
  {
    (w + 0x8000_0000) % 0x1_0000_0000 - 0x8000_0000
  }

  lemma Converted(w: int)
    requires w >= -1
    ensures ToInt32(w) == w <==> w <= 0x7fff_ffff
  {
  }

  /** A live timer has its deadline within INT_MAX milliseconds. */
  ghost predicate DueWithinInt(m: Manager, now: Time)
    requires m.live <= m.timers.Keys
  {
    exists a :: a in m.live && m.timers[a].due <= now + 0x7fff_ffff * MS
  }

  lemma WaitIsBounded(m: Manager, now: Time, w: int)
    requires m.live <= m.timers.Keys && IsWait(m, now, w) && m.live != {}
    ensures w >= 0 && (w <= 0x7fff_ffff <==> DueWithinInt(m, now))
  {
    if exists a :: a in m.live && m.timers[a].due <= now {
      var a :| a in m.live && m.timers[a].due <= now;
      assert m.timers[a].due <= now + 0x7fff_ffff * MS;
    } else {
      var a :| && a in m.live && (forall b :: b in m.live ==> m.timers[a].due <= m.timers[b].due)
               && now + (w - 1) * MS < m.timers[a].due <= now + w * MS;
      if w <= 0x7fff_ffff { assert m.timers[a].due <= now + 0x7fff_ffff * MS; }
    }
  }

  /** The int that is returned is the plain wait if and only if there is no timer, or one
      whose deadline is within INT_MAX milliseconds. */
  lemma WaitExact(m: Manager, now: Time, w: int)
    requires m.live <= m.timers.Keys && IsWait(m, now, w)
    ensures IsWait(m, now, ToInt32(w)) <==> m.live == {} || DueWithinInt(m, now)
  {
    hide ToInt32, DueWithinInt;
    if m.live == {} {
      Converted(w);
    } else {
      WaitIsBounded(m, now, w);
      Converted(w);
      if IsWait(m, now, ToInt32(w)) { WaitUnique(m, now, w, ToInt32(w)); }
    }
  }

  /** A single timer due 2^32 - 1 milliseconds ahead: the wait reads as no timer at all. */
  lemma FarTimerReadsAsNone(a: Address, serial: nat)
    ensures var due := 0xffff_ffff * MS;
            var m := Manager(multiset{Entry(due, a, serial)}, {a}, map[a := Timer(true, due, due, serial)], serial);
            Inv(m) && IsWait(m, 0, 0xffff_ffff) && ToInt32(0xffff_ffff) == -1 && !IsWait(m, 0, -1)
  {
    var due := 0xffff_ffff * MS;
    var m := Manager(multiset{Entry(due, a, serial)}, {a}, map[a := Timer(true, due, due, serial)], serial);
    assert a in m.live && m.timers[a].due == due;
  }

  // ---- one processing pass ----------------------------------------------------------------

  /** What a callback may do; an operation that names no timer, or an address in use,
      does nothing. */
  datatype Op =
    | New(addr: Address, at: Time, interval: Time, singleShot: bool)
    | Delete(addr: Address)
    | Restart(addr: Address, at: Time)

  function Apply(m: Manager, op: Op): Manager {
    match op
    case New(a, at, interval, singleShot) => if a in m.timers then m else Construct(m, a, at, interval, singleShot)
    case Delete(a) => Destroy(m, a)
    case Restart(a, at) => if a in m.timers then Reset(m, a, at) else m
  }

  /** The address whose timer an operation destroys or resets. */
  function Touches(op: Op): set<Address> {
    if op.New? then {} else {op.addr}
  }

  function TouchedBy(ops: seq<Op>): set<Address> {
    if ops == [] then {} else TouchedBy(ops[..|ops| - 1]) + Touches(ops[|ops| - 1])
  }

  /** The addresses that the first `n` callbacks destroy or reset. */
  function TouchedIn(script: seq<seq<Op>>, n: nat): set<Address> {
    if n == 0 then {} else TouchedIn(script, n - 1) + CallbackTouches(script, n - 1)
  }

  function CallbackTouches(script: seq<seq<Op>>, k: nat): set<Address> {
    if k < |script| then TouchedBy(script[k]) else {}
  }

  // ---- reused addresses -----------------------------------------------------------------

  /** Everything that can happen to the manager: an operation of a caller, the firing of a
      timer, and the dropping of an entry. */
  datatype Deed = Does(op: Op) | Fires(addr: Address, now: Time) | Drops(entry: Entry)

  function Do(m: Manager, deed: Deed): Manager {
    match deed
    case Does(op) => Apply(m, op)
    case Fires(a, now) => if a in m.timers then Fire(m, a, now) else m
    case Drops(e) => m.(heap := m.heap - multiset{e})
  }

  function DoAll(m: Manager, deeds: seq<Deed>): Manager {
    if deeds == [] then m else Do(DoAll(m, deeds[..|deeds| - 1]), deeds[|deeds| - 1])
  }

  /** Whatever lives at `a` was constructed after the serial was handed out. */
  predicate Later(m: Manager, a: Address, serial: nat) {
    m.serial >= serial && m.live <= m.timers.Keys && (a in m.timers ==> m.timers[a].serial > serial)
  }

  lemma DoStaysLater(m: Manager, a: Address, serial: nat, deed: Deed)
    requires Later(m, a, serial)
    ensures Later(Do(m, deed), a, serial)
  {
  }

  lemma {:induction false} StaysLater(m: Manager, a: Address, serial: nat, deeds: seq<Deed>)
    requires Later(m, a, serial)
    ensures Later(DoAll(m, deeds), a, serial)
    decreases |deeds|
  {
    hide Do;
    if deeds != [] {
      StaysLater(m, a, serial, deeds[..|deeds| - 1]);
      DoStaysLater(DoAll(m, deeds[..|deeds| - 1]), a, serial, deeds[|deeds| - 1]);
    }
  }

  /** Once the timer an entry was made for is destroyed, the entry is never current again,
      whatever is constructed at its address or anywhere else, reset, fired and destroyed. */
  lemma ReusedAddressIsSafe(m: Manager, e: Entry, deeds: seq<Deed>)
    requires Inv(m) && e in m.heap
    ensures var n := DoAll(Destroy(m, e.addr), deeds);
            n.live <= n.timers.Keys && !Current(n, e)
  {
    hide DoAll;
    StaysLater(Destroy(m, e.addr), e.addr, e.serial, deeds);
  }

  /** The clock does not run backwards, and intervals are positive. */
  predicate Timely(op: Op, now: Time) {
    match op
    case New(_, at, interval, _) => at >= now && interval > 0
    case Delete(_) => true
    case Restart(_, at) => at >= now
  }

  /** So it is in every callback. */
  predicate AllTimely(script: seq<seq<Op>>, now: Time) {
    forall k, i :: 0 <= k < |script| && 0 <= i < |script[k]| ==> Timely(script[k][i], now)
  }

  ghost predicate Positive(m: Manager) {
    forall a :: a in m.timers ==> m.timers[a].interval > 0
  }

  /** Fired in order of deadline, each timer once, and only timers that were due at
      the start with the deadline they had then. */
  ghost predicate FiredWell(m0: Manager, now: Time, fired: seq<Entry>) {
    && (forall i, j :: 0 <= i < j < |fired| ==> fired[i].due <= fired[j].due && fired[i].serial != fired[j].serial)
    && (forall i :: 0 <= i < |fired| ==>
          fired[i].due <= now && fired[i].addr in m0.live && fired[i].addr in m0.timers && fired[i] == EntryOf(m0, fired[i].addr))
  }

  /** None of those fired had been destroyed or reset by a callback before. */
  ghost predicate NoneTouched(script: seq<seq<Op>>, fired: seq<Entry>) {
    forall i :: 0 <= i < |fired| ==> fired[i].addr !in TouchedIn(script, i)
  }

  /** Every timer due at the start has fired, was destroyed or reset, or is still as it
      was. */
  ghost predicate NoneForgotten(m0: Manager, m: Manager, now: Time, fired: seq<Entry>, touched: set<Address>) {
    forall a :: a in m0.live && a in m0.timers && m0.timers[a].due <= now ==>
      || EntryOf(m0, a) in fired
      || a in touched
      || (a in m.live && a in m.timers && m.timers[a] == m0.timers[a])
  }

  /** Whatever is due now was due at the start and has not fired. */
  ghost predicate DueIsOld(m0: Manager, m: Manager, now: Time, fired: seq<Entry>) {
    forall a :: a in m.live && a in m.timers && m.timers[a].due <= now ==>
      && a in m0.live && a in m0.timers && m.timers[a] == m0.timers[a]
      && (forall i :: 0 <= i < |fired| ==> fired[i].serial != m.timers[a].serial)
  }

  ghost predicate FiredBefore(m: Manager, fired: seq<Entry>) {
    forall i, e :: 0 <= i < |fired| && e in m.heap ==> fired[i].due <= e.due
  }

  /** A timer that a callback has reset, or put where it destroyed another, is not due. */
  ghost predicate Spared(m: Manager, now: Time, touched: set<Address>) {
    forall a :: a in touched && a in m.live && a in m.timers ==> m.timers[a].due > now
  }

  ghost predicate Passing(m0: Manager, m: Manager, now: Time, fired: seq<Entry>, touched: set<Address>) {
    && Inv(m) && Positive(m) && Spared(m, now, touched)
    && FiredWell(m0, now, fired)
    && FiredBefore(m, fired)
    && DueIsOld(m0, m, now, fired)
    && NoneForgotten(m0, m, now, fired, touched)
  }

  lemma PassingBegins(m: Manager, now: Time)
    requires Inv(m) && Positive(m)
    ensures Passing(m, m, now, [], {})
  {
  }

  lemma DropKeepsPassing(m0: Manager, m: Manager, now: Time, fired: seq<Entry>, touched: set<Address>, e: Entry)
    requires m.live <= m.timers.Keys && Passing(m0, m, now, fired, touched) && e in m.heap && !Current(m, e)
    ensures Passing(m0, m.(heap := m.heap - multiset{e}), now, fired, touched)
  {
    hide Inv;
    DropStaleKeeps(m, e);
  }

  /** Only the timer at `a` changes, it is not due afterwards, and nothing due is put
      on the heap. */
  ghost predicate OnlyChanges(m: Manager, n: Manager, a: Address, now: Time) {
    && (forall b :: b != a ==> (b in n.live <==> b in m.live) && (b in n.timers <==> b in m.timers))
    && (forall b :: b != a && b in n.timers && b in m.timers ==> n.timers[b] == m.timers[b])
    && (a in n.live && a in n.timers ==> n.timers[a].due > now)
    && (forall e :: e in n.heap ==> e in m.heap || e.due > now)
  }

  /** Such a change is harmless provided a due timer at `a` is accounted for. */
  lemma ChangeKeepsPassing(m0: Manager, m: Manager, n: Manager, a: Address, now: Time,
                           fired: seq<Entry>, touched: set<Address>)
    requires FiredWell(m0, now, fired) && FiredBefore(m, fired)
    requires DueIsOld(m0, m, now, fired) && NoneForgotten(m0, m, now, fired, touched)
    requires OnlyChanges(m, n, a, now)
    requires a in m.live && a in m.timers && a in m0.timers && m.timers[a] == m0.timers[a] ==>
               a in touched || EntryOf(m0, a) in fired
    ensures FiredBefore(n, fired) && DueIsOld(m0, n, now, fired) && NoneForgotten(m0, n, now, fired, touched)
  {
  }

  lemma ChangeSpares(m: Manager, n: Manager, a: Address, now: Time, touched: set<Address>)
    requires Spared(m, now, touched) && OnlyChanges(m, n, a, now)
    ensures Spared(n, now, touched) && Spared(n, now, touched + {a})
  {
  }

  lemma RearmChanges(m: Manager, a: Address, due: Time, now: Time)
    requires a in m.timers && due > now
    ensures OnlyChanges(m, Rearm(m, a, due), a, now)
    ensures Positive(m) ==> Positive(Rearm(m, a, due))
  {
  }

  lemma ConstructChanges(m: Manager, op: Op, now: Time)
    requires op.New? && op.addr !in m.timers && Timely(op, now)
    ensures OnlyChanges(m, Apply(m, op), op.addr, now)
    ensures Positive(m) ==> Positive(Apply(m, op))
  {
  }

  lemma DestroyChanges(m: Manager, a: Address, now: Time)
    ensures OnlyChanges(m, Destroy(m, a), a, now)
    ensures Positive(m) ==> Positive(Destroy(m, a))
  {
  }

  lemma FireChanges(m: Manager, e: Entry, now: Time)
    requires m.live <= m.timers.Keys && e in m.heap && Current(m, e) && m.timers[e.addr].interval > 0
    ensures OnlyChanges(m, Fire(m.(heap := m.heap - multiset{e}), e.addr, now), e.addr, now)
    ensures Positive(m) ==> Positive(Fire(m.(heap := m.heap - multiset{e}), e.addr, now))
  {
    var n := m.(heap := m.heap - multiset{e});
    if !m.timers[e.addr].singleShot { RearmChanges(n, e.addr, now + m.timers[e.addr].interval, now); }
  }

  /** The earliest entry joins the fired ones. */
  lemma FiredMore(m0: Manager, m: Manager, now: Time, fired: seq<Entry>, touched: set<Address>, e: Entry)
    requires m.live <= m.timers.Keys && e in m.heap && Current(m, e) && e.due <= now
    requires forall f :: f in m.heap ==> e.due <= f.due
    requires FiredWell(m0, now, fired) && FiredBefore(m, fired)
    requires DueIsOld(m0, m, now, fired) && NoneForgotten(m0, m, now, fired, touched)
    ensures FiredWell(m0, now, fired + [e]) && FiredBefore(m, fired + [e])
    ensures NoneForgotten(m0, m, now, fired + [e], touched)
    ensures e.addr in m0.timers && EntryOf(m0, e.addr) == e
  {
    assert forall f :: f in fired ==> f in fired + [e];
  }

  /** The timer that fires is accounted for, and no other has its serial. */
  lemma RetiredKeepsPassing(m0: Manager, m: Manager, now: Time, fired: seq<Entry>, touched: set<Address>, e: Entry)
    requires Inv(m) && Current(m, e)
    requires DueIsOld(m0, m, now, fired) && NoneForgotten(m0, m, now, fired + [e], touched)
    requires e.addr in m0.timers && EntryOf(m0, e.addr) == e
    ensures var r := m.(live := m.live - {e.addr});
            DueIsOld(m0, r, now, fired + [e]) && NoneForgotten(m0, r, now, fired + [e], touched)
  {
    assert e in fired + [e];
    var r := m.(live := m.live - {e.addr});
    forall a | a in r.live && a in r.timers && r.timers[a].due <= now
      ensures forall i :: 0 <= i < |fired + [e]| ==> (fired + [e])[i].serial != r.timers[a].serial
    {
      assert e.serial != m.timers[a].serial;
    }
  }

  lemma ChangesRetired(m: Manager, n: Manager, a: Address, now: Time)
    requires OnlyChanges(m, n, a, now)
    ensures OnlyChanges(m.(live := m.live - {a}), n, a, now)
  {
  }

  lemma BeforeRetired(m: Manager, a: Address, fired: seq<Entry>)
    requires FiredBefore(m, fired)
    ensures FiredBefore(m.(live := m.live - {a}), fired)
  {
  }

  lemma FireKeepsPassing(m0: Manager, m: Manager, now: Time, fired: seq<Entry>, touched: set<Address>, e: Entry)
    requires m.live <= m.timers.Keys && Passing(m0, m, now, fired, touched) && e in m.heap && Current(m, e) && e.due <= now
    requires forall f :: f in m.heap ==> e.due <= f.due
    ensures Passing(m0, Fire(m.(heap := m.heap - multiset{e}), e.addr, now), now, fired + [e], touched)
  {
    hide Inv, FiredWell, FiredBefore, DueIsOld, NoneForgotten, OnlyChanges, Fire, Spared;
    var n := Fire(m.(heap := m.heap - multiset{e}), e.addr, now);
    FireKeeps(m, e, now);
    FireChanges(m, e, now);
    ChangeSpares(m, n, e.addr, now, touched);
    FiredMore(m0, m, now, fired, touched, e);
    RetiredKeepsPassing(m0, m, now, fired, touched, e);
    var r := m.(live := m.live - {e.addr});
    assert OnlyChanges(r, n, e.addr, now) by { ChangesRetired(m, n, e.addr, now); }
    assert FiredBefore(r, fired + [e]) by { BeforeRetired(m, e.addr, fired + [e]); }
    ChangeKeepsPassing(m0, r, n, e.addr, now, fired + [e], touched);
  }

  lemma NewKeepsPassing(m0: Manager, m: Manager, now: Time, fired: seq<Entry>, touched: set<Address>, op: Op)
    requires m.live <= m.timers.Keys && Passing(m0, m, now, fired, touched)
    requires op.New? && Timely(op, now) && op.addr !in m.timers
    ensures Passing(m0, Apply(m, op), now, fired, touched)
  {
    hide Inv, FiredWell, FiredBefore, DueIsOld, NoneForgotten, OnlyChanges, Construct, Spared;
    ConstructKeeps(m, op.addr, op.at, op.interval, op.singleShot);
    ConstructChanges(m, op, now);
    ChangeSpares(m, Apply(m, op), op.addr, now, touched);
    ChangeKeepsPassing(m0, m, Apply(m, op), op.addr, now, fired, touched);
  }

  lemma TouchKeeps(m0: Manager, m: Manager, now: Time, fired: seq<Entry>, touched: set<Address>, more: set<Address>)
    requires NoneForgotten(m0, m, now, fired, touched)
    ensures NoneForgotten(m0, m, now, fired, touched + more)
  {
  }

  lemma DeleteKeepsPassing(m0: Manager, m: Manager, now: Time, fired: seq<Entry>, touched: set<Address>, op: Op)
    requires Passing(m0, m, now, fired, touched) && op.Delete?
    ensures Passing(m0, Apply(m, op), now, fired, touched + Touches(op))
  {
    hide Inv, FiredWell, FiredBefore, DueIsOld, NoneForgotten, OnlyChanges, Destroy, Spared;
    DestroyKeeps(m, op.addr);
    DestroyChanges(m, op.addr, now);
    ChangeSpares(m, Apply(m, op), op.addr, now, touched);
    TouchKeeps(m0, m, now, fired, touched, Touches(op));
    ChangeKeepsPassing(m0, m, Apply(m, op), op.addr, now, fired, touched + Touches(op));
  }

  lemma RestartKeepsPassing(m0: Manager, m: Manager, now: Time, fired: seq<Entry>, touched: set<Address>, op: Op)
    requires Passing(m0, m, now, fired, touched) && op.Restart? && Timely(op, now) && op.addr in m.timers
    ensures Passing(m0, Apply(m, op), now, fired, touched + Touches(op))
  {
    hide Inv, FiredWell, FiredBefore, DueIsOld, NoneForgotten, OnlyChanges, Rearm, Spared;
    var due := op.at + m.timers[op.addr].interval;
    RearmKeeps(m, op.addr, due);
    RearmChanges(m, op.addr, due, now);
    ChangeSpares(m, Apply(m, op), op.addr, now, touched);
    TouchKeeps(m0, m, now, fired, touched, Touches(op));
    ChangeKeepsPassing(m0, m, Apply(m, op), op.addr, now, fired, touched + Touches(op));
  }

  lemma MissKeepsPassing(m0: Manager, m: Manager, now: Time, fired: seq<Entry>, touched: set<Address>, a: Address)
    requires Passing(m0, m, now, fired, touched) && a !in m.timers
    ensures Passing(m0, m, now, fired, touched + {a})
  {
    hide Inv, FiredWell, FiredBefore, DueIsOld, NoneForgotten;
    TouchKeeps(m0, m, now, fired, touched, {a});
  }

  lemma ApplyKeepsPassing(m0: Manager, m: Manager, now: Time, fired: seq<Entry>, touched: set<Address>, op: Op)
    requires m.live <= m.timers.Keys && Passing(m0, m, now, fired, touched) && Timely(op, now)
    ensures Passing(m0, Apply(m, op), now, fired, touched + Touches(op))
  {
    hide Passing;
    if op.New? {
      assert touched + Touches(op) == touched;
      if op.addr !in m.timers { NewKeepsPassing(m0, m, now, fired, touched, op); }
    } else if op.Delete? {
      DeleteKeepsPassing(m0, m, now, fired, touched, op);
    } else if op.addr in m.timers {
      RestartKeepsPassing(m0, m, now, fired, touched, op);
    } else {
      MissKeepsPassing(m0, m, now, fired, touched, op.addr);
    }
  }

  /** The entries due in this pass are among those still awaited, which only shrink. */
  ghost predicate Awaited(m: Manager, now: Time, pending: multiset<Entry>) {
    forall e :: e in m.heap && e.due <= now ==> m.heap[e] <= pending[e]
  }

  /** Every timer due at the start has fired, or was destroyed or reset. */
  ghost predicate AllFired(m0: Manager, now: Time, fired: seq<Entry>, touched: set<Address>) {
    forall a :: a in m0.live && a in m0.timers && m0.timers[a].due <= now ==> EntryOf(m0, a) in fired || a in touched
  }

  ghost predicate NothingDue(m: Manager, now: Time) {
    forall a :: a in m.live ==> a in m.timers && m.timers[a].due > now
  }

  /** With nothing due left in the heap the pass has done its work. */
  lemma PassingEnds(m0: Manager, m: Manager, now: Time, fired: seq<Entry>, touched: set<Address>)
    requires Passing(m0, m, now, fired, touched) && forall e :: e in m.heap ==> e.due > now
    ensures NothingDue(m, now) && AllFired(m0, now, fired, touched)
  {
    forall a | a in m.live ensures a in m.timers && m.timers[a].due > now {
      assert EntryOf(m, a) in m.heap;
    }
  }

  // ---- the manager, updated in place ---------------------------------------------------------

  function MovedFirst(s: seq<Entry>, k: nat): (r: seq<Entry>)
    requires k < |s|
    ensures multiset(r) == multiset(s)
  {
    assert s == s[..k] + [s[k]] + s[k + 1..];
    [s[k]] + s[..k] + s[k + 1..]
  }

  method EarliestFirst(s: seq<Entry>) returns (r: seq<Entry>)
    ensures multiset(r) == multiset(s)
    ensures forall i :: 0 <= i < |r| ==> r[0].due <= r[i].due
  {
    if s == [] { return s; }
    var best := 0;
    for i := 1 to |s|
      invariant 0 <= best < |s|
      invariant forall k :: 0 <= k < i ==> s[best].due <= s[k].due
    {
      if s[i].due < s[best].due { best := i; }
    }
    r := MovedFirst(s, best);
    assert forall i :: 0 <= i < |r| ==> r[i] in multiset(r);
  }

  class TimerManager {
    var heap: seq<Entry>
    var live: set<Address>
    var timers: map<Address, Timer>
    var serial: nat

    ghost function Model(): Manager
      reads this
    {
      Manager(multiset(heap), live, timers, serial)
    }

    /** An earliest entry is in front, and the invariant holds. */
    ghost predicate Valid()
      reads this
    {
      (forall i :: 0 <= i < |heap| ==> heap[0].due <= heap[i].due) && Inv(Model())
    }

    constructor ()
      ensures Valid() && Model() == Manager(multiset{}, {}, map[], 0)
    {
      heap, live, timers, serial := [], {}, map[], 0;
    }

    /** Append and restore the heap order. */
    method PushHeap(e: Entry)
      requires forall i :: 0 <= i < |heap| ==> heap[0].due <= heap[i].due
      modifies this`heap
      ensures multiset(heap) == old(multiset(heap)) + multiset{e}
      ensures forall i :: 0 <= i < |heap| ==> heap[0].due <= heap[i].due
    {
      heap := if heap == [] || heap[0].due <= e.due then heap + [e] else [e] + heap;
    }

    /** Take the front entry and restore the heap order. */
    method PopHeap() returns (e: Entry)
      requires heap != [] && forall i :: 0 <= i < |heap| ==> heap[0].due <= heap[i].due
      modifies this`heap
      ensures e == old(heap[0]) && multiset(heap) == old(multiset(heap)) - multiset{e}
      ensures forall i :: 0 <= i < |heap| ==> heap[0].due <= heap[i].due
    {
      e := heap[0];
      assert heap == [e] + heap[1..];
      heap := EarliestFirst(heap[1..]);
    }

    method ScheduleTimer(a: Address)
      requires a in timers && forall i :: 0 <= i < |heap| ==> heap[0].due <= heap[i].due
      modifies this`heap
      ensures Model() == Schedule(old(Model()), a)
      ensures forall i :: 0 <= i < |heap| ==> heap[0].due <= heap[i].due
    {
      PushHeap(Entry(timers[a].due, a, timers[a].serial));
    }

    method ConstructTimer(a: Address, at: Time, interval: Time, singleShot: bool)
      requires Valid() && a !in timers
      modifies this
      ensures Valid() && Model() == Construct(old(Model()), a, at, interval, singleShot)
    {
      hide Inv;
      ConstructKeeps(Model(), a, at, interval, singleShot);
      serial := serial + 1;
      timers := timers[a := Timer(singleShot, interval, at + interval, serial)];
      live := live + {a};
      ScheduleTimer(a);
    }

    method DestroyTimer(a: Address)
      requires Valid()
      modifies this
      ensures Valid() && Model() == Destroy(old(Model()), a)
    {
      DestroyKeeps(Model(), a);
      live := live - {a};
      timers := timers - {a};
    }

    method ResetTimer(a: Address, at: Time)
      requires Valid() && a in timers
      modifies this
      ensures Valid() && Model() == Reset(old(Model()), a, at)
    {
      hide Inv;
      RearmKeeps(Model(), a, at + timers[a].interval);
      timers := timers[a := timers[a].(due := at + timers[a].interval)];
      ScheduleTimer(a);
    }

    /** The callback: the operations one after the other. */
    method RunCallback(ops: seq<Op>, now: Time, ghost m0: Manager, ghost fired: seq<Entry>, ghost touched: set<Address>,
                       ghost pending: multiset<Entry>)
      returns (ghost touched': set<Address>)
      requires Valid() && live <= timers.Keys && Passing(m0, Model(), now, fired, touched)
      requires forall i :: 0 <= i < |ops| ==> Timely(ops[i], now)
      requires Awaited(Model(), now, pending)
      modifies this
      ensures Valid() && live <= timers.Keys && Passing(m0, Model(), now, fired, touched')
      ensures Awaited(Model(), now, pending) && touched' == touched + TouchedBy(ops)
    {
      hide Inv, Passing;
      touched' := touched;
      for k := 0 to |ops|
        invariant Valid() && live <= timers.Keys && Passing(m0, Model(), now, fired, touched')
        invariant Awaited(Model(), now, pending) && touched' == touched + TouchedBy(ops[..k])
      {
        assert ops[..k + 1][..k] == ops[..k];
        ghost var m, op := Model(), ops[k];
        ApplyKeepsPassing(m0, m, now, fired, touched', op);
        NothingDueAdded(m0, m, now, fired, touched', op);
        match ops[k] {
          case New(a, at, interval, singleShot) => if a !in timers { ConstructTimer(a, at, interval, singleShot); }
          case Delete(a) => DestroyTimer(a);
          case Restart(a, at) => if a in timers { ResetTimer(a, at); }
        }
        touched' := touched' + Touches(op);
        assert Model() == Apply(m, op);
      }
      assert ops[..|ops|] == ops;
    }

    /** The bookkeeping of a timer that fires, ahead of its callback. */
    method InternalFire(a: Address, now: Time)
      requires a in timers && forall i :: 0 <= i < |heap| ==> heap[0].due <= heap[i].due
      modifies this
      ensures Model() == Fire(old(Model()), a, now)
      ensures forall i :: 0 <= i < |heap| ==> heap[0].due <= heap[i].due
    {
      if timers[a].singleShot {
        live := live - {a};
      } else {
        timers := timers[a := timers[a].(due := now + timers[a].interval)];
        ScheduleTimer(a);
      }
    }

    /** Fire the timer of a current entry that has been taken off the heap, and run
        its callback. */
    method FireEntry(e: Entry, now: Time, script: seq<seq<Op>>, ghost m: Manager,
                     ghost m0: Manager, ghost fired: seq<Entry>, k: nat, ghost touched: set<Address>, ghost pending: multiset<Entry>)
      returns (ghost touched': set<Address>)
      requires Model() == m.(heap := m.heap - multiset{e}) && k == |fired|
      requires forall i :: 0 <= i < |heap| ==> heap[0].due <= heap[i].due
      requires m.live <= m.timers.Keys && e in m.heap && Current(m, e) && e.due <= now
      requires forall f :: f in m.heap ==> e.due <= f.due
      requires Passing(m0, m, now, fired, touched) && Awaited(Model(), now, pending)
      requires AllTimely(script, now)
      modifies this
      ensures Valid() && live <= timers.Keys && Passing(m0, Model(), now, fired + [e], touched')
      ensures Awaited(Model(), now, pending) && touched' == touched + CallbackTouches(script, k)
    {
      hide Inv, Passing, Fire, Awaited, TouchedBy;
      ghost var popped := Model();
      FireKeepsPassing(m0, m, now, fired, touched, e);
      PassingFacts(m0, m, now, fired, touched);
      InternalFire(e.addr, now);
      FireAddsNothingDue(popped, e.addr, now, pending);
      PassingFacts(m0, Model(), now, fired + [e], touched);
      touched' := touched;
      if k < |script| {
        touched' := RunCallback(script[k], now, m0, fired + [e], touched, pending);
      }
    }

    /** One turn of the loop: the front entry is dropped, and fires if it is current. */
    method Turn(now: Time, script: seq<seq<Op>>, fired: seq<Entry>,
                ghost m0: Manager, ghost touched: set<Address>, ghost pending: multiset<Entry>)
      returns (fired': seq<Entry>, ghost touched': set<Address>)
      requires Valid() && live <= timers.Keys && Passing(m0, Model(), now, fired, touched)
      requires heap != [] && heap[0].due <= now && Awaited(Model(), now, pending)
      requires AllTimely(script, now)
      modifies this
      ensures Valid() && live <= timers.Keys && Passing(m0, Model(), now, fired', touched')
      ensures (fired' == fired && touched' == touched)
              || (fired' == fired + [old(heap[0])] && old(heap[0]).addr !in touched
                  && touched' == touched + CallbackTouches(script, |fired|))
      ensures old(heap[0]) in pending && Awaited(Model(), now, pending - multiset{old(heap[0])})
    {
      hide Inv, Passing, Awaited, CallbackTouches, AllTimely;
      ghost var m := Model();
      fired', touched' := fired, touched;
      FrontIsEarliest(heap);
      var e := PopHeap();
      PopAwaited(m, e, now, pending);
      if e.addr in live && timers[e.addr].serial == e.serial && timers[e.addr].due == e.due {
        DueIsUntouched(m0, m, now, fired, touched, e);
        touched' := FireEntry(e, now, script, m, m0, fired, |fired|, touched, pending - multiset{e});
        fired' := fired + [e];
      } else {
        DropKeepsPassing(m0, m, now, fired, touched, e);
        PassingFacts(m0, Model(), now, fired, touched);
      }
    }

    /** Fire every timer whose deadline has passed, with the k-th callback doing
        script[k].  Deadlines fire in order, each timer at most once, only timers due
        at the start and not destroyed or reset by an earlier callback, and all of those;
        and the pass ends. */
    method Process(now: Time, script: seq<seq<Op>>) returns (fired: seq<Entry>)
      requires Valid() && Positive(Model())
      requires AllTimely(script, now)
      modifies this
      ensures Valid() && Positive(Model())
      ensures FiredWell(old(Model()), now, fired)
      ensures NoneTouched(script, fired)
      ensures AllFired(old(Model()), now, fired, TouchedIn(script, |fired|))
      ensures NothingDue(Model(), now)
    {
      hide Inv, Passing, FiredWell, TouchedIn, NoneTouched, AllFired, NothingDue, AllTimely, Positive, Awaited, CallbackTouches;
      ghost var m0 := Model();
      ghost var pending := multiset(heap);
      ghost var touched := {};
      fired := [];
      PassingBegins(m0, now);
      LiveExists(m0);
      NoneTouchedYet(script);
      AwaitedAtFirst(m0, now);
      while heap != [] && heap[0].due <= now
        invariant Valid() && live <= timers.Keys && Passing(m0, Model(), now, fired, touched)
        invariant Awaited(Model(), now, pending) && touched == TouchedIn(script, |fired|)
        invariant NoneTouched(script, fired)
        decreases |pending|
      {
        ghost var e := heap[0];
        NextTouched(script, fired, e);
        fired, touched := Turn(now, script, fired, m0, touched, pending);
        pending := pending - multiset{e};
      }
      if heap != [] { FrontIsEarliest(heap); }
      PassingEnds(m0, Model(), now, fired, touched);
      PassingFacts(m0, Model(), now, fired, touched);
    }

    /** How long to wait: the plain computation over the live timers, as an int. */
    method TimeToNext(now: Time) returns (r: int)
      requires Valid() && live <= timers.Keys
      ensures exists w :: IsWait(Model(), now, w) && r == ToInt32(w)
    {
      hide IsWait, Inv;
      var best: Time := 0;
      var found := false;
      ghost var from: Address := 0;
      for n := 0 to |heap|
        invariant Scanned(Model(), heap, n, now, found, best, from)
      {
        var e := heap[n];
        if e.addr in live && timers[e.addr].serial == e.serial && timers[e.addr].due == e.due {
          if e.due <= now {
            NoWait(Model(), now, e.addr);
            return 0;
          }
          if !found || e.due < best {
            best, found, from := e.due, true, e.addr;
          }
        }
      }
      ScannedAll(Model(), heap, now, found, best, from);
      if !found { return -1; }
      r := ToInt32((best - now + MS - 1) / MS);
    }
  }

  /** Whatever a callback puts on the heap is not due in this pass. */
  lemma NothingDueAdded(m0: Manager, m: Manager, now: Time, fired: seq<Entry>, touched: set<Address>, op: Op)
    requires Passing(m0, m, now, fired, touched) && Timely(op, now)
    ensures forall e :: e in Apply(m, op).heap && e.due <= now ==> Apply(m, op).heap[e] <= m.heap[e]
    ensures m.live <= m.timers.Keys && Apply(m, op).live <= Apply(m, op).timers.Keys
  {
    hide Inv;
    LiveExists(m);
  }

  lemma FireAddsNothingDue(m: Manager, a: Address, now: Time, pending: multiset<Entry>)
    requires a in m.timers && m.timers[a].interval > 0 && Awaited(m, now, pending)
    ensures Awaited(Fire(m, a, now), now, pending)
  {
  }

  lemma AwaitedAtFirst(m: Manager, now: Time)
    ensures Awaited(m, now, m.heap)
  {
  }

  lemma PopAwaited(m: Manager, e: Entry, now: Time, pending: multiset<Entry>)
    requires e in m.heap && e.due <= now && Awaited(m, now, pending)
    ensures e in pending && Awaited(m.(heap := m.heap - multiset{e}), now, pending - multiset{e})
  {
  }

  lemma NoneTouchedYet(script: seq<seq<Op>>)
    ensures TouchedIn(script, 0) == {} && NoneTouched(script, [])
  {
  }

  lemma NextTouched(script: seq<seq<Op>>, fired: seq<Entry>, e: Entry)
    requires NoneTouched(script, fired)
    ensures e.addr !in TouchedIn(script, |fired|) ==> NoneTouched(script, fired + [e])
    ensures TouchedIn(script, |fired| + 1) == TouchedIn(script, |fired|) + CallbackTouches(script, |fired|)
  {
    hide CallbackTouches;
  }

  lemma DueIsUntouched(m0: Manager, m: Manager, now: Time, fired: seq<Entry>, touched: set<Address>, e: Entry)
    requires m.live <= m.timers.Keys && Passing(m0, m, now, fired, touched) && Current(m, e) && e.due <= now
    ensures e.addr !in touched
  {
  }

  lemma FrontIsEarliest(heap: seq<Entry>)
    requires heap != [] && forall i :: 0 <= i < |heap| ==> heap[0].due <= heap[i].due
    ensures heap[0] in multiset(heap) && forall f :: f in multiset(heap) ==> heap[0].due <= f.due
  {
  }

  lemma PassingFacts(m0: Manager, m: Manager, now: Time, fired: seq<Entry>, touched: set<Address>)
    requires Passing(m0, m, now, fired, touched)
    ensures Inv(m) && m.live <= m.timers.Keys && Positive(m) && FiredWell(m0, now, fired)
  {
  }

  lemma LiveExists(m: Manager)
    requires Inv(m)
    ensures m.live <= m.timers.Keys
  {
  }
}
