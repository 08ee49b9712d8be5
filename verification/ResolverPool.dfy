/** The resolver pool as interleaved steps of its threads.

    The loop thread submits, cancels and drains; a scheduler thread spawns workers;
    workers take a request, look it up outside the lock, put it on the completed
    queue and then wake the loop.  A step is what a thread does between two points at
    which another one may run: a critical section, or an action outside the lock.
    Only the scheduler's critical section is cut in two, since a worker may raise its
    finished flag while it runs. */
module ResolverPool {
  type Id = nat

  /** Where a worker thread is; `Gone` is the raised finished flag. */
  datatype Worker = Waiting | Resolving(request: Id) | Notifying | Exiting | Gone

  /** Where the loop thread is. */
  datatype Loop = Idle | AboutToDrain | Draining(ready: seq<Id>)

  /** The scheduler is outside its critical section, or inside it having counted the
      live workers and decided to spawn, or has returned. */
  datatype Scheduler = Asleep | Spawning(live: nat) | Returned

  datatype Pool = Pool(
    pending: seq<Id>, completed: seq<Id>, workers: seq<Worker>, loop: Loop, scheduler: Scheduler,
    busy: nat, maxWorkers: nat, schedWakeup: bool, stopping: bool, started: bool,
    readable: bool,         // a wakeup byte is waiting in the notifier
    submitted: set<Id>, dead: set<Id>,
    delivered: seq<Id>,     // requests whose handler has been called, in order
    dropped: set<Id>,       // requests discarded without calling a handler
    peak: nat)              // the largest worker limit that was ever set

  const Initial := Pool([], [], [], Idle, Asleep, 0, 4, false, false, false, false, {}, {}, [], {}, 4)

  datatype Action =
    | Submit(request: Id, notifierWorks: bool) | Cancel(request: Id) | SetMaxWorkers(count: nat) | Stop
    | Schedule | Spawn
    | Take(worker: nat) | GiveUp(worker: nat) | Finish(worker: nat) | Notify(worker: nat) | Leave(worker: nat)
    | Wake | Swap | Deliver | DrainDone

  function Live(ws: seq<Worker>): nat {
    if ws == [] then 0 else Live(ws[..|ws| - 1]) + if ws[|ws| - 1].Gone? then 0 else 1
  }

  function Busy(ws: seq<Worker>): nat {
    if ws == [] then 0 else Busy(ws[..|ws| - 1]) + if ws[|ws| - 1].Resolving? then 1 else 0
  }

  function Without(s: seq<Id>, r: Id): seq<Id> {
    if s == [] then [] else if s[0] == r then s[1..] else [s[0]] + Without(s[1..], r)
  }

  /** The slot of the first finished worker, or a new one. */
  function Slot(ws: seq<Worker>): (i: nat)
    ensures i <= |ws| && (i < |ws| ==> ws[i].Gone?)
  {
    if ws == [] || ws[0].Gone? then 0 else 1 + Slot(ws[1..])
  }

  predicate LockFree(s: Pool) {
    !s.scheduler.Spawning?
  }

  /** The loop thread is in its own code or in a handler, not inside the pool. */
  predicate LoopCalls(s: Pool) {
    (s.loop.Idle? || s.loop.Draining?) && LockFree(s)
  }

  predicate At(s: Pool, i: nat, w: Worker) {
    i < |s.workers| && s.workers[i] == w
  }

  predicate Enabled(s: Pool, a: Action) {
    match a
    case Submit(r, _) => LoopCalls(s) && r !in s.submitted
    case Cancel(r) => LoopCalls(s) && r in s.submitted
    case SetMaxWorkers(_) => LoopCalls(s)
    case Stop => s.loop.Idle? && LockFree(s)
    case Schedule => s.scheduler.Asleep? && (s.stopping || s.schedWakeup)
    case Spawn => s.scheduler.Spawning?
    case Take(i) => At(s, i, Waiting) && LockFree(s) && s.pending != [] && !s.stopping
    case GiveUp(i) => At(s, i, Waiting) && LockFree(s) && (s.pending == [] || s.stopping)
    case Finish(i) => i < |s.workers| && s.workers[i].Resolving? && LockFree(s)
    case Notify(i) => At(s, i, Notifying)
    case Leave(i) => At(s, i, Exiting)
    case Wake => s.loop.Idle? && s.readable
    case Swap => s.loop.AboutToDrain? && LockFree(s)
    case Deliver => s.loop.Draining? && s.loop.ready != []
    case DrainDone => s.loop.Draining? && s.loop.ready == []
  }

  function Next(s: Pool, a: Action): Pool
    requires Enabled(s, a)
  {
    match a
    case Submit(r, works) =>
      if s.started || works then
        s.(started := true, submitted := s.submitted + {r}, pending := s.pending + [r], schedWakeup := true)
      else s.(submitted := s.submitted + {r}, delivered := s.delivered + [r])
    case Cancel(r) =>
      var t := s.(dead := s.dead + {r});
      if r in s.pending then t.(pending := Without(s.pending, r), dropped := s.dropped + {r}) else t
    case SetMaxWorkers(n) =>
      var m := if n == 0 then 1 else n;
      s.(maxWorkers := m, peak := if m > s.peak then m else s.peak)
    case Stop => s.(stopping := true, schedWakeup := true)
    case Schedule =>
      var t := s.(schedWakeup := false);
      if s.stopping then t.(scheduler := Returned)
      else if s.pending == [] || s.busy < Live(s.workers) || Live(s.workers) >= s.maxWorkers then t
      else t.(scheduler := Spawning(Live(s.workers)))
    case Spawn =>
      s.(workers := WithSpawn(s.workers), scheduler := Asleep)
    case Take(i) =>
      s.(pending := s.pending[1..], busy := s.busy + 1, workers := s.workers[i := Resolving(s.pending[0])])
    case GiveUp(i) => s.(workers := s.workers[i := Exiting])
    case Finish(i) =>
      s.(completed := s.completed + [s.workers[i].request], busy := if s.busy > 0 then s.busy - 1 else 0,
         workers := s.workers[i := Notifying])
    case Notify(i) => s.(readable := true, workers := s.workers[i := Waiting])
    case Leave(i) => s.(workers := s.workers[i := Gone])
    case Wake => s.(readable := false, loop := AboutToDrain)
    case Swap => s.(completed := [], loop := Draining(s.completed))
    case Deliver =>
      var r := s.loop.ready[0];
      var t := s.(loop := Draining(s.loop.ready[1..]));
      if r in s.dead then t.(dropped := s.dropped + {r}) else t.(delivered := s.delivered + [r])
    case DrainDone => s.(loop := Idle)
  }

  // ---- what every step keeps -----------------------------------------------------------

  function Occurs(s: seq<Id>, r: Id): nat {
    if s == [] then 0 else Occurs(s[..|s| - 1], r) + if s[|s| - 1] == r then 1 else 0
  }

  function Holds(w: Worker, r: Id): nat {
    if w == Resolving(r) then 1 else 0
  }

  /** How many workers hold a request. */
  function HeldBy(ws: seq<Worker>, r: Id): nat {
    if ws == [] then 0 else HeldBy(ws[..|ws| - 1], r) + Holds(ws[|ws| - 1], r)
  }

  function Among(s: set<Id>, r: Id): nat {
    if r in s then 1 else 0
  }

  function Ready(l: Loop): seq<Id> {
    if l.Draining? then l.ready else []
  }

  /** In how many places a request is. */
  function Places(s: Pool, r: Id): nat {
    Occurs(s.pending, r) + HeldBy(s.workers, r) + Occurs(s.completed, r) + Occurs(Ready(s.loop), r)
    + Occurs(s.delivered, r) + Among(s.dropped, r)
  }

  /** Every submitted request is in exactly one place, and nothing else is anywhere. */
  ghost predicate OnePlace(s: Pool) {
    forall r :: Places(s, r) == Among(s.submitted, r)
  }

  ghost predicate Counted(s: Pool) {
    && s.busy == Busy(s.workers)
    && 1 <= s.maxWorkers <= s.peak
    && Live(s.workers) <= s.peak
    && (s.scheduler.Spawning? ==> Live(s.workers) <= s.scheduler.live < s.peak)
  }

  /** A worker that is about to send a wakeup. */
  ghost predicate Notified(ws: seq<Worker>) {
    exists i :: 0 <= i < |ws| && ws[i].Notifying?
  }

  /** A completed request is never left without something that will drain it. */
  ghost predicate WakeupOwed(s: Pool) {
    s.completed != [] ==> s.readable || s.loop.AboutToDrain? || Notified(s.workers)
  }

  ghost predicate Inv(s: Pool) {
    OnePlace(s) && Counted(s) && WakeupOwed(s) && s.dead <= s.submitted
  }

  // ---- counting -----------------------------------------------------------------------------

  lemma OccursNone(r: Id)
    ensures Occurs([], r) == 0
  {
  }

  lemma OccursSnoc(s: seq<Id>, x: Id, r: Id)
    ensures Occurs(s + [x], r) == Occurs(s, r) + if x == r then 1 else 0
  {
    assert (s + [x])[..|s|] == s;
  }

  lemma {:induction false} OccursHead(s: seq<Id>, r: Id)
    requires s != []
    ensures Occurs(s, r) == Occurs(s[1..], r) + if s[0] == r then 1 else 0
    decreases |s|
  {
    var init := s[..|s| - 1];
    if |s| == 1 {
      assert s[1..] == [] && init == [];
    } else {
      OccursHead(init, r);
      assert init[1..] == s[1..][..|s| - 2];
    }
  }

  lemma {:induction false} OccursIn(s: seq<Id>, r: Id)
    ensures r in s <==> Occurs(s, r) > 0
    decreases |s|
  {
    if s != [] {
      OccursHead(s, r);
      OccursIn(s[1..], r);
      assert s == [s[0]] + s[1..];
    }
  }

  lemma {:induction false} OccursWithout(s: seq<Id>, x: Id, r: Id)
    requires x in s
    ensures Occurs(s, r) == Occurs(Without(s, x), r) + if x == r then 1 else 0
    decreases |s|
  {
    OccursHead(s, r);
    if s[0] != x {
      assert x in s[1..];
      OccursWithout(s[1..], x, r);
      var t := Without(s, x);
      OccursHead(t, r);
      assert t[1..] == Without(s[1..], x);
    }
  }

  lemma {:induction false} HeldUpdate(ws: seq<Worker>, i: nat, w: Worker, r: Id)
    requires i < |ws|
    ensures HeldBy(ws[i := w], r) + Holds(ws[i], r) == HeldBy(ws, r) + Holds(w, r)
    decreases |ws|
  {
    var last := |ws| - 1;
    var init := ws[..last];
    if i < last {
      HeldUpdate(init, i, w, r);
      assert ws[i := w][..last] == init[i := w];
    } else {
      assert ws[i := w][..last] == init;
    }
  }

  function One(b: bool): nat {
    if b then 1 else 0
  }

  lemma {:induction false} CountUpdate(ws: seq<Worker>, i: nat, w: Worker)
    requires i < |ws|
    ensures Live(ws[i := w]) + One(!ws[i].Gone?) == Live(ws) + One(!w.Gone?)
    ensures Busy(ws[i := w]) + One(ws[i].Resolving?) == Busy(ws) + One(w.Resolving?)
    decreases |ws|
  {
    var last := |ws| - 1;
    var init := ws[..last];
    if i < last {
      CountUpdate(init, i, w);
      assert ws[i := w][..last] == init[i := w];
    } else {
      assert ws[i := w][..last] == init;
    }
  }

  lemma Append(ws: seq<Worker>, w: Worker, r: Id)
    ensures HeldBy(ws + [w], r) == HeldBy(ws, r) + Holds(w, r)
    ensures Live(ws + [w]) == Live(ws) + One(!w.Gone?)
    ensures Busy(ws + [w]) == Busy(ws) + One(w.Resolving?)
  {
    assert (ws + [w])[..|ws|] == ws;
  }

  // ---- conservation of requests -------------------------------------------------------------

  lemma SubmitConserves(s: Pool, x: Id, works: bool, r: Id)
    requires Enabled(s, Submit(x, works)) && Places(s, r) == Among(s.submitted, r)
    ensures Places(Next(s, Submit(x, works)), r) == Among(Next(s, Submit(x, works)).submitted, r)
  {
    hide Occurs, HeldBy;
    OccursSnoc(s.pending, x, r);
    OccursSnoc(s.delivered, x, r);
  }

  lemma CancelConserves(s: Pool, x: Id, r: Id)
    requires Enabled(s, Cancel(x)) && Places(s, r) == Among(s.submitted, r)
    ensures Places(Next(s, Cancel(x)), r) == Among(Next(s, Cancel(x)).submitted, r)
  {
    hide Occurs, HeldBy;
    OccursIn(s.pending, r);
    if x in s.pending { OccursWithout(s.pending, x, r); }
  }

  lemma WorkerConserves(s: Pool, a: Action, r: Id)
    requires Enabled(s, a) && Places(s, r) == Among(s.submitted, r)
    requires a.Take? || a.GiveUp? || a.Finish? || a.Notify? || a.Leave?
    ensures Places(Next(s, a), r) == Among(Next(s, a).submitted, r)
  {
    hide Occurs, HeldBy;
    var i := a.worker;
    HeldUpdate(s.workers, i, Next(s, a).workers[i], r);
    if a.Take? {
      OccursHead(s.pending, r);
    } else if a.Finish? {
      OccursSnoc(s.completed, s.workers[i].request, r);
    }
  }

  lemma SpawnConserves(s: Pool, r: Id)
    requires Enabled(s, Spawn) && Places(s, r) == Among(s.submitted, r)
    ensures Places(Next(s, Spawn), r) == Among(Next(s, Spawn).submitted, r)
  {
    hide Occurs, HeldBy;
    var i := Slot(s.workers);
    if i < |s.workers| { HeldUpdate(s.workers, i, Waiting, r); } else { Append(s.workers, Waiting, r); }
  }

  lemma AmongAdd(d: set<Id>, x: Id, r: Id)
    ensures Among(d + {x}, r) == if x == r then 1 else Among(d, r)
  {
  }

  lemma DeliverConserves(s: Pool, r: Id)
    requires Enabled(s, Deliver) && Places(s, r) == Among(s.submitted, r)
    ensures Places(Next(s, Deliver), r) == Among(Next(s, Deliver).submitted, r)
  {
    hide Places, Among, Next;
    if s.loop.ready[0] in s.dead { DropConserves(s, r); } else { CallConserves(s, r); }
  }

  lemma DropConserves(s: Pool, r: Id)
    requires Enabled(s, Deliver) && s.loop.ready[0] in s.dead && Places(s, r) == Among(s.submitted, r)
    ensures Places(Next(s, Deliver), r) == Among(Next(s, Deliver).submitted, r)
  {
    hide Occurs, HeldBy, Among;
    AmongOne(s.submitted, r);
    OccursHead(s.loop.ready, r);
    AmongAdd(s.dropped, s.loop.ready[0], r);
  }

  lemma CallConserves(s: Pool, r: Id)
    requires Enabled(s, Deliver) && s.loop.ready[0] !in s.dead && Places(s, r) == Among(s.submitted, r)
    ensures Places(Next(s, Deliver), r) == Among(Next(s, Deliver).submitted, r)
  {
    hide Occurs, HeldBy, Among;
    OccursHead(s.loop.ready, r);
    OccursSnoc(s.delivered, s.loop.ready[0], r);
  }

  lemma AmongOne(d: set<Id>, r: Id)
    ensures Among(d, r) <= 1
  {
  }

  /** No step loses a request, duplicates one or makes one up. */
  lemma StepConserves(s: Pool, a: Action, r: Id)
    requires Enabled(s, a) && Places(s, r) == Among(s.submitted, r)
    ensures Places(Next(s, a), r) == Among(Next(s, a).submitted, r)
  {
    hide Occurs, HeldBy, Live;
    match a
    case Submit(x, works) => SubmitConserves(s, x, works, r);
    case Cancel(x) => CancelConserves(s, x, r);
    case Spawn => SpawnConserves(s, r);
    case Deliver => DeliverConserves(s, r);
    case Swap => OccursNone(r);
    case DrainDone => OccursNone(r);
    case _ => if !(a.SetMaxWorkers? || a.Stop? || a.Schedule? || a.Wake? || a.DrainDone?) { WorkerConserves(s, a, r); }
  }

  lemma WorkerCounts(s: Pool, a: Action)
    requires Enabled(s, a) && Counted(s)
    requires a.Take? || a.GiveUp? || a.Finish? || a.Notify? || a.Leave?
    ensures Counted(Next(s, a))
  {
    hide Live, Busy;
    var t := Next(s, a);
    CountUpdate(s.workers, a.worker, t.workers[a.worker]);
    assert Live(t.workers) <= Live(s.workers);
  }

  /** The workers after a spawn: in a slot that has been left, or in a new one. */
  function WithSpawn(ws: seq<Worker>): seq<Worker> {
    var i := Slot(ws);
    if i < |ws| then ws[i := Waiting] else ws + [Waiting]
  }

  lemma SpawnedCounts(ws: seq<Worker>)
    ensures Live(WithSpawn(ws)) == Live(ws) + 1 && Busy(WithSpawn(ws)) == Busy(ws)
  {
    hide Live, Busy;
    var i := Slot(ws);
    if i < |ws| { CountUpdate(ws, i, Waiting); } else { Append(ws, Waiting, 0); }
  }

  lemma SpawnCounts(s: Pool)
    requires Enabled(s, Spawn) && Counted(s)
    ensures Counted(Next(s, Spawn))
  {
    hide Live, Busy, WithSpawn;
    SpawnedCounts(s.workers);
  }

  lemma StepCounts(s: Pool, a: Action)
    requires Enabled(s, a) && Counted(s)
    ensures Counted(Next(s, a))
  {
    hide Live, Busy;
    if a.Take? || a.GiveUp? || a.Finish? || a.Notify? || a.Leave? {
      WorkerCounts(s, a);
    } else if a.Spawn? {
      SpawnCounts(s);
    }
  }

  lemma NotifiedUpdate(ws: seq<Worker>, i: nat, w: Worker)
    requires i < |ws| && (w.Notifying? || (Notified(ws) && !ws[i].Notifying?))
    ensures Notified(ws[i := w])
  {
    if w.Notifying? {
      assert ws[i := w][i].Notifying?;
    } else {
      var k :| 0 <= k < |ws| && ws[k].Notifying?;
      assert ws[i := w][k].Notifying?;
    }
  }

  lemma NotifiedAppend(ws: seq<Worker>, w: Worker)
    requires Notified(ws)
    ensures Notified(ws + [w])
  {
    var k :| 0 <= k < |ws| && ws[k].Notifying?;
    assert (ws + [w])[k].Notifying?;
  }

  lemma NotifiedStep(s: Pool, a: Action)
    requires Enabled(s, a) && Notified(s.workers) && !a.Notify?
    ensures Notified(Next(s, a).workers)
  {
    hide Notified, Live, Busy, Without;
    var ws := s.workers;
    match a
    case Spawn => if Slot(ws) < |ws| { NotifiedUpdate(ws, Slot(ws), Waiting); } else { NotifiedAppend(ws, Waiting); }
    case Take(i) => NotifiedUpdate(ws, i, Resolving(s.pending[0]));
    case GiveUp(i) => NotifiedUpdate(ws, i, Exiting);
    case Finish(i) => NotifiedUpdate(ws, i, Notifying);
    case Leave(i) => NotifiedUpdate(ws, i, Gone);
    case _ =>
  }

  lemma StepOwesWakeup(s: Pool, a: Action)
    requires Enabled(s, a) && WakeupOwed(s)
    ensures WakeupOwed(Next(s, a))
  {
    hide Notified, Live, Busy, Without;
    if a.Finish? {
      NotifiedUpdate(s.workers, a.worker, Notifying);
    } else if Notified(s.workers) && !a.Notify? {
      NotifiedStep(s, a);
    }
  }

  lemma StepKeeps(s: Pool, a: Action)
    requires Inv(s) && Enabled(s, a)
    ensures Inv(Next(s, a))
  {
    hide Places, Counted, WakeupOwed;
    forall r ensures Places(Next(s, a), r) == Among(Next(s, a).submitted, r) {
      StepConserves(s, a, r);
    }
    StepCounts(s, a);
    StepOwesWakeup(s, a);
  }

  // ---- runs -------------------------------------------------------------------------------------

  /** Some interleaving of enabled steps leads from `s` to `t`. */
  ghost predicate Leads(s: Pool, run: seq<Action>, t: Pool)
    decreases |run|
  {
    if run == [] then s == t else Enabled(s, run[0]) && Leads(Next(s, run[0]), run[1..], t)
  }

  /** The invariant holds after every interleaving. */
  lemma {:induction false} RunKeeps(s: Pool, run: seq<Action>, t: Pool)
    requires Inv(s) && Leads(s, run, t)
    ensures Inv(t)
    decreases |run|
  {
    hide Inv, Next;
    if run != [] {
      StepKeeps(s, run[0]);
      RunKeeps(Next(s, run[0]), run[1..], t);
    }
  }

  lemma InitialInv()
    ensures Inv(Initial)
  {
  }

  /** From the start, in every interleaving: each request in exactly one place, its
      handler called at most once, the busy count equal to the workers that hold a
      request, no more live workers than the largest limit set, and no completed
      request without a wakeup pending, about to be sent, or a drain about to run. */
  lemma EveryInterleaving(run: seq<Action>, t: Pool, r: Id)
    requires Leads(Initial, run, t)
    ensures Places(t, r) == Among(t.submitted, r)
    ensures Occurs(t.delivered, r) <= 1
    ensures t.busy == Busy(t.workers) && Live(t.workers) <= t.peak
    ensures WakeupOwed(t)
  {
    hide Occurs, HeldBy, Live, Busy, WakeupOwed;
    InitialInv();
    RunKeeps(Initial, run, t);
  }

  /** No limit beyond `max` is ever set. */
  predicate LimitsUpTo(run: seq<Action>, max: nat) {
    forall i :: 0 <= i < |run| && run[i].SetMaxWorkers? ==> run[i].count <= max
  }

  lemma {:induction false} PeakWithin(s: Pool, run: seq<Action>, t: Pool, max: nat)
    requires Leads(s, run, t) && LimitsUpTo(run, max) && 1 <= max && s.peak <= max
    ensures t.peak <= max
    decreases |run|
  {
    if run != [] {
      var u := Next(s, run[0]);
      assert u.peak <= max by { if run[0].SetMaxWorkers? { assert run[0].count <= max; } }
      PeakWithin(u, run[1..], t, max);
    }
  }

  /** Live workers never outnumber the largest limit set, nor the initial one of four. */
  lemma WorkersWithin(run: seq<Action>, t: Pool, max: nat)
    requires Leads(Initial, run, t) && LimitsUpTo(run, max) && 4 <= max
    ensures Live(t.workers) <= max
  {
    hide Leads;
    EveryInterleaving(run, t, 0);
    PeakWithin(Initial, run, t, max);
  }

  /** A request that has been cancelled, or has already been settled, is not delivered
      by any later step. */
  lemma {:induction false} SilentAfterCancel(s: Pool, run: seq<Action>, t: Pool, r: Id)
    requires Inv(s) && Leads(s, run, t) && r in s.submitted && (r in s.dead || r in s.dropped || r in s.delivered)
    ensures Occurs(t.delivered, r) == Occurs(s.delivered, r)
    decreases |run|
  {
    hide Inv, Next, Occurs;
    if run != [] {
      StepKeeps(s, run[0]);
      SilentStep(s, run[0], r);
      SilentAfterCancel(Next(s, run[0]), run[1..], t, r);
    }
  }

  lemma SilentStep(s: Pool, a: Action, r: Id)
    requires Inv(s) && Enabled(s, a) && r in s.submitted && (r in s.dead || r in s.dropped || r in s.delivered)
    ensures var t := Next(s, a);
            && Occurs(t.delivered, r) == Occurs(s.delivered, r)
            && r in t.submitted && (r in t.dead || r in t.dropped || r in t.delivered)
  {
    hide Occurs, HeldBy, Live, Counted, WakeupOwed;
    if a.Submit? {
      OccursSnoc(s.delivered, a.request, r);
    } else if a.Deliver? {
      var x := s.loop.ready[0];
      OccursSnoc(s.delivered, x, r);
      OccursHead(s.loop.ready, r);
      OccursIn(s.delivered, r);
      assert Places(s, r) == 1;
    }
  }

  // ---- what does not hold ---------------------------------------------------------------------

  /** A worker that has not left its loop. */
  predicate Attending(ws: seq<Worker>) {
    exists i :: 0 <= i < |ws| && !ws[i].Exiting? && !ws[i].Gone?
  }

  /** A request waits and nobody is on the way to it: every worker has left its loop
      and the scheduler has not been woken. */
  predicate Unattended(s: Pool) {
    s.pending != [] && !s.stopping && s.scheduler.Asleep? && !s.schedWakeup && !Attending(s.workers)
  }

  /** A scheduler pass leaves a waiting request unattended exactly when some worker has
      left its loop but not yet raised its flag, and every worker has left its loop:
      that worker still counts as an idle one, so nobody is spawned. */
  lemma LeftUnattended(s: Pool)
    requires Inv(s) && Enabled(s, Schedule) && !s.stopping && s.pending != []
    ensures Unattended(Next(s, Schedule)) <==>
            !Attending(s.workers) && exists i :: 0 <= i < |s.workers| && s.workers[i].Exiting?
  {
    hide OnePlace, WakeupOwed;
    LiveSome(s.workers);
    if !Attending(s.workers) { BusyNone(s.workers); }
  }

  lemma StaysAttending(ws: seq<Worker>, i: nat, w: Worker)
    requires i < |ws| && !w.Exiting? && !w.Gone?
    ensures Attending(ws[i := w])
  {
    assert ws[i := w][i] == w;
  }

  lemma LeavingIsNoChange(ws: seq<Worker>, i: nat)
    requires i < |ws| && ws[i].Exiting?
    ensures Attending(ws[i := Gone]) == Attending(ws)
  {
    if Attending(ws) {
      var k :| 0 <= k < |ws| && !ws[k].Exiting? && !ws[k].Gone?;
      assert ws[i := Gone][k] == ws[k];
    }
  }

  /** A step that leaves a worker in its loop. */
  predicate Occupies(a: Action) {
    a.Spawn? || a.Take? || a.Finish? || a.Notify?
  }

  lemma OccupiesAttends(s: Pool, a: Action)
    requires Enabled(s, a) && Occupies(a)
    ensures Attending(Next(s, a).workers)
  {
    hide Attending, Live, Busy;
    match a
    case Spawn =>
      var i := Slot(s.workers);
      if i < |s.workers| { StaysAttending(s.workers, i, Waiting); } else { StaysAttending(s.workers + [Waiting], i, Waiting); }
      assert Next(s, a).workers == if i < |s.workers| then s.workers[i := Waiting] else (s.workers + [Waiting])[i := Waiting];
    case Take(i) => StaysAttending(s.workers, i, Resolving(s.pending[0]));
    case Finish(i) => StaysAttending(s.workers, i, Notifying);
    case Notify(i) => StaysAttending(s.workers, i, Waiting);
  }

  /** No other step leaves a request unattended. */
  lemma OnlySchedulingLeaves(s: Pool, a: Action)
    requires Enabled(s, a) && !Unattended(s) && !a.Schedule?
    ensures !Unattended(Next(s, a))
  {
    hide Attending, Live, Busy;
    if Occupies(a) {
      hide Next;
      OccupiesAttends(s, a);
    } else if a.Leave? {
      LeavingIsNoChange(s.workers, a.worker);
    }
  }

  /** Only a caller can end the waiting: by submitting another request, by cancelling, or by
      stopping the pool. */
  predicate Outside(a: Action) {
    a.Submit? || a.Cancel? || a.Stop?
  }

  lemma UnattendedStays(s: Pool, a: Action)
    requires Enabled(s, a) && Unattended(s) && !Outside(a)
    ensures Unattended(Next(s, a)) && Next(s, a).pending == s.pending
  {
  }

  /** Without that it waits through every interleaving of whatever else may happen. */
  lemma {:induction false} UnattendedForever(s: Pool, run: seq<Action>, t: Pool)
    requires Unattended(s) && Leads(s, run, t) && forall i :: 0 <= i < |run| ==> !Outside(run[i])
    ensures Unattended(t) && t.pending == s.pending
    decreases |run|
  {
    hide Unattended, Next;
    if run != [] {
      UnattendedStays(s, run[0]);
      UnattendedForever(Next(s, run[0]), run[1..], t);
    }
  }

  lemma {:induction false} LiveSome(ws: seq<Worker>)
    ensures Live(ws) > 0 <==> exists i :: 0 <= i < |ws| && !ws[i].Gone?
  {
    if ws != [] {
      var init := ws[..|ws| - 1];
      LiveSome(init);
      assert forall i :: 0 <= i < |init| ==> init[i] == ws[i];
      assert (exists i :: 0 <= i < |ws| && !ws[i].Gone?) <==>
             (exists i :: 0 <= i < |init| && !init[i].Gone?) || !ws[|ws| - 1].Gone?;
    }
  }

  lemma {:induction false} BusyNone(ws: seq<Worker>)
    requires forall i :: 0 <= i < |ws| ==> !ws[i].Resolving?
    ensures Busy(ws) == 0
  {
    if ws != [] { BusyNone(ws[..|ws| - 1]); }
  }

  lemma {:induction false} LeadsConcat(s: Pool, run: seq<Action>, t: Pool, more: seq<Action>, u: Pool)
    requires Leads(s, run, t) && Leads(t, more, u)
    ensures Leads(s, run + more, u)
    decreases |run|
  {
    hide Next;
    if run == [] {
      assert run + more == more;
    } else {
      assert (run + more)[1..] == run[1..] + more;
      LeadsConcat(Next(s, run[0]), run[1..], t, more, u);
    }
  }

  lemma LeadsOne(s: Pool, a: Action)
    requires Enabled(s, a)
    ensures Leads(s, [a], Next(s, a))
  {
    assert [a][1..] == [];
  }

  const Spawned := Pool([0], [], [Waiting], Idle, Asleep, 0, 4, false, false, true, false, {0}, {}, [], {}, 4)
  const TimedOut := Pool([], [0], [Exiting], Idle, Asleep, 0, 4, false, false, true, true, {0}, {}, [], {}, 4)

  lemma FirstSpawns()
    ensures Leads(Initial, [Submit(0, true)] + [Schedule] + [Spawn], Spawned)
  {
    hide Leads;
    var t := Next(Initial, Submit(0, true));
    LeadsOne(Initial, Submit(0, true));
    assert Live([]) == 0;
    var u := Next(t, Schedule);
    LeadsOne(t, Schedule);
    LeadsConcat(Initial, [Submit(0, true)], t, [Schedule], u);
    LeadsOne(u, Spawn);
    assert Next(u, Spawn) == Spawned;
    LeadsConcat(Initial, [Submit(0, true)] + [Schedule], u, [Spawn], Spawned);
  }

  lemma FirstTimesOut()
    ensures Leads(Spawned, [Take(0)] + [Finish(0)] + [Notify(0)] + [GiveUp(0)], TimedOut)
  {
    hide Leads;
    var t := Next(Spawned, Take(0));
    LeadsOne(Spawned, Take(0));
    var u := Next(t, Finish(0));
    LeadsOne(t, Finish(0));
    LeadsConcat(Spawned, [Take(0)], t, [Finish(0)], u);
    var v := Next(u, Notify(0));
    LeadsOne(u, Notify(0));
    LeadsConcat(Spawned, [Take(0)] + [Finish(0)], u, [Notify(0)], v);
    LeadsOne(v, GiveUp(0));
    assert Next(v, GiveUp(0)) == TimedOut;
    LeadsConcat(Spawned, [Take(0)] + [Finish(0)] + [Notify(0)], v, [GiveUp(0)], TimedOut);
  }

  /** Such a state is reached: the second of two lookups, submitted as the only worker
      times out, waits until something else is submitted. */
  lemma LookupLeftWaiting() returns (run: seq<Action>, t: Pool)
    ensures Leads(Initial, run, t) && Unattended(t)
  {
    hide Leads;
    FirstSpawns();
    FirstTimesOut();
    LeadsConcat(Initial, [Submit(0, true)] + [Schedule] + [Spawn], Spawned,
                [Take(0)] + [Finish(0)] + [Notify(0)] + [GiveUp(0)], TimedOut);
    run := [Submit(0, true)] + [Schedule] + [Spawn] + ([Take(0)] + [Finish(0)] + [Notify(0)] + [GiveUp(0)]);
    var u := Next(TimedOut, Submit(1, true));
    LeadsOne(TimedOut, Submit(1, true));
    LeadsConcat(Initial, run, TimedOut, [Submit(1, true)], u);
    assert u.workers == [Exiting] && [Exiting][..0] == [];
    assert Live([Exiting]) == 1;
    LeadsOne(u, Schedule);
    t := Next(u, Schedule);
    LeadsConcat(Initial, run + [Submit(1, true)], u, [Schedule], t);
    run := run + [Submit(1, true)] + [Schedule];
  }
}
