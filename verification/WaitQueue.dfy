/**
 Wait queues with timeouts: threads enter queues in order, may be armed with a
 deadline, and leave by being woken, removed, or timed out by the clock tick.
 */
module WaitQueue {
  import opened Common
  import opened Status

  type Tid = nat
  type Qid = nat

  datatype Thread = Thread(owner: Option<Qid>, armed: bool, deadline: nat, timedOut: bool)

  datatype World = World(queues: map<Qid, seq<Tid>>, counts: map<Qid, nat>,
                         threads: map<Tid, Thread>, timeouts: seq<Tid>)

  // --------------------------------------------------------------------- lists

  /** The list without the threads in `gone`. */
  function Keep(s: seq<Tid>, gone: set<Tid>): seq<Tid> {
    if s == [] then []
    else if s[0] in gone then Keep(s[1..], gone)
    else [s[0]] + Keep(s[1..], gone)
  }

  ghost predicate Once(s: seq<Tid>) { forall i, j :: 0 <= i < j < |s| ==> s[i] != s[j] }

  /** t stands before u. */
  ghost predicate Before(s: seq<Tid>, t: Tid, u: Tid) {
    exists i, j :: 0 <= i < j < |s| && s[i] == t && s[j] == u
  }

  lemma {:induction false} KeepMembers(s: seq<Tid>, gone: set<Tid>)
    ensures forall t :: t in Keep(s, gone) <==> t in s && t !in gone
  {
    if s != [] {
      KeepMembers(s[1..], gone);
      assert s == [s[0]] + s[1..];
    }
  }

  lemma {:induction false} KeepOnce(s: seq<Tid>, gone: set<Tid>)
    requires Once(s)
    ensures Once(Keep(s, gone))
  {
    if s != [] {
      KeepOnce(s[1..], gone);
      KeepMembers(s[1..], gone);
      assert s[0] !in s[1..];
    }
  }

  lemma {:induction false} KeepAll(s: seq<Tid>, gone: set<Tid>)
    requires forall t :: t in s ==> t !in gone
    ensures Keep(s, gone) == s
  {
    if s != [] {
      assert forall t :: t in s[1..] ==> t in s;
      KeepAll(s[1..], gone);
    }
  }

  lemma {:induction false} KeepOrder(s: seq<Tid>, gone: set<Tid>, t: Tid, u: Tid)
    requires Before(s, t, u) && t !in gone && u !in gone
    ensures Before(Keep(s, gone), t, u)
  {
    var i, j :| 0 <= i < j < |s| && s[i] == t && s[j] == u;
    var k := Keep(s[1..], gone);
    if i > 0 {
      assert s[1..][i - 1] == t && s[1..][j - 1] == u;
      KeepOrder(s[1..], gone, t, u);
      var x, y :| 0 <= x < y < |k| && k[x] == t && k[y] == u;
      if s[0] !in gone {
        assert ([s[0]] + k)[x + 1] == t && ([s[0]] + k)[y + 1] == u;
      }
    } else {
      KeepMembers(s[1..], gone);
      assert s[1..][j - 1] == u;
      var y :| 0 <= y < |k| && k[y] == u;
      assert ([s[0]] + k)[0] == t && ([s[0]] + k)[y + 1] == u;
    }
  }

  lemma {:induction false} KeepOneSize(s: seq<Tid>, t: Tid)
    requires Once(s) && t in s
    ensures |Keep(s, {t})| == |s| - 1
  {
    if s[0] == t {
      KeepAll(s[1..], {t});
    } else {
      assert s == [s[0]] + s[1..];
      KeepOneSize(s[1..], t);
    }
  }

  lemma {:induction false} KeepTwice(s: seq<Tid>, a: set<Tid>, b: set<Tid>)
    ensures Keep(Keep(s, a), b) == Keep(s, a + b)
  {
    if s != [] {
      KeepTwice(s[1..], a, b);
      if s[0] !in a {
        assert ([s[0]] + Keep(s[1..], a))[1..] == Keep(s[1..], a);
      }
    }
  }

  // ------------------------------------------------------------------ invariant

  ghost predicate QueuesOk(w: World) {
    && w.counts.Keys == w.queues.Keys
    && (forall q :: q in w.queues ==> Once(w.queues[q]) && w.counts[q] == |w.queues[q]|)
    && (forall q, t :: q in w.queues ==> (t in w.queues[q] <==> t in w.threads && w.threads[t].owner == Some(q)))
    && (forall t :: t in w.threads && w.threads[t].owner.Some? ==> w.threads[t].owner.value in w.queues)
  }

  ghost predicate TimeoutsOk(w: World) {
    && Once(w.timeouts)
    && (forall t :: t in w.timeouts <==> t in w.threads && w.threads[t].armed)
    && (forall t :: t in w.threads ==> (w.threads[t].armed <==> w.threads[t].deadline != 0))
    && (forall t :: t in w.threads && w.threads[t].armed ==> w.threads[t].owner.Some?)
  }

  /** Queues and owners agree, the timeout list holds the armed threads, and counts are lengths. */
  ghost predicate Inv(w: World) { QueuesOk(w) && TimeoutsOk(w) }

  // ---------------------------------------------------------------------- steps

  datatype Step =
    | Enqueue(q: Qid, t: Tid)
    | Remove(q: Qid, t: Tid)
    | WakeOne(q: Qid)
    | WakeAll(q: Qid)
    | Begin(q: Qid, t: Tid, deadline: nat)   // a wait, up to where the thread blocks
    | End(t: Tid)                            // the wait returns
    | Tick(now: nat)

  function Enqueued(w: World, q: Qid, t: Tid): World
    requires q in w.queues && q in w.counts && t in w.threads
  {
    if w.threads[t].owner.Some? then w
    else w.(queues := w.queues[q := w.queues[q] + [t]], counts := w.counts[q := w.counts[q] + 1],
            threads := w.threads[t := w.threads[t].(owner := Some(q))])
  }

  /** The threads in `gone` leave their queues and the timeout list, timed out or not. */
  function Gone(w: World, gone: set<Tid>, out: bool): World {
    w.(queues := map q | q in w.queues :: Keep(w.queues[q], gone),
       counts := map q | q in w.queues :: |Keep(w.queues[q], gone)|,
       threads := map t | t in w.threads :: if t in gone then Thread(None, false, 0, out) else w.threads[t],
       timeouts := Keep(w.timeouts, gone))
  }

  function Armed(w: World, t: Tid, deadline: nat): World
    requires t in w.threads
  {
    if deadline == 0 then w
    else w.(threads := w.threads[t := w.threads[t].(armed := true, deadline := deadline)],
            timeouts := Keep(w.timeouts, {t}) + [t])
  }

  function Begun(w: World, q: Qid, t: Tid, deadline: nat): World
    requires q in w.queues && q in w.counts && t in w.threads
  {
    var w1 := w.(threads := w.threads[t := w.threads[t].(timedOut := false)]);
    Armed(if w.threads[t].owner == Some(q) then w1 else Enqueued(w1, q, t), t, deadline)
  }

  function Ended(w: World, t: Tid): World
    requires t in w.threads
  {
    w.(threads := w.threads[t := w.threads[t].(timedOut := false)])
  }

  function Expired(w: World, now: nat): set<Tid> {
    set t | t in w.threads && w.threads[t].armed && w.threads[t].deadline <= now
  }

  function Members(s: seq<Tid>): set<Tid> { set t | t in s }

  /** The threads that a step makes leave their queues. */
  function Leaving(w: World, step: Step): set<Tid>
    requires Enabled(w, step)
  {
    match step
    case Remove(q, t) => if w.threads[t].owner == Some(q) then {t} else {}
    case WakeOne(q) => if w.queues[q] == [] then {} else {w.queues[q][0]}
    case WakeAll(q) => Members(w.queues[q])
    case Tick(now) => Expired(w, now)
    case _ => {}
  }

  predicate Enabled(w: World, step: Step) {
    match step
    case Enqueue(q, t) => q in w.queues && t in w.threads
    case Remove(q, t) => q in w.queues && t in w.threads
    case WakeOne(q) => q in w.queues
    case WakeAll(q) => q in w.queues
    case Begin(q, t, _) => q in w.queues && t in w.threads &&
      (w.threads[t].owner == None || (w.threads[t].owner == Some(q) && !w.threads[t].armed))
    case End(t) => t in w.threads && w.threads[t].owner == None
    case Tick(_) => true
  }

  function Apply(w: World, step: Step): World
    requires w.counts.Keys == w.queues.Keys && Enabled(w, step)
  {
    match step
    case Enqueue(q, t) => Enqueued(w, q, t)
    case Begin(q, t, d) => Begun(w, q, t, d)
    case End(t) => Ended(w, t)
    case _ => Gone(w, Leaving(w, step), step.Tick?)
  }

  // ----------------------------------------------------------- the invariant, step by step

  lemma GoneInv(w: World, gone: set<Tid>, out: bool)
    requires Inv(w)
    ensures Inv(Gone(w, gone, out))
  {
    hide QueuesOk, TimeoutsOk;
    GoneQueues(w, gone, out);
    GoneTimeouts(w, gone, out);
  }

  lemma GoneQueues(w: World, gone: set<Tid>, out: bool)
    requires QueuesOk(w)
    ensures QueuesOk(Gone(w, gone, out))
  {
    hide Once, Keep;
    forall q | q in w.queues
      ensures Once(Keep(w.queues[q], gone)) && forall t :: t in Keep(w.queues[q], gone) <==> t in w.queues[q] && t !in gone
    {
      KeepOnce(w.queues[q], gone);
      KeepMembers(w.queues[q], gone);
    }
  }

  lemma GoneTimeouts(w: World, gone: set<Tid>, out: bool)
    requires TimeoutsOk(w)
    ensures TimeoutsOk(Gone(w, gone, out))
  {
    hide Once, Keep;
    KeepOnce(w.timeouts, gone);
    KeepMembers(w.timeouts, gone);
  }

  lemma InvKeys(w: World)
    requires Inv(w)
    ensures w.counts.Keys == w.queues.Keys
  {
  }

  lemma EnqueuedInv(w: World, q: Qid, t: Tid)
    requires Inv(w) && q in w.queues && t in w.threads
    ensures Inv(Enqueued(w, q, t))
  {
    hide TimeoutsOk;
    AppendOnce(w.queues[q], t);
    EnqueuedTimeouts(w, q, t);
  }

  lemma EnqueuedTimeouts(w: World, q: Qid, t: Tid)
    requires TimeoutsOk(w) && q in w.queues && q in w.counts && t in w.threads
    ensures TimeoutsOk(Enqueued(w, q, t))
  {
    hide Once;
  }

  lemma AppendOnce(s: seq<Tid>, t: Tid)
    requires Once(s)
    ensures t !in s ==> Once(s + [t])
  {
  }

  lemma ArmedInv(w: World, t: Tid, d: nat)
    requires Inv(w) && t in w.threads && w.threads[t].owner.Some?
    ensures Inv(Armed(w, t, d))
  {
    hide Once;
    KeepOnce(w.timeouts, {t});
    KeepMembers(w.timeouts, {t});
    AppendOnce(Keep(w.timeouts, {t}), t);
  }

  lemma EndedInv(w: World, t: Tid)
    requires Inv(w) && t in w.threads
    ensures Inv(Ended(w, t))
  {
    hide Once;
  }

  /** Every step keeps queues, owners, counts and the timeout list in agreement. */
  lemma StepKeepsInv(w: World, step: Step)
    requires Inv(w) && Enabled(w, step)
    ensures Inv(Apply(w, step))
  {
    hide QueuesOk, TimeoutsOk, Enqueued, Armed, Gone, Leaving;
    match step {
      case Enqueue(q, t) => EnqueuedInv(w, q, t);
      case Begin(q, t, d) => BegunInv(w, q, t, d);
      case End(t) => EndedInv(w, t);
      case _ => GoneInv(w, Leaving(w, step), step.Tick?);
    }
  }

  lemma BegunInv(w: World, q: Qid, t: Tid, d: nat)
    requires Inv(w) && Enabled(w, Begin(q, t, d))
    ensures Inv(Begun(w, q, t, d))
  {
    hide QueuesOk, TimeoutsOk, Armed;
    InvKeys(w);
    EndedInv(w, t);
    var w1 := Ended(w, t);
    EnqueuedInv(w1, q, t);
    ArmedInv(if w.threads[t].owner == Some(q) then w1 else Enqueued(w1, q, t), t, d);
  }

  /** After a tick nobody is armed with a deadline that has passed. */
  lemma TickClears(w: World, now: nat)
    requires Inv(w)
    ensures Expired(Apply(w, Tick(now)), now) == {}
    ensures forall t :: t in Apply(w, Tick(now)).timeouts ==> t in w.threads && w.threads[t].deadline > now
  {
    KeepMembers(w.timeouts, Expired(w, now));
  }

  // -------------------------------------------------------------------- runs

  /** ws[i] is the state before step i. */
  ghost predicate Run(ws: seq<World>, steps: seq<Step>) {
    && |ws| == |steps| + 1 && Inv(ws[0])
    && forall i :: 0 <= i < |steps| ==> Taken(ws[i], steps[i], ws[i + 1])
  }

  ghost predicate Taken(w: World, step: Step, w': World) {
    w.counts.Keys == w.queues.Keys && Enabled(w, step) && w' == Apply(w, step)
  }

  lemma {:induction false} RunKeepsInv(ws: seq<World>, steps: seq<Step>, i: nat)
    requires Run(ws, steps) && i < |ws|
    ensures Inv(ws[i])
  {
    hide Inv, Apply, Enabled;
    if i > 0 {
      RunKeepsInv(ws, steps, i - 1);
      assert Taken(ws[i - 1], steps[i - 1], ws[i - 1 + 1]);
      StepKeepsInv(ws[i - 1], steps[i - 1]);
    }
  }

  // --------------------------------------------------------------------- order

  /** No step lets a thread overtake another one in its queue. */
  lemma OrderKept(w: World, step: Step, q: Qid, t: Tid, u: Tid)
    requires Inv(w) && Enabled(w, step) && q in w.queues && Before(w.queues[q], t, u)
    ensures var w' := Apply(w, step);
            q in w'.queues && (t in w'.queues[q] && u in w'.queues[q] ==> Before(w'.queues[q], t, u))
  {
    var w' := Apply(w, step);
    if step.Remove? || step.WakeOne? || step.WakeAll? || step.Tick? {
      KeepMembers(w.queues[q], Leaving(w, step));
      if t in w'.queues[q] && u in w'.queues[q] {
        KeepOrder(w.queues[q], Leaving(w, step), t, u);
      }
    } else {
      AppendOrder(w.queues[q], w'.queues[q], t, u);
    }
  }

  lemma AppendOrder(s: seq<Tid>, s': seq<Tid>, t: Tid, u: Tid)
    requires Before(s, t, u) && s <= s'
    ensures Before(s', t, u)
  {
  }

  /** While t waits in q, nobody behind it in q is woken by waking one, over any run. */
  lemma {:induction false} FirstComeFirstServed(ws: seq<World>, steps: seq<Step>, q: Qid, t: Tid, u: Tid, n: nat)
    requires Run(ws, steps) && n < |steps| && q in ws[0].queues && Before(ws[0].queues[q], t, u)
    requires forall i :: 0 <= i <= n ==> q in ws[i].queues && t in ws[i].queues[q] && u in ws[i].queues[q]
    ensures Before(ws[n].queues[q], t, u)
    ensures steps[n] == WakeOne(q) ==> ws[n].queues[q][0] != u
  {
    hide Inv, Apply, Enabled;
    if n > 0 {
      FirstComeFirstServed(ws, steps, q, t, u, n - 1);
      RunKeepsInv(ws, steps, n - 1);
      assert Taken(ws[n - 1], steps[n - 1], ws[n - 1 + 1]);
      OrderKept(ws[n - 1], steps[n - 1], q, t, u);
    }
    RunKeepsInv(ws, steps, n);
    NotFirst(ws[n], q, t, u);
  }

  lemma NotFirst(w: World, q: Qid, t: Tid, u: Tid)
    requires Inv(w) && q in w.queues && Before(w.queues[q], t, u)
    ensures w.queues[q][0] != u
  {
  }

  /** Whoever comes into a queue stands behind all that wait there already. */
  lemma NewcomerIsLast(w: World, step: Step, q: Qid, t: Tid, u: Tid)
    requires Inv(w) && Enabled(w, step) && q in w.queues && t in w.queues[q] && u !in w.queues[q]
    requires q in Apply(w, step).queues && u in Apply(w, step).queues[q]
    ensures Before(Apply(w, step).queues[q], t, u)
  {
    var s, w' := w.queues[q], Apply(w, step);
    if step.Remove? || step.WakeOne? || step.WakeAll? || step.Tick? {
      KeepMembers(s, Leaving(w, step));
      assert false;
    }
    var i :| 0 <= i < |s| && s[i] == t;
    assert w'.queues[q] == s + [u] && w'.queues[q][i] == t && w'.queues[q][|s|] == u;
  }

  /**
   Over any run: when u comes into q, by step j, while t waits there, then as
   long as both wait, waking one of q does not wake u.
   */
  lemma ComesFirstIsServedFirst(ws: seq<World>, steps: seq<Step>, q: Qid, t: Tid, u: Tid, j: nat, n: nat)
    requires Run(ws, steps) && j < n < |steps|
    requires forall k :: j <= k <= n ==> q in ws[k].queues && t in ws[k].queues[q]
    requires u !in ws[j].queues[q] && forall k :: j < k <= n ==> u in ws[k].queues[q]
    ensures Before(ws[n].queues[q], t, u)
    ensures steps[n] == WakeOne(q) ==> u in ws[n + 1].queues[q]
  {
    hide Inv, Apply, Enabled;
    RunKeepsInv(ws, steps, j);
    RunKeepsInv(ws, steps, j + 1);
    assert Taken(ws[j], steps[j], ws[j + 1]);
    NewcomerIsLast(ws[j], steps[j], q, t, u);
    var vs, ts := ws[j + 1..], steps[j + 1..];
    assert Run(vs, ts) by {
      forall i | 0 <= i < |ts|
        ensures Taken(vs[i], ts[i], vs[i + 1])
      {
        assert Taken(ws[j + 1 + i], steps[j + 1 + i], ws[j + 1 + i + 1]);
      }
    }
    FirstComeFirstServed(vs, ts, q, t, u, n - j - 1);
    assert Taken(ws[n], steps[n], ws[n + 1]);
    if steps[n] == WakeOne(q) {
      OnlyTheFirst(ws[n], q, u);
    }
  }

  lemma OnlyTheFirst(w: World, q: Qid, u: Tid)
    requires Enabled(w, WakeOne(q)) && w.counts.Keys == w.queues.Keys && u in w.queues[q] && w.queues[q][0] != u
    ensures u in Apply(w, WakeOne(q)).queues[q]
  {
    KeepMembers(w.queues[q], Leaving(w, WakeOne(q)));
  }

  /** Who leaves is in no queue afterwards, not armed, and in nobody's list. */
  lemma LeaversAreOut(w: World, step: Step, t: Tid)
    requires Inv(w) && Enabled(w, step) && t in Leaving(w, step)
    ensures var w' := Apply(w, step);
            && t in w'.threads && w'.threads[t].owner == None && !w'.threads[t].armed && t !in w'.timeouts
            && forall p :: p in w'.queues ==> t !in w'.queues[p]
  {
    hide Keep, Once, TimeoutsOk;
    KeepMembers(w.timeouts, Leaving(w, step));
    forall p | p in w.queues
      ensures t !in Keep(w.queues[p], Leaving(w, step))
    {
      KeepMembers(w.queues[p], Leaving(w, step));
    }
  }

  // ------------------------------------------------------------------- timeouts

  /** t is blocked in q; it is armed exactly if it has a deadline. */
  ghost predicate Waiting(w: World, q: Qid, t: Tid, d: nat) {
    t in w.threads && w.threads[t] == Thread(Some(q), d != 0, d, false)
  }

  /** t has left q and is about to return from its wait. */
  ghost predicate Returning(w: World, t: Tid, out: bool) {
    t in w.threads && w.threads[t] == Thread(None, false, 0, out)
  }

  /** The thread itself does nothing while it is blocked. */
  predicate ByOthers(step: Step, t: Tid) {
    !(step.Enqueue? && step.t == t) && !(step.Begin? && step.t == t) && !(step.End? && step.t == t)
  }

  /** The step by which a deadline takes effect. */
  predicate TicksPast(step: Step, d: nat) { step.Tick? && d != 0 && d <= step.now }

  lemma BeginWaits(w: World, q: Qid, t: Tid, d: nat)
    requires Inv(w) && Enabled(w, Begin(q, t, d))
    ensures Waiting(Apply(w, Begin(q, t, d)), q, t, d)
  {
  }

  /** One step of others on a blocked thread: it stays, or leaves, timed out exactly by a tick past its deadline. */
  lemma WaitStep(w: World, step: Step, q: Qid, t: Tid, d: nat)
    requires Inv(w) && Enabled(w, step) && Waiting(w, q, t, d) && ByOthers(step, t)
    ensures var w' := Apply(w, step);
            if TicksPast(step, d) then Returning(w', t, true) else Waiting(w', q, t, d) || Returning(w', t, false)
  {
    hide Keep, TimeoutsOk, Once;
    match step
    case _ =>
  }

  lemma ReturnStep(w: World, step: Step, t: Tid, out: bool)
    requires Inv(w) && Enabled(w, step) && Returning(w, t, out) && ByOthers(step, t)
    ensures Returning(Apply(w, step), t, out)
  {
    hide Keep, TimeoutsOk, Once;
    match step
    case _ =>
  }

  /** Some tick at or past the deadline found t still waiting. */
  ghost predicate TickedOut(ws: seq<World>, steps: seq<Step>, q: Qid, t: Tid, d: nat, n: nat)
    requires |ws| == |steps| + 1 && n <= |steps|
  {
    exists i :: 0 <= i < n && TicksPast(steps[i], d) && Waiting(ws[i], q, t, d)
  }

  /**
   A wait that begins in ws[0] and during which the thread itself takes no
   step: as long as no tick and no waker took it, it is still waiting; once it
   may return, it reports a timeout exactly if a tick at or past its deadline
   took it out of the queue.
   */
  lemma {:induction false} TimeoutExactly(ws: seq<World>, steps: seq<Step>, q: Qid, t: Tid, d: nat, n: nat)
    requires Run(ws, steps) && 0 < n <= |steps| && steps[0] == Begin(q, t, d)
    requires forall i :: 0 < i < n ==> ByOthers(steps[i], t)
    ensures Waiting(ws[n], q, t, d) || Returning(ws[n], t, TickedOut(ws, steps, q, t, d, n))
    ensures Waiting(ws[n], q, t, d) ==> !TickedOut(ws, steps, q, t, d, n)
  {
    hide Inv, Apply, Enabled;
    assert Taken(ws[n - 1], steps[n - 1], ws[n - 1 + 1]);
    RunKeepsInv(ws, steps, n - 1);
    if n == 1 {
      BeginWaits(ws[0], q, t, d);
      assert !TickedOut(ws, steps, q, t, d, 1);
    } else {
      TimeoutExactly(ws, steps, q, t, d, n - 1);
      var before := TickedOut(ws, steps, q, t, d, n - 1);
      assert TickedOut(ws, steps, q, t, d, n) <==> before || (TicksPast(steps[n - 1], d) && Waiting(ws[n - 1], q, t, d));
      if Waiting(ws[n - 1], q, t, d) {
        WaitStep(ws[n - 1], steps[n - 1], q, t, d);
      } else {
        ReturnStep(ws[n - 1], steps[n - 1], t, before);
      }
    }
  }

  // ------------------------------------------------------------------- deadlines

  const SLICE_MS := 10

  /** The ticks that a timeout in milliseconds is turned into, in 64-bit arithmetic. */
  function TimeoutTicks(ms: nat): nat {
    var ticks := (ms + SLICE_MS - 1) % U64 / SLICE_MS;
    if ticks == 0 then 1 else ticks
  }

  /** A wait is never shorter than asked for, exactly as long as rounding up does not wrap. */
  lemma NotShorter(ms: nat)
    requires 0 < ms < U64
    ensures TimeoutTicks(ms) * SLICE_MS >= ms <==> ms + SLICE_MS - 1 < U64
    ensures ms + SLICE_MS - 1 < U64 ==> TimeoutTicks(ms) * SLICE_MS < ms + SLICE_MS
  {
  }

  // ---------------------------------------------------------------- the queues

  class WaitQueues {
    var queues: map<Qid, seq<Tid>>
    var counts: map<Qid, nat>
    var threads: map<Tid, Thread>
    var timeouts: seq<Tid>

    function Now(): World
      reads this
    {
      World(queues, counts, threads, timeouts)
    }

    ghost predicate Valid()
      reads this
    {
      Inv(Now())
    }

    /** Queues that are empty and threads that wait for nothing. */
    constructor (qs: set<Qid>, ts: set<Tid>)
      ensures Valid() && queues == map q | q in qs :: []
      ensures threads == map t | t in ts :: Thread(None, false, 0, false)
    {
      queues, counts := map q | q in qs :: [], map q | q in qs :: 0;
      threads, timeouts := map t | t in ts :: Thread(None, false, 0, false), [];
    }

    method Disarm(t: Tid)
      requires t in threads
      modifies this`threads, this`timeouts
      ensures if !old(threads)[t].armed then unchanged(this)
              else timeouts == Keep(old(timeouts), {t}) && threads == old(threads)[t := old(threads)[t].(armed := false, deadline := 0)]
    {
      if !threads[t].armed {
        return;
      }
      timeouts := Keep(timeouts, {t});
      threads := threads[t := threads[t].(armed := false, deadline := 0)];
    }

    method Arm(t: Tid, deadline: nat)
      requires Valid() && t in threads
      modifies this`threads, this`timeouts
      ensures Now() == Armed(old(Now()), t, deadline)
    {
      hide QueuesOk, Once;
      if deadline == 0 {
        return;
      }
      if threads[t].armed {
        Disarm(t);
      } else {
        KeepAll(timeouts, {t});
      }
      threads := threads[t := threads[t].(deadline := deadline)];
      timeouts := timeouts + [t];
      threads := threads[t := threads[t].(armed := true)];
    }

    /** A thread enters a queue, at its end; one that already waits somewhere is refused. */
    method EnqueueThread(q: Qid, t: Tid) returns (status: Status)
      requires Valid() && q in queues && t in threads
      modifies this`queues, this`counts, this`threads
      ensures Valid() && Now() == Apply(old(Now()), Enqueue(q, t))
      ensures status == if old(threads)[t].owner.Some? then Busy else Ok
    {
      hide QueuesOk, TimeoutsOk;
      InvKeys(Now());
      StepKeepsInv(Now(), Enqueue(q, t));
      if threads[t].owner == Some(q) {
        return Busy;
      }
      if threads[t].owner != None {
        return Busy;
      }
      queues := queues[q := queues[q] + [t]];
      threads := threads[t := threads[t].(owner := Some(q))];
      counts := counts[q := counts[q] + 1];
      return Ok;
    }

    /** Takes t out of queue q and off the timeout list, not timed out. */
    method Release(q: Qid, t: Tid)
      requires Valid() && q in queues && t in queues[q] && t in threads
      modifies this
      ensures Valid() && Now() == Gone(old(Now()), {t}, false)
    {
      hide QueuesOk, TimeoutsOk, Keep, Gone;
      InvKeys(Now());
      GoneInv(Now(), {t}, false);
      GoneOne(Now(), q, t, false);
      queues := queues[q := Keep(queues[q], {t})];
      threads := threads[t := threads[t].(owner := None)];
      threads := threads[t := threads[t].(timedOut := false)];
      Disarm(t);
      if counts[q] > 0 {
        counts := counts[q := counts[q] - 1];
      }
      assert threads == old(threads)[t := Thread(None, false, 0, false)];
    }

    method RemoveThread(q: Qid, t: Tid) returns (status: Status)
      requires Valid() && q in queues && t in threads
      modifies this
      ensures Valid() && Now() == Apply(old(Now()), Remove(q, t))
      ensures status == if old(threads)[t].owner == Some(q) then Ok else NotFound
      ensures status == Ok ==>
                t in threads && threads[t].owner == None && !threads[t].armed && t !in timeouts && forall p :: p in queues ==> t !in queues[p]
    {
      hide TimeoutsOk, Keep, Gone, Once;
      if threads[t].owner != Some(q) {
        NobodyGone(Now(), false);
        return NotFound;
      }
      LeaversAreOut(Now(), Remove(q, t), t);
      Release(q, t);
      return Ok;
    }

    /** Wakes the thread that has waited longest. */
    method WakeFirst(q: Qid) returns (r: Option<Tid>)
      requires Valid() && q in queues
      modifies this
      ensures Valid() && Now() == Apply(old(Now()), WakeOne(q))
      ensures r == if old(queues)[q] == [] then None else Some(old(queues)[q][0])
    {
      hide TimeoutsOk, Keep, Gone, Once;
      if queues[q] == [] {
        NobodyGone(Now(), false);
        return None;
      }
      var t := queues[q][0];
      Release(q, t);
      return Some(t);
    }

    /** Wakes all threads of a queue, in the order in which they came. */
    method WakeEveryone(q: Qid) returns (woke: nat, ghost order: seq<Tid>)
      requires Valid() && q in queues
      modifies this
      ensures Valid() && Now() == Apply(old(Now()), WakeAll(q))
      ensures woke == |old(queues)[q]| && order == old(queues)[q] && queues[q] == []
    {
      hide QueuesOk, TimeoutsOk, Keep, Gone, Once, Members;
      ghost var w0, s := Now(), queues[q];
      woke, order := 0, [];
      QueueMembers(w0, q);
      NobodyGone(w0, false);
      var more := true;
      while more
        invariant Valid() && q in queues && woke <= |s| && order == s[..woke]
        invariant Now() == Gone(w0, Members(s[..woke]), false) && queues[q] == s[woke..]
        invariant !more ==> woke == |s|
        decreases |s| - woke, more
      {
        ghost var w1, left := Now(), queues[q];
        NobodyGone(w1, false);
        QueueMembers(w1, q);
        var r := WakeFirst(q);
        if r.None? {
          more := false;
        } else {
          order := order + [r.value];
          GoneTwice(w0, Members(s[..woke]), {r.value}, false);
          MembersStep(s, woke);
          KeepFirst(left);
          GoneQueue(w1, {r.value}, q);
          woke := woke + 1;
        }
      }
      assert s[..|s|] == s;
    }

    /** The first half of a wait: queue up and arm the deadline, if there is one. */
    method WaitBegin(q: Qid, t: Tid, deadline: nat)
      requires Valid() && Enabled(Now(), Begin(q, t, deadline))
      modifies this
      ensures Valid() && Now() == Apply(old(Now()), Begin(q, t, deadline)) && Waiting(Now(), q, t, deadline)
    {
      hide QueuesOk, TimeoutsOk, Armed;
      InvKeys(Now());
      StepKeepsInv(Now(), Begin(q, t, deadline));
      BeginWaits(Now(), q, t, deadline);
      EndedInv(Now(), t);
      threads := threads[t := threads[t].(timedOut := false)];
      if threads[t].owner != Some(q) {
        var _ := EnqueueThread(q, t);
      }
      if deadline != 0 {
        Arm(t, deadline);
      } else {
        NotArmed(Now(), t);
      }
    }

    /** The second half, once the thread is in no queue: how the wait ended. */
    method WaitEnd(t: Tid) returns (status: Status)
      requires Valid() && Enabled(Now(), End(t))
      modifies this`threads
      ensures Valid() && Now() == Apply(old(Now()), End(t))
      ensures status == if old(threads)[t].timedOut then Timeout else Ok
    {
      hide QueuesOk, TimeoutsOk;
      InvKeys(Now());
      StepKeepsInv(Now(), End(t));
      status := if threads[t].timedOut then Timeout else Ok;
      threads := threads[t := threads[t].(timedOut := false)];
    }

    /** The clock tick: every thread whose deadline has come is timed out and woken. */
    method TickTimeouts(now: nat)
      requires Valid()
      modifies this
      ensures Valid() && Now() == Apply(old(Now()), Tick(now))
      ensures Expired(Now(), now) == {}
    {
      hide QueuesOk, TimeoutsOk, Keep, Gone, Once;
      ghost var w0 := Now();
      var list := timeouts;
      NobodyGone(w0, true);
      TickClears(w0, now);
      InvKeys(w0);
      assert Due(w0, list[..0], now) == {};
      for i := 0 to |list|
        invariant Valid() && Now() == Gone(w0, Due(w0, list[..i], now), true)
      {
        var it := list[i];
        Untouched(w0, list, i, now);
        DueStep(w0, list, i, now);
        if !threads[it].armed || threads[it].deadline == 0 {
          // The source drops such a thread from the list; there is none.
          assert false;
        }
        if threads[it].deadline > now {
          continue;
        }
        GoneTwice(w0, Due(w0, list[..i], now), {it}, true);
        TimeOut(it);
      }
      assert list[..|list|] == list;
      AllDue(w0, now);
    }

    /** One thread times out. */
    method TimeOut(t: Tid)
      requires Valid() && t in threads && threads[t].armed
      modifies this
      ensures Valid() && Now() == Gone(old(Now()), {t}, true)
    {
      hide QueuesOk, TimeoutsOk, Keep, Gone;
      OwnerOfArmed(Now(), t);
      GoneInv(Now(), {t}, true);
      InvKeys(Now());
      var q := threads[t].owner.value;
      GoneOne(Now(), q, t, true);
      threads := threads[t := threads[t].(timedOut := true)];
      Disarm(t);
      queues := queues[q := Keep(queues[q], {t})];
      threads := threads[t := threads[t].(owner := None)];
      if counts[q] > 0 {
        counts := counts[q := counts[q] - 1];
      }
      assert threads == old(threads)[t := Thread(None, false, 0, true)];
    }
  }

  // ------------------------------------------------------------ helpers for the loops

  /** Among the first threads of the timeout list, those whose deadline has come. */
  ghost function Due(w: World, list: seq<Tid>, now: nat): set<Tid> {
    set t | t in list && t in Expired(w, now)
  }

  /** What leaving means for one thread: only its own queue changes. */
  lemma GoneOne(w: World, q: Qid, t: Tid, out: bool)
    requires Inv(w) && q in w.queues && t in w.queues[q] && t in w.threads
    ensures w.counts[q] > 0
    ensures w.threads[t].armed || (Keep(w.timeouts, {t}) == w.timeouts && w.threads[t].deadline == 0)
    ensures Gone(w, {t}, out) ==
            w.(queues := w.queues[q := Keep(w.queues[q], {t})], counts := w.counts[q := w.counts[q] - 1],
               threads := w.threads[t := Thread(None, false, 0, out)], timeouts := Keep(w.timeouts, {t}))
  {
    hide Keep;
    KeepOneSize(w.queues[q], t);
    forall p | p in w.queues && p != q
      ensures Keep(w.queues[p], {t}) == w.queues[p]
    {
      KeepAll(w.queues[p], {t});
    }
    if !w.threads[t].armed {
      KeepAll(w.timeouts, {t});
    }
  }

  lemma NobodyGone(w: World, out: bool)
    requires Inv(w)
    ensures Gone(w, {}, out) == w
  {
    hide Keep, Once;
    KeepAll(w.timeouts, {});
    forall q | q in w.queues
      ensures Keep(w.queues[q], {}) == w.queues[q]
    {
      KeepAll(w.queues[q], {});
    }
  }

  lemma GoneTwice(w: World, a: set<Tid>, b: set<Tid>, out: bool)
    ensures Gone(Gone(w, a, out), b, out) == Gone(w, a + b, out)
  {
    hide Keep;
    KeepTwice(w.timeouts, a, b);
    forall q | q in w.queues
      ensures Keep(Keep(w.queues[q], a), b) == Keep(w.queues[q], a + b)
    {
      KeepTwice(w.queues[q], a, b);
    }
  }

  lemma QueueMembers(w: World, q: Qid)
    requires Inv(w) && q in w.queues
    ensures Once(w.queues[q]) && Members(w.queues[q][..0]) == {}
  {
  }

  lemma MembersStep(s: seq<Tid>, i: nat)
    requires i < |s|
    ensures Members(s[..i + 1]) == Members(s[..i]) + {s[i]} && s[..i + 1] == s[..i] + [s[i]]
    ensures s[i..] == [s[i]] + s[i + 1..] && s[i..][1..] == s[i + 1..]
  {
  }

  lemma KeepFirst(s: seq<Tid>)
    requires s != [] && Once(s)
    ensures Keep(s, {s[0]}) == s[1..]
  {
    KeepAll(s[1..], {s[0]});
  }

  lemma GoneQueue(w: World, gone: set<Tid>, q: Qid)
    requires q in w.queues
    ensures q in Gone(w, gone, false).queues && Gone(w, gone, false).queues[q] == Keep(w.queues[q], gone)
  {
  }

  lemma NotArmed(w: World, t: Tid)
    requires t in w.threads
    ensures Armed(w, t, 0) == w
  {
  }

  lemma OwnerOfArmed(w: World, t: Tid)
    requires Inv(w) && t in w.threads && w.threads[t].armed
    ensures w.threads[t].owner.Some? && w.threads[t].owner.value in w.queues && t in w.queues[w.threads[t].owner.value]
  {
    hide Once;
  }

  /** The threads not yet looked at are as they were. */
  lemma Untouched(w: World, list: seq<Tid>, i: nat, now: nat)
    requires Inv(w) && list == w.timeouts && i < |list|
    ensures list[i] in w.threads && w.threads[list[i]].armed && w.threads[list[i]].deadline != 0
    ensures var g := Gone(w, Due(w, list[..i], now), true); list[i] in g.threads && g.threads[list[i]] == w.threads[list[i]]
  {
    hide Keep, QueuesOk;
    assert list[i] !in list[..i];
  }

  lemma DueStep(w: World, list: seq<Tid>, i: nat, now: nat)
    requires i < |list| && list[i] in w.threads && w.threads[list[i]].armed
    ensures Due(w, list[..i + 1], now) ==
            if w.threads[list[i]].deadline <= now then Due(w, list[..i], now) + {list[i]} else Due(w, list[..i], now)
  {
    assert list[..i + 1] == list[..i] + [list[i]];
  }

  lemma AllDue(w: World, now: nat)
    requires Inv(w)
    ensures Due(w, w.timeouts, now) == Expired(w, now)
  {
    hide QueuesOk, Once;
  }
}
