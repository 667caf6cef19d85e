/** The queue of callbacks that the top-level event loop runs one at a time. */
module Callbacks {

  /** A callback that is queued at most once at a time; `at` is its own address. */
  class IdempotentCallback {
    const fn: int
    const ctx: int
    const at: int
    var queued: bool

    constructor (fn: int, ctx: int, at: int)
      ensures this.fn == fn && this.ctx == ctx && this.at == at && !queued
    {
      this.fn, this.ctx, this.at, queued := fn, ctx, at, false;
    }
  }

  /** What a queue entry calls: a function on a context, or `run_idempotent_callback` on an idempotent callback. */
  datatype Task = Plain(fn: int, ctx: int) | Idempotent(ic: IdempotentCallback)

  /** What a callback does with the queue while it runs. */
  datatype Action = Enqueue(fn: int, ctx: int) | EnqueueOnce(ic: IdempotentCallback) | DeleteFor(ctx: int)

  /** A request made at some time, and whether it was deleted before its turn. */
  datatype Entry = Entry(task: Task, deleted: bool)

  /** `callback_is_for_context`. */
  predicate IsFor(ctx: int, t: Task) {
    match t
    case Plain(_, c) => c == ctx
    case Idempotent(ic) => ic.at == ctx || ic.ctx == ctx
  }

  // ----- lists of tasks

  /** The tasks that are not for the context, in their order. */
  function Without(ctx: int, ts: seq<Task>): seq<Task> {
    if ts == [] then [] else (if IsFor(ctx, ts[0]) then [] else [ts[0]]) + Without(ctx, ts[1..])
  }

  ghost function Surviving(h: seq<Entry>): seq<Task> {
    if h == [] then [] else (if h[0].deleted then [] else [h[0].task]) + Surviving(h[1..])
  }

  /** The history once all but the first `n` surviving tasks have been checked against a context. */
  ghost function Struck(h: seq<Entry>, n: nat, ctx: int): seq<Entry> {
    if h == [] then []
    else if h[0].deleted then [h[0]] + Struck(h[1..], n, ctx)
    else if n > 0 then [h[0]] + Struck(h[1..], n - 1, ctx)
    else [Entry(h[0].task, IsFor(ctx, h[0].task))] + Struck(h[1..], 0, ctx)
  }

  lemma SurvivingCons(e: Entry, h: seq<Entry>)
    ensures Surviving([e] + h) == (if e.deleted then [] else [e.task]) + Surviving(h)
  {
    assert ([e] + h)[1..] == h;
  }

  lemma Shifted(t: Task, s: seq<Task>, n: nat)
    requires 0 < n <= |s| + 1
    ensures ([t] + s)[n..] == s[n - 1..] && ([t] + s)[..n] == [t] + s[..n - 1]
  {
  }

  lemma {:induction false} StruckSurvives(h: seq<Entry>, n: nat, ctx: int)
    requires n <= |Surviving(h)|
    ensures Surviving(Struck(h, n, ctx)) == Surviving(h)[..n] + Without(ctx, Surviving(h)[n..])
  {
    hide Surviving, Struck, Without, IsFor;
    if h == [] {
      StruckEmpty(h, n, ctx);
    } else {
      StruckUnfolds(h, n, ctx);
      var t, s := h[0].task, Surviving(h[1..]);
      if h[0].deleted {
        StruckSurvives(h[1..], n, ctx);
      } else if n > 0 {
        StruckSurvives(h[1..], n - 1, ctx);
        Shifted(t, s, n);
        assert [t] + (s[..n - 1] + Without(ctx, s[n - 1..])) == ([t] + s[..n - 1]) + Without(ctx, s[n - 1..]);
      } else {
        StruckSurvives(h[1..], 0, ctx);
        WithoutUnfolds(ctx, t, s);
        assert [] + Without(ctx, s[0..]) == Without(ctx, s[0..]);
      }
    }
  }

  lemma StruckOrder(h: seq<Entry>, d: seq<Task>, c: seq<Task>, q: seq<Task>, ctx: int)
    requires Surviving(h) == d + c + q
    ensures Surviving(Struck(h, |d| + |c|, ctx)) == d + c + Without(ctx, q)
  {
    hide Surviving, Struck, Without;
    StruckSurvives(h, |d| + |c|, ctx);
    assert (d + c + q)[..|d| + |c|] == d + c && (d + c + q)[|d| + |c|..] == q;
  }

  lemma StruckEmpty(h: seq<Entry>, n: nat, ctx: int)
    requires h == []
    ensures Surviving(h) == [] && Surviving(Struck(h, n, ctx)) == [] && Without(ctx, []) == []
  {
  }

  lemma StruckUnfolds(h: seq<Entry>, n: nat, ctx: int)
    requires h != []
    ensures Surviving(h) == if h[0].deleted then Surviving(h[1..]) else [h[0].task] + Surviving(h[1..])
    ensures Surviving(Struck(h, n, ctx)) ==
              if h[0].deleted then Surviving(Struck(h[1..], n, ctx))
              else if n > 0 then [h[0].task] + Surviving(Struck(h[1..], n - 1, ctx))
              else (if IsFor(ctx, h[0].task) then [] else [h[0].task]) + Surviving(Struck(h[1..], 0, ctx))
  {
    if h[0].deleted {
      SurvivingCons(h[0], Struck(h[1..], n, ctx));
    } else if n > 0 {
      SurvivingCons(h[0], Struck(h[1..], n - 1, ctx));
    } else {
      SurvivingCons(Entry(h[0].task, IsFor(ctx, h[0].task)), Struck(h[1..], 0, ctx));
    }
  }

  lemma WithoutUnfolds(ctx: int, t: Task, s: seq<Task>)
    ensures Without(ctx, ([t] + s)[0..]) == (if IsFor(ctx, t) then [] else [t]) + Without(ctx, s[0..])
    ensures ([t] + s)[..0] == [] && s[..0] == []
  {
    assert ([t] + s)[0..] == [t] + s && s[0..] == s && ([t] + s)[1..] == s;
  }

  lemma {:induction false} SurvivingAppend(h: seq<Entry>, t: Task)
    ensures Surviving(h + [Entry(t, false)]) == Surviving(h) + [t]
  {
    if h == [] {
      assert h + [Entry(t, false)] == [Entry(t, false)];
      assert Surviving([Entry(t, false)]) == [t] + Surviving([]);
    } else {
      SurvivingAppend(h[1..], t);
      assert (h + [Entry(t, false)])[1..] == h[1..] + [Entry(t, false)];
    }
  }

  /** How often an idempotent callback is in a list. */
  ghost function Times(ts: seq<Task>, ic: IdempotentCallback): nat {
    if ts == [] then 0 else (if ts[0] == Idempotent(ic) then 1 else 0) + Times(ts[1..], ic)
  }

  lemma {:induction false} TimesAppend(ts: seq<Task>, us: seq<Task>, ic: IdempotentCallback)
    ensures Times(ts + us, ic) == Times(ts, ic) + Times(us, ic)
  {
    if ts == [] {
      assert ts + us == us;
    } else {
      TimesAppend(ts[1..], us, ic);
      assert (ts + us)[1..] == ts[1..] + us;
    }
  }

  lemma {:induction false} TimesWithout(ctx: int, ts: seq<Task>, ic: IdempotentCallback)
    ensures Times(Without(ctx, ts), ic) == if IsFor(ctx, Idempotent(ic)) then 0 else Times(ts, ic)
  {
    if ts != [] {
      TimesWithout(ctx, ts[1..], ic);
      TimesAppend(if IsFor(ctx, ts[0]) then [] else [ts[0]], Without(ctx, ts[1..]), ic);
      if !IsFor(ctx, ts[0]) {
        assert Times([ts[0]], ic) == (if ts[0] == Idempotent(ic) then 1 else 0) + Times([], ic);
      }
    }
  }

  /** What one action adds to the queue: a request for an idempotent callback whose flag is set already adds nothing. */
  ghost function Adds1(a: Action, flagged: set<IdempotentCallback>): seq<Task> {
    if a.Enqueue? then [Plain(a.fn, a.ctx)]
    else if a.EnqueueOnce? && a.ic !in flagged then [Idempotent(a.ic)]
    else []
  }

  ghost function FlagsAfter(a: Action, flagged: set<IdempotentCallback>): set<IdempotentCallback> {
    if a.EnqueueOnce? then flagged + {a.ic} else flagged
  }

  /** What a callback that deletes nothing adds. */
  ghost function Adds(acts: seq<Action>, flagged: set<IdempotentCallback>): seq<Task> {
    if acts == [] then [] else Adds1(acts[0], flagged) + Adds(acts[1..], FlagsAfter(acts[0], flagged))
  }

  lemma AddsUnfold(acts: seq<Action>, i: nat, flagged: set<IdempotentCallback>)
    requires i < |acts|
    ensures Adds(acts[i..], flagged) == Adds1(acts[i], flagged) + Adds(acts[i + 1..], FlagsAfter(acts[i], flagged))
  {
    assert acts[i..][1..] == acts[i + 1..];
  }

  lemma AddsEnds(acts: seq<Action>, flagged: set<IdempotentCallback>)
    ensures acts[0..] == acts && Adds(acts[|acts|..], flagged) == []
  {
    assert acts[|acts|..] == [];
  }

  ghost predicate NoneDeleted(h: seq<Entry>) {
    forall e | e in h :: !e.deleted
  }

  ghost predicate NoDeletions(acts: seq<Action>) {
    forall a | a in acts :: !a.DeleteFor?
  }

  /** A request for an idempotent callback whose flag is clear is not lost. */
  lemma {:induction false} RequestKept(acts: seq<Action>, flagged: set<IdempotentCallback>, ic: IdempotentCallback)
    requires EnqueueOnce(ic) in acts && ic !in flagged
    ensures Idempotent(ic) in Adds(acts, flagged)
  {
    if acts[0] != EnqueueOnce(ic) {
      assert EnqueueOnce(ic) in acts[1..];
      RequestKept(acts[1..], FlagsAfter(acts[0], flagged), ic);
    }
  }

  /** Something happens: requests are made from outside, or it is the turn of the next callback, which makes some. */
  datatype Event = Outside(acts: seq<Action>) | Turn(acts: seq<Action>)

  ghost function Requests(h: seq<Entry>): seq<Task> {
    if h == [] then [] else [h[0].task] + Requests(h[1..])
  }

  lemma {:induction false} AllSurvive(h: seq<Entry>)
    requires NoneDeleted(h)
    ensures Surviving(h) == Requests(h)
  {
    if h != [] {
      assert !h[0].deleted;
      AllSurvive(h[1..]);
    }
  }

  // ----- flags

  /** The idempotent callbacks that some deletion took out of the queue. */
  ghost function DroppedIn(h: seq<Entry>, members: set<IdempotentCallback>): set<IdempotentCallback> {
    set ic | ic in members && Entry(Idempotent(ic), true) in h
  }

  lemma DroppedAppend(h: seq<Entry>, members: set<IdempotentCallback>, t: Task)
    ensures DroppedIn(h + [Entry(t, false)], members) == DroppedIn(h, members)
  {
  }

  /** A deletion marks exactly the tasks of its context that wait, and takes no mark back. */
  lemma {:induction false} StruckMarks(h: seq<Entry>, n: nat, ctx: int, t: Task)
    requires n <= |Surviving(h)|
    ensures Entry(t, true) in Struck(h, n, ctx) <==> Entry(t, true) in h || (IsFor(ctx, t) && t in Surviving(h)[n..])
  {
    hide IsFor;
    if h != [] {
      var s := Surviving(h[1..]);
      assert h == [h[0]] + h[1..];
      if h[0].deleted {
        assert Surviving(h) == s;
        StruckMarks(h[1..], n, ctx, t);
      } else if n > 0 {
        StruckMarks(h[1..], n - 1, ctx, t);
        Shifted(h[0].task, s, n);
      } else {
        StruckMarks(h[1..], 0, ctx, t);
        assert ([h[0].task] + s)[0..] == [h[0].task] + s && s[0..] == s;
      }
    }
  }

  lemma DroppedStruck(h: seq<Entry>, d: seq<Task>, c: seq<Task>, q: seq<Task>, ctx: int,
                      members: set<IdempotentCallback>)
    requires Surviving(h) == d + c + q
    ensures DroppedIn(Struck(h, |d| + |c|, ctx), members) == DroppedIn(h, members) + Hit(q, members, ctx)
  {
    hide Surviving, Struck, IsFor;
    assert (d + c + q)[|d| + |c|..] == q;
    forall ic | ic in members
      ensures Entry(Idempotent(ic), true) in Struck(h, |d| + |c|, ctx)
              <==> Entry(Idempotent(ic), true) in h || (IsFor(ctx, Idempotent(ic)) && Idempotent(ic) in q)
    {
      StruckMarks(h, |d| + |c|, ctx, Idempotent(ic));
    }
  }

  /** An idempotent callback is queued at most once, and its flag is set just while it is queued, or for good once it
      has been deleted from the queue. */
  ghost predicate FlagsAgree(queue: seq<Task>, members: set<IdempotentCallback>, flagged: set<IdempotentCallback>,
                             dropped: set<IdempotentCallback>) {
    && (forall t | t in queue && t.Idempotent? :: t.ic in members)
    && (forall ic | ic in members :: Times(queue, ic) == if ic in flagged && ic !in dropped then 1 else 0)
    && dropped <= flagged && flagged <= members
  }

  lemma PlainAdded(queue: seq<Task>, members: set<IdempotentCallback>, flagged: set<IdempotentCallback>,
                   dropped: set<IdempotentCallback>, fn: int, ctx: int)
    requires FlagsAgree(queue, members, flagged, dropped)
    ensures FlagsAgree(queue + [Plain(fn, ctx)], members, flagged, dropped)
  {
    forall ic | ic in members ensures Times(queue + [Plain(fn, ctx)], ic) == Times(queue, ic) {
      TimesAppend(queue, [Plain(fn, ctx)], ic);
    }
  }

  lemma OnceAdded(queue: seq<Task>, members: set<IdempotentCallback>, flagged: set<IdempotentCallback>,
                  dropped: set<IdempotentCallback>, ic: IdempotentCallback)
    requires FlagsAgree(queue, members, flagged, dropped) && ic in members && ic !in flagged
    ensures FlagsAgree(queue + [Idempotent(ic)], members, flagged + {ic}, dropped)
  {
    forall jc | jc in members
      ensures Times(queue + [Idempotent(ic)], jc) == Times(queue, jc) + if jc == ic then 1 else 0
    {
      TimesAppend(queue, [Idempotent(ic)], jc);
      assert Times([Idempotent(ic)], jc) == (if jc == ic then 1 else 0) + Times([], jc);
    }
  }

  /** The idempotent callbacks of a queue that are for a context. */
  ghost function Hit(queue: seq<Task>, members: set<IdempotentCallback>, ctx: int): set<IdempotentCallback> {
    set ic | ic in members && Idempotent(ic) in queue && IsFor(ctx, Idempotent(ic))
  }

  lemma Deleted(queue: seq<Task>, members: set<IdempotentCallback>, flagged: set<IdempotentCallback>,
                dropped: set<IdempotentCallback>, ctx: int)
    requires FlagsAgree(queue, members, flagged, dropped)
    ensures FlagsAgree(Without(ctx, queue), members, flagged, dropped + Hit(queue, members, ctx))
  {
    forall ic | ic in members
      ensures Times(Without(ctx, queue), ic) == (if IsFor(ctx, Idempotent(ic)) then 0 else Times(queue, ic))
              && (Times(queue, ic) > 0 <==> Idempotent(ic) in queue)
    {
      TimesWithout(ctx, queue, ic);
      TimesIn(queue, ic);
    }
    WithoutIn(ctx, queue);
  }

  /** The first task leaves the queue and clears its flag. */
  lemma Popped(queue: seq<Task>, members: set<IdempotentCallback>, flagged: set<IdempotentCallback>,
               dropped: set<IdempotentCallback>)
    requires FlagsAgree(queue, members, flagged, dropped) && queue != []
    ensures FlagsAgree(queue[1..], members, Cleared(flagged, queue[0]), dropped)
    ensures queue[0].Idempotent? ==> queue[0].ic in members
  {
    forall ic | ic in members
      ensures Times(queue, ic) == (if queue[0] == Idempotent(ic) then 1 else 0) + Times(queue[1..], ic)
    {
    }
  }

  ghost function Cleared(flagged: set<IdempotentCallback>, t: Task): set<IdempotentCallback> {
    if t.Idempotent? then flagged - {t.ic} else flagged
  }

  // ----- the queue

  /** `struct callback`. */
  class Callback {
    const task: Task
    var next: Callback?

    constructor (t: Task)
      ensures task == t && next == null
    {
      task, next := t, null;
    }
  }

  ghost function TasksOf(cs: seq<Callback>): (r: seq<Task>)
    ensures |r| == |cs| && forall i | 0 <= i < |cs| :: r[i] == cs[i].task
  {
    if cs == [] then [] else [cs[0].task] + TasksOf(cs[1..])
  }

  lemma TasksAppend(cs: seq<Callback>, c: Callback)
    ensures TasksOf(cs + [c]) == TasksOf(cs) + [c.task]
  {
  }

  ghost predicate LinkAt(cs: seq<Callback>, i: int)
    reads cs
  {
    0 <= i < |cs| ==> cs[i].next == if i + 1 < |cs| then cs[i + 1] else null
  }

  ghost predicate Distinct(cs: seq<Callback>) {
    forall i, j | 0 <= i < j < |cs| :: cs[i] != cs[j]
  }

  /** The nodes are linked from the first to the last, none of them twice. */
  ghost predicate Chain(head: Callback?, tail: Callback?, cs: seq<Callback>)
    reads cs
  {
    && Distinct(cs) && (forall i {:trigger LinkAt(cs, i)} :: LinkAt(cs, i))
    && head == (if cs == [] then null else cs[0]) && tail == (if cs == [] then null else cs[|cs| - 1])
  }

  ghost predicate Joined(cs: seq<Callback>, i: int)
    reads cs
  {
    0 <= i < |cs| - 1 ==> cs[i].next == cs[i + 1]
  }

  ghost predicate AllJoined(cs: seq<Callback>)
    reads cs
  {
    forall i {:trigger Joined(cs, i)} :: Joined(cs, i)
  }

  ghost predicate LinkedFrom(cs: seq<Callback>, k: nat)
    reads cs
  {
    forall i {:trigger LinkAt(cs, i)} | k <= i :: LinkAt(cs, i)
  }

  /** `kept` is made of the nodes at `idx`, which are some of the first `k`, in their order. */
  ghost predicate AmongFirst(kept: seq<Callback>, all: seq<Callback>, k: nat, idx: seq<nat>) {
    && k <= |all| && |idx| == |kept| && (forall i | 0 <= i < |idx| :: idx[i] < k && kept[i] == all[idx[i]])
    && (forall i, j | 0 <= i < j < |idx| :: idx[i] < idx[j])
  }

  lemma DistinctKept(kept: seq<Callback>, all: seq<Callback>, k: nat, idx: seq<nat>)
    requires AmongFirst(kept, all, k, idx) && Distinct(all)
    ensures Distinct(kept) && (forall c | c in kept :: c in all) && forall i, j | 0 <= i < |kept| && k <= j < |all| ::
            kept[i] != all[j]
  {
  }

  lemma Begin(all: seq<Callback>)
    requires forall i {:trigger LinkAt(all, i)} :: LinkAt(all, i)
    ensures LinkedFrom(all, 0) && AllJoined([])
  {
  }

  lemma LinkNow(all: seq<Callback>, k: nat)
    requires LinkedFrom(all, k) && k < |all|
    ensures all[k].next == (if k + 1 < |all| then all[k + 1] else null) && LinkedFrom(all, k + 1)
  {
    assert LinkAt(all, k);
  }

  lemma TailChain(cs: seq<Callback>)
    requires cs != [] && Distinct(cs) && forall i {:trigger LinkAt(cs, i)} :: LinkAt(cs, i)
    ensures Distinct(cs[1..]) && (forall i {:trigger LinkAt(cs[1..], i)} :: LinkAt(cs[1..], i))
    ensures cs[0].next == if |cs| > 1 then cs[1] else null
  {
    assert LinkAt(cs, 0);
    forall i ensures LinkAt(cs[1..], i) {
      assert LinkAt(cs, i + 1);
    }
  }

  lemma Regrouped(d: seq<Task>, t: Task, q: seq<Task>)
    ensures d + [] + ([t] + q) == d + [t] + q && ([t] + q)[1..] == q
  {
  }

  lemma TailTasks(cs: seq<Callback>)
    requires cs != []
    ensures TasksOf(cs) == [cs[0].task] + TasksOf(cs[1..])
  {
  }

  lemma DistinctEnds(cs: seq<Callback>)
    requires Distinct(cs)
    ensures forall i | 0 <= i < |cs| - 1 :: cs[i] != cs[|cs| - 1]
  {
  }

  lemma TailKept(tail: Callback?, kept: seq<Callback>, all: seq<Callback>, k: nat, idx: seq<nat>)
    requires AmongFirst(kept, all, k, idx) && tail == if kept == [] then null else kept[|kept| - 1]
    ensures tail != null ==> tail in all
  {
  }

  lemma OneMore(kept: seq<Callback>, all: seq<Callback>, k: nat, idx: seq<nat>)
    requires AmongFirst(kept, all, k, idx) && k < |all|
    ensures AmongFirst(kept + [all[k]], all, k + 1, idx + [k]) && AmongFirst(kept, all, k + 1, idx)
  {
  }

  /** The tasks kept of the first `k` nodes, with what will be kept of the rest, are what is to be kept of all. */
  ghost predicate Sifted(ctx: int, kept: seq<Callback>, all: seq<Callback>, k: nat)
    requires k <= |all|
  {
    TasksOf(kept) + Without(ctx, TasksOf(all[k..])) == Without(ctx, TasksOf(all))
  }

  lemma SiftedMore(ctx: int, kept: seq<Callback>, all: seq<Callback>, k: nat)
    requires k < |all| && Sifted(ctx, kept, all, k)
    ensures Sifted(ctx, if IsFor(ctx, all[k].task) then kept else kept + [all[k]], all, k + 1)
  {
    hide TasksOf, Without, IsFor;
    var t, rest := all[k].task, Without(ctx, TasksOf(all[k + 1..]));
    assert all[k..][1..] == all[k + 1..] && all[k..][0] == all[k];
    TailTasks(all[k..]);
    WithoutCons(ctx, t, TasksOf(all[k + 1..]));
    TasksAppend(kept, all[k]);
    assert TasksOf(kept) + ([t] + rest) == TasksOf(kept) + [t] + rest && [] + rest == rest;
  }

  lemma WithoutCons(ctx: int, t: Task, s: seq<Task>)
    ensures Without(ctx, [t] + s) == (if IsFor(ctx, t) then [] else [t]) + Without(ctx, s)
  {
    assert ([t] + s)[1..] == s;
  }

  lemma SiftedEnds(ctx: int, kept: seq<Callback>, all: seq<Callback>)
    ensures Sifted(ctx, [], all, 0) && AmongFirst([], all, 0, [])
    ensures Sifted(ctx, kept, all, |all|) ==> TasksOf(kept) == Without(ctx, TasksOf(all))
  {
    assert all[0..] == all && all[|all|..] == [];
  }

  lemma {:induction false} TimesIn(ts: seq<Task>, ic: IdempotentCallback)
    ensures Times(ts, ic) > 0 <==> Idempotent(ic) in ts
  {
    if ts != [] {
      TimesIn(ts[1..], ic);
    }
  }

  lemma {:induction false} WithoutIn(ctx: int, ts: seq<Task>)
    ensures forall t | t in Without(ctx, ts) :: t in ts && !IsFor(ctx, t)
  {
    if ts != [] {
      WithoutIn(ctx, ts[1..]);
    }
  }

  /** A callback set: the callback that runs, and the queue from its head to its tail. */
  class CallbackSet {
    var cbcurr: Callback?
    var cbhead: Callback?
    var cbtail: Callback?

    ghost var nodes: seq<Callback>

    /** Everything ever asked for, and what has been run of it. */
    ghost var history: seq<Entry>
    ghost var done: seq<Task>

    /** The idempotent callbacks that belong to this set. */
    ghost var members: set<IdempotentCallback>

    ghost function Queue(): seq<Task>
      reads this`nodes
    {
      TasksOf(nodes)
    }

    ghost function Current(): seq<Task>
      reads this`cbcurr
    {
      if cbcurr == null then [] else [cbcurr.task]
    }

    ghost function Flagged(): set<IdempotentCallback>
      reads this`members, members
    {
      set ic | ic in members && ic.queued
    }

    /** What has run, what runs and what waits make up what was asked for and not deleted, in that order. */
    ghost predicate InOrder()
      reads this
    {
      Surviving(history) == done + Current() + Queue()
    }

    /** Those of them that were deleted from the queue at some time. */
    ghost function Dropped(): set<IdempotentCallback>
      reads this`history, this`members
    {
      DroppedIn(history, members)
    }

    ghost predicate FlagsOk()
      reads this, members
    {
      FlagsAgree(Queue(), members, Flagged(), Dropped())
    }

    ghost predicate Valid()
      reads this, nodes, members
    {
      Chain(cbhead, cbtail, nodes) && InOrder() && FlagsOk()
    }

    constructor (ics: set<IdempotentCallback>)
      requires forall ic | ic in ics :: !ic.queued
      ensures Valid() && Queue() == [] && Current() == [] && history == [] && done == [] && members == ics
              && fresh(this) && nodes == []
    {
      cbcurr, cbhead, cbtail := null, null, null;
      nodes, history, done, members := [], [], [], ics;
    }

    lemma Recorded(t: Task, before: seq<Callback>)
      requires Surviving(history) == done + Current() + TasksOf(before) && Queue() == TasksOf(before) + [t]
      ensures Surviving(history + [Entry(t, false)]) == done + Current() + Queue()
    {
      SurvivingAppend(history, t);
    }

    /** `queue_toplevel_callback` for any task; flags are left to the caller. */
    method Append(t: Task)
      requires Chain(cbhead, cbtail, nodes) && InOrder()
      modifies this`cbhead, this`cbtail, this`nodes, this`history, nodes
      ensures Chain(cbhead, cbtail, nodes) && InOrder()
              && (forall i | 0 <= i < |nodes| :: nodes[i] in old(nodes) || fresh(nodes[i]))
      ensures Queue() == old(Queue()) + [t] && history == old(history) + [Entry(t, false)]
    {
      hide Surviving, TasksOf;
      var cb := new Callback(t);
      ghost var old_nodes := nodes;
      if cbtail != null {
        cbtail.next := cb;
      } else {
        cbhead := cb;
      }
      cbtail := cb;
      cb.next := null;
      nodes := nodes + [cb];
      forall i ensures LinkAt(nodes, i) {
        assert old(LinkAt(old_nodes, i));
      }
      TasksAppend(old_nodes, cb);
      Recorded(t, old_nodes);
      history := history + [Entry(t, false)];
    }

    /** `queue_toplevel_callback`. */
    method QueueCallback(fn: int, ctx: int)
      requires Valid()
      modifies this`cbhead, this`cbtail, this`nodes, this`history, nodes
      ensures Valid() && (forall i | 0 <= i < |nodes| :: nodes[i] in old(nodes) || fresh(nodes[i]))
      ensures Queue() == old(Queue()) + [Plain(fn, ctx)] && history == old(history) + [Entry(Plain(fn, ctx), false)]
    {
      hide Chain, InOrder, Queue, FlagsAgree;
      PlainAdded(Queue(), members, Flagged(), Dropped(), fn, ctx);
      DroppedAppend(history, members, Plain(fn, ctx));
      Append(Plain(fn, ctx));
    }

    /** `queue_idempotent_callback`. */
    method QueueIdempotent(ic: IdempotentCallback)
      requires Valid() && ic in members
      modifies this`cbhead, this`cbtail, this`nodes, this`history, nodes, ic`queued
      ensures Valid() && (forall i | 0 <= i < |nodes| :: nodes[i] in old(nodes) || fresh(nodes[i]))
              && Flagged() == old(Flagged()) + {ic}
      ensures if old(ic.queued) then Queue() == old(Queue()) && history == old(history)
              else
                Queue() == old(Queue()) + [Idempotent(ic)]
                && history == old(history) + [Entry(Idempotent(ic), false)]
    {
      hide Chain, InOrder, Queue, FlagsAgree;
      if ic.queued {
        return;
      }
      OnceAdded(Queue(), members, Flagged(), Dropped(), ic);
      DroppedAppend(history, members, Idempotent(ic));
      ic.queued := true;
      Append(Idempotent(ic));
      assert Flagged() == old(Flagged()) + {ic};
    }

    /** `delete_callbacks_for_context`: the list is taken apart from its head and the callbacks that stay are linked
        anew, in the same order. */
    method DeleteFor(ctx: int)
      requires Valid()
      modifies this`cbhead, this`cbtail, this`nodes, this`history, nodes
      ensures Valid() && (forall i | 0 <= i < |nodes| :: nodes[i] in old(nodes))
      ensures Queue() == Without(ctx, old(Queue())) && history == Struck(old(history), |done| + |Current()|, ctx)
      ensures Dropped() == old(Dropped()) + Hit(old(Queue()), members, ctx)
    {
      hide Chain, FlagsAgree, Hit, Without, Struck, Surviving, Queue, Current, Flagged, DroppedIn;
      ghost var Q, n := Queue(), |done| + |Current()|;
      Deleted(Q, members, Flagged(), Dropped(), ctx);
      StruckOrder(history, done, Current(), Q, ctx);
      DroppedStruck(history, done, Current(), Q, ctx, members);
      Filter(ctx);
      history := Struck(history, n, ctx);
    }

    /** A node that stays is linked behind the last one that stayed. */
    static method Hook(newtail: Callback?, cb: Callback, ghost kept: seq<Callback>, ghost all: seq<Callback>,
                       ghost k: nat, ghost idx: seq<nat>)
      requires k < |all| && cb == all[k] && Distinct(all) && LinkedFrom(all, k + 1) && AllJoined(kept)
               && AmongFirst(kept, all, k, idx)
      requires newtail == if kept == [] then null else kept[|kept| - 1]
      modifies if newtail == null then {} else {newtail}
      ensures LinkedFrom(all, k + 1) && AllJoined(kept + [cb])
    {
      DistinctKept(kept, all, k, idx);
      hide AmongFirst;
      if newtail != null {
        newtail.next := cb;
      }
      forall i ensures Joined(kept + [cb], i) {
        assert old(Joined(kept, i));
      }
      forall i | k + 1 <= i ensures LinkAt(all, i) {
        assert old(LinkAt(all, i));
      }
    }

    /** How far the loop of `delete_callbacks` has come: `kept` is linked, from `newhead` to `newtail`, and the nodes
        from the `k`th on are still as they were. */
    static ghost predicate Sifting(ctx: int, newhead: Callback?, newtail: Callback?, kept: seq<Callback>,
                                   all: seq<Callback>, k: nat, idx: seq<nat>)
      requires k <= |all|
      reads kept, all
    {
      && LinkedFrom(all, k) && Distinct(all) && AllJoined(kept) && AmongFirst(kept, all, k, idx)
      && Sifted(ctx, kept, all, k)
      && newhead == (if kept == [] then null else kept[0]) && newtail == (if kept == [] then null else kept[|kept| - 1])
    }

    /** One turn of it. */
    static method SiftOne(ctx: int, cb: Callback, newhead: Callback?, newtail: Callback?, ghost kept: seq<Callback>,
                          ghost all: seq<Callback>,
                          ghost k: nat, ghost idx: seq<nat>)
      returns (newhead': Callback?, newtail': Callback?, ghost kept': seq<Callback>, ghost idx': seq<nat>)
      requires k < |all| && cb == all[k] && Sifting(ctx, newhead, newtail, kept, all, k, idx)
      modifies all
      ensures Sifting(ctx, newhead', newtail', kept', all, k + 1, idx')
    {
      hide Sifted, Distinct, IsFor, AmongFirst, AllJoined, LinkedFrom;
      newhead', newtail', kept', idx' := newhead, newtail, kept, idx;
      LinkNow(all, k);
      SiftedMore(ctx, kept, all, k);
      OneMore(kept, all, k, idx);
      if !IsFor(ctx, cb.task) {
        TailKept(newtail, kept, all, k, idx);
        Hook(newtail, cb, kept, all, k, idx);
        if newhead == null {
          newhead' := cb;
        }
        newtail' := cb;
        kept', idx' := kept + [cb], idx + [k];
      }
    }

    /** The loop of `delete_callbacks`. */
    method Sift(ctx: int) returns (newhead: Callback?, newtail: Callback?, ghost kept: seq<Callback>)
      requires Chain(cbhead, cbtail, nodes)
      modifies this`cbhead, nodes
      ensures AllJoined(kept) && Distinct(kept) && (forall c | c in kept :: c in nodes)
              && TasksOf(kept) == Without(ctx, Queue())
      ensures newhead == (if kept == [] then null else kept[0])
              && newtail == (if kept == [] then null else kept[|kept| - 1])
    {
      hide Sifting, TasksOf, Without, Distinct, AllJoined, LinkAt;
      newhead, newtail := null, null;
      ghost var all: seq<Callback>, k: nat, idx: seq<nat> := nodes, 0, [];
      kept := [];
      Started(ctx, all);
      while cbhead != null
        invariant 0 <= k <= |all| && nodes == all && cbhead == (if k < |all| then all[k] else null)
        invariant Sifting(ctx, newhead, newtail, kept, all, k, idx)
        decreases |all| - k
      {
        var cb: Callback := cbhead;
        NextOf(ctx, newhead, newtail, kept, all, k, idx);
        cbhead := cbhead.next;
        newhead, newtail, kept, idx := SiftOne(ctx, cb, newhead, newtail, kept, all, k, idx);
        k := k + 1;
      }
      SiftEnd(ctx, newhead, newtail, kept, all, idx);
    }

    static lemma Started(ctx: int, all: seq<Callback>)
      requires Distinct(all) && forall i {:trigger LinkAt(all, i)} :: LinkAt(all, i)
      ensures Sifting(ctx, null, null, [], all, 0, [])
    {
      hide Distinct, Sifted;
      Begin(all);
      SiftedEnds(ctx, [], all);
    }

    static lemma NextOf(ctx: int, newhead: Callback?, newtail: Callback?, kept: seq<Callback>, all: seq<Callback>,
                        k: nat, idx: seq<nat>)
      requires k < |all| && Sifting(ctx, newhead, newtail, kept, all, k, idx)
      ensures all[k].next == if k + 1 < |all| then all[k + 1] else null
    {
      LinkNow(all, k);
    }

    static lemma SiftEnd(ctx: int, newhead: Callback?, newtail: Callback?, kept: seq<Callback>, all: seq<Callback>,
                         idx: seq<nat>)
      requires Sifting(ctx, newhead, newtail, kept, all, |all|, idx)
      ensures AllJoined(kept) && Distinct(kept) && (forall c | c in kept :: c in all)
              && TasksOf(kept) == Without(ctx, TasksOf(all))
      ensures newhead == (if kept == [] then null else kept[0])
              && newtail == (if kept == [] then null else kept[|kept| - 1])
    {
      SiftedEnds(ctx, kept, all);
      DistinctKept(kept, all, |all|, idx);
    }

    /** `delete_callbacks`. */
    method Filter(ctx: int)
      requires Chain(cbhead, cbtail, nodes)
      modifies this`cbhead, this`cbtail, this`nodes, nodes
      ensures Chain(cbhead, cbtail, nodes) && Queue() == Without(ctx, old(Queue())) && forall i | 0 <= i < |nodes| ::
              nodes[i] in old(nodes)
    {
      hide TasksOf, Without, Distinct, IsFor;
      var newhead, newtail;
      ghost var kept;
      newhead, newtail, kept := Sift(ctx);
      label L:
      cbhead, cbtail := newhead, newtail;
      if newtail != null {
        assert newtail in kept;
        newtail.next := null;
      }
      DistinctEnds(kept);
      nodes := kept;
      forall i ensures LinkAt(kept, i) {
        assert old@L(Joined(kept, i));
      }
    }

    lemma FlagIs(ic: IdempotentCallback)
      requires ic in members
      ensures ic in Flagged() <==> ic.queued
    {
    }

    /** One thing that a callback does with the queue. */
    method PerformOne(a: Action)
      requires Valid() && (a.EnqueueOnce? ==> a.ic in members)
      modifies this`cbhead, this`cbtail, this`nodes, this`history, nodes, members
      ensures Valid() && (forall i | 0 <= i < |nodes| :: nodes[i] in old(nodes) || fresh(nodes[i]))
      ensures !a.DeleteFor? ==>
              Queue() == old(Queue()) + Adds1(a, old(Flagged())) && Flagged() == FlagsAfter(a, old(Flagged()))
      ensures old(Dropped()) <= Dropped()
      ensures !a.DeleteFor? ==> Dropped() == old(Dropped()) && (NoneDeleted(old(history)) ==> NoneDeleted(history))
    {
      hide Valid, Queue, Flagged, DroppedIn;
      match a {
        case Enqueue(fn, ctx) =>
          DroppedAppend(history, members, Plain(fn, ctx));
          QueueCallback(fn, ctx);
        case EnqueueOnce(ic) =>
          FlagIs(ic);
          DroppedAppend(history, members, Idempotent(ic));
          QueueIdempotent(ic);
        case DeleteFor(ctx) => DeleteFor(ctx);
      }
    }

    /** What a callback does with the queue, in order. */
    method Perform(acts: seq<Action>)
      requires Valid() && forall a | a in acts && a.EnqueueOnce? :: a.ic in members
      modifies this`cbhead, this`cbtail, this`nodes, this`history, nodes, members
      ensures Valid() && (forall i | 0 <= i < |nodes| :: nodes[i] in old(nodes) || fresh(nodes[i]))
      ensures old(Dropped()) <= Dropped()
      ensures NoDeletions(acts) ==> Queue() == old(Queue()) + Adds(acts, old(Flagged())) && Dropped() == old(Dropped())
      ensures NoDeletions(acts) && NoneDeleted(old(history)) ==> NoneDeleted(history)
    {
      hide Valid, Queue, Adds, Adds1, FlagsAfter, Flagged, NoneDeleted, DroppedIn;
      AddsEnds(acts, Flagged());
      ghost var q := [];
      for i := 0 to |acts|
        invariant Valid() && (forall i | 0 <= i < |nodes| :: nodes[i] in old(nodes) || fresh(nodes[i]))
        invariant old(Dropped()) <= Dropped()
        invariant NoDeletions(acts) ==>
                  Dropped() == old(Dropped()) && Queue() == old(Queue()) + q && q + Adds(acts[i..], Flagged())
                  == Adds(acts, old(Flagged()))
        invariant NoDeletions(acts) && NoneDeleted(old(history)) ==> NoneDeleted(history)
      {
        AddsUnfold(acts, i, Flagged());
        assert acts[i] in acts;
        ghost var more := Adds1(acts[i], Flagged());
        PerformOne(acts[i]);
        q := q + more;
      }
      AddsEnds(acts, Flagged());
    }

    /** The head of the queue becomes the current callback. */
    method TakeHead()
      requires Chain(cbhead, cbtail, nodes) && InOrder() && cbcurr == null && nodes != []
      modifies this`cbcurr, this`cbhead, this`cbtail, this`nodes
      ensures Chain(cbhead, cbtail, nodes) && InOrder() && nodes == old(nodes)[1..]
      ensures cbcurr != null && cbcurr.task == old(Queue())[0] && Queue() == old(Queue())[1..]
    {
      hide Surviving, TasksOf, Distinct;
      ghost var all := nodes;
      TailTasks(all);
      Regrouped(done, all[0].task, TasksOf(all[1..]));
      TailChain(all);
      cbcurr := cbhead;
      cbhead := cbhead.next;
      if cbhead == null {
        cbtail := null;
      }
      nodes := nodes[1..];
    }

    /** The same, with the flag of an idempotent callback cleared. */
    method StartHead()
      requires Valid() && cbcurr == null && nodes != []
      modifies this`cbcurr, this`cbhead, this`cbtail, this`nodes, members
      ensures Valid() && cbcurr != null && Current() == [old(Queue())[0]] && Queue() == old(Queue())[1..]
              && nodes == old(nodes)[1..]
      ensures Flagged() == Cleared(old(Flagged()), old(Queue())[0])
    {
      hide FlagsAgree, Surviving, TasksOf, Chain, DroppedIn;
      Popped(Queue(), members, Flagged(), Dropped());
      TakeHead();
      if cbcurr.task.Idempotent? {
        cbcurr.task.ic.queued := false;
      }
      assert Flagged() == Cleared(old(Flagged()), cbcurr.task);
    }

    /** `run_toplevel_callbacks`: the callback at the head runs, and `acts` is what it does with the queue.  A request
        for an idempotent callback that is made while it runs is not lost. */
    method RunOne(acts: seq<Action>) returns (ran: bool)
      requires Valid() && cbcurr == null && forall a | a in acts && a.EnqueueOnce? :: a.ic in members
      modifies this`cbcurr, this`cbhead, this`cbtail, this`nodes, this`history, this`done, nodes, members
      ensures Valid() && cbcurr == null && (forall i | 0 <= i < |nodes| :: nodes[i] in old(nodes) || fresh(nodes[i]))
      ensures ran <==> old(Queue()) != []
      ensures done == if ran then old(done) + [old(Queue())[0]] else old(done)
      ensures !ran ==> Queue() == old(Queue()) && history == old(history)
      ensures old(Dropped()) <= Dropped() && (NoDeletions(acts) ==> Dropped() == old(Dropped()))
      ensures forall ic | ic in old(Dropped()) :: Times(done, ic) == old(Times(done, ic))
      ensures ran && NoDeletions(acts) ==>
              Queue() == old(Queue())[1..] + Adds(acts, Cleared(old(Flagged()), old(Queue())[0]))
      ensures ran && NoDeletions(acts) && old(Queue())[0].Idempotent? && EnqueueOnce(old(Queue())[0].ic) in acts
              ==> old(Queue())[0] in Queue()
      ensures NoDeletions(acts) && NoneDeleted(old(history)) ==> NoneDeleted(history)
    {
      hide Valid, Flagged, Adds, DroppedIn, Queue, Times, NoneDeleted;
      EmptyIff();
      ran := false;
      if cbhead != null {
        ghost var first := Queue()[0];
        NotDroppedRuns(first);
        StartHead();
        ghost var flagged := Flagged();
        Perform(acts);
        if first.Idempotent? && EnqueueOnce(first.ic) in acts {
          RequestKept(acts, flagged, first.ic);
        }
        FinishHead();
        ran := true;
      }
    }

    lemma EmptyIff()
      requires Valid()
      ensures cbhead == null <==> Queue() == []
      ensures cbhead == null <==> nodes == []
    {
      hide Distinct, FlagsAgree, Surviving;
    }

    /** The current callback is done with. */
    method FinishHead()
      requires Valid() && cbcurr != null
      modifies this`cbcurr, this`done
      ensures Valid() && cbcurr == null && done == old(done) + old(Current())
    {
      hide Chain, FlagsAgree, Surviving, TasksOf;
      assert done + Current() + Queue() == (done + Current()) + [] + Queue();
      done := done + Current();
      cbcurr := null;
    }

    /** `toplevel_callback_pending`. */
    method IsPending() returns (b: bool)
      requires Valid()
      ensures b <==> Current() + Queue() != []
    {
      hide Distinct, LinkAt, FlagsAgree, Surviving;
      b := cbcurr != null || cbhead != null;
    }

    /** `is_idempotent_callback_pending`: tells only whether the callback is the very next one. */
    method IsNext(ic: IdempotentCallback) returns (b: bool)
      requires Valid()
      ensures b <==> Queue() != [] && Queue()[0] == Idempotent(ic)
    {
      hide Distinct, LinkAt, FlagsAgree, Surviving;
      b := cbhead != null && cbhead.task == Idempotent(ic);
    }

    /** A callback is in the queue at most once, and exactly if it is flagged and no deletion ever took it out: what a
        deletion takes out stays flagged for good and is not queued any more. */
    lemma QueuedOnce(ic: IdempotentCallback)
      requires Valid() && ic in members
      ensures Times(Queue(), ic) <= 1
      ensures Idempotent(ic) in Queue() <==> ic.queued && Entry(Idempotent(ic), true) !in history
      ensures Entry(Idempotent(ic), true) in history ==> ic.queued
    {
      hide Chain, Surviving, TasksOf;
      TimesIn(Queue(), ic);
      FlagIs(ic);
      assert ic in Dropped() <==> Entry(Idempotent(ic), true) in history;
    }

    lemma NotDroppedRuns(t: Task)
      requires Valid() && t in Queue()
      ensures forall ic | ic in Dropped() :: Times(done + [t], ic) == Times(done, ic)
    {
      hide Chain, Surviving, TasksOf;
      forall ic | ic in Dropped() ensures Times(done + [t], ic) == Times(done, ic) {
        QueuedOnce(ic);
        TimesAppend(done, [t], ic);
        assert Times([t], ic) == (if t == Idempotent(ic) then 1 else 0) + Times([], ic);
      }
    }

    /** Without deletions, what has run, what runs and what waits is everything that was asked for, in that order. */
    lemma NothingLost()
      requires Valid() && NoneDeleted(history)
      ensures Requests(history) == done + Current() + Queue()
    {
      hide Chain, FlagsAgree, TasksOf;
      AllSurvive(history);
    }

    /** The event loop: requests from outside, and turns in which the next callback runs.  A callback that was deleted
        from the queue does not run in any of them. */
    method Drive(events: seq<Event>)
      requires Valid() && cbcurr == null && forall e, a | e in events && a in e.acts && a.EnqueueOnce? ::
               a.ic in members
      modifies this`cbcurr, this`cbhead, this`cbtail, this`nodes, this`history, this`done, nodes, members
      ensures Valid() && cbcurr == null && old(done) <= done
      ensures old(Dropped()) <= Dropped() && forall ic | ic in old(Dropped()) :: Times(done, ic) == old(Times(done, ic))
      ensures (forall e | e in events :: NoDeletions(e.acts)) && NoneDeleted(old(history)) ==>
              NoneDeleted(history) && Requests(history) == done + Queue()
    {
      hide Valid, Queue, DroppedIn;
      ghost var done0, dropped0 := done, Dropped();
      for i := 0 to |events|
        invariant dropped0 <= Dropped() && forall ic | ic in dropped0 :: Times(done, ic) == Times(done0, ic)
        invariant Valid() && cbcurr == null && old(done) <= done
                  && (forall i | 0 <= i < |nodes| :: nodes[i] in old(nodes) || fresh(nodes[i]))
        invariant (forall e | e in events :: NoDeletions(e.acts)) && NoneDeleted(old(history)) ==> NoneDeleted(history)
      {
        var e := events[i];
        assert e in events;
        if e.Turn? {
          var ran := RunOne(e.acts);
        } else {
          Perform(e.acts);
        }
      }
      if NoneDeleted(history) {
        NothingLost();
        assert done + [] + Queue() == done + Queue();
      }
    }
  }
}
