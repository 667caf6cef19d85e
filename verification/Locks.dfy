/** The plain spin lock, and the initialisation of the parameters that it guards, under every interleaving of the atomic
    steps of any number of threads. */
module Locks {

  /** Where a thread stands: on its way through `ensure_initialization`, and then round and round through `_malloc`.
      `Try` is the first compare-and-swap of an acquisition; if that fails the thread spins, watching the word (`Watch`)
      until it is 0 and trying again (`Retry`). */
  datatype Place =
    | Start
    | Try | Watch | Retry
    | Check | Init(k: nat) | Release
    | Ready
    | HeapTry | HeapWatch | HeapRetry
    | Inside

  /** What the body of `_init` writes, in this order; after that it sets `_magic`. */
  datatype Param = Granularity | PageSize | MmapThreshold | TrimThreshold | DefaultFlags | HeapFlags | HeapMutex

  const PARAMS: seq<Param> := [Granularity, PageSize, MmapThreshold, TrimThreshold, DefaultFlags, HeapFlags, HeapMutex]

  /** The shared words: the global mutex, `_magic`, the mutex of the heap; and beside them which parameters have been
      written and how often the body of `_init` was entered. */
  datatype Shared = Shared(lock: bool, magic: bool, heapLock: bool, written: seq<Param>, bodies: nat)

  type Places = m: imap<nat, Place> | forall t: nat :: t in m
    ghost witness imap t: nat | true :: Start

  datatype State = State(at: Places, sh: Shared)

  /** Nothing has happened; what the memory of the heap mutex holds does not matter. */
  ghost predicate Initial(s: State) {
    (forall t: nat :: s.at[t] == Start) && !s.sh.lock && !s.sh.magic && s.sh.written == [] && s.sh.bodies == 0
  }

  /** One atomic step of a thread at `p`: where it gets, and what it writes. */
  function Step(p: Place, sh: Shared): (Place, Shared) {
    var taken := Shared(true, sh.magic, sh.heapLock, sh.written, sh.bodies);
    var entered := Shared(sh.lock, sh.magic, true, sh.written, sh.bodies);
    match p
    case Start => (if sh.magic then Ready else Try, sh)
    case Try => if sh.lock then (Watch, sh) else (Check, taken)
    case Watch => (if sh.lock then Watch else Retry, sh)
    case Retry => if sh.lock then (Watch, sh) else (Check, taken)
    case Check => if sh.magic then
        (Release, sh) else (Init(0), Shared(sh.lock, sh.magic, sh.heapLock, sh.written, sh.bodies + 1))
    case Init(k) =>
      if k >= |PARAMS| then (Release, Shared(sh.lock, true, sh.heapLock, sh.written, sh.bodies))
      else (Init(k + 1), Shared(sh.lock, sh.magic, sh.heapLock && PARAMS[k] != HeapMutex, sh.written + [PARAMS[k]],
                                sh.bodies))
    case Release => (Ready, Shared(false, sh.magic, sh.heapLock, sh.written, sh.bodies))
    case Ready => (HeapTry, sh)
    case HeapTry => if sh.heapLock then (HeapWatch, sh) else (Inside, entered)
    case HeapWatch => (if sh.heapLock then HeapWatch else HeapRetry, sh)
    case HeapRetry => if sh.heapLock then (HeapWatch, sh) else (Inside, entered)
    case Inside => (Ready, Shared(sh.lock, sh.magic, false, sh.written, sh.bodies))
  }

  ghost function Next(s: State, t: nat): State {
    var (p, sh) := Step(s.at[t], s.sh);
    State(s.at[t := p], sh)
  }

  /** The state after the steps of a schedule, which names the thread that moves each time. */
  ghost function Run(s: State, schedule: seq<nat>): State
    decreases |schedule|
  {
    if schedule == [] then s else Next(Run(s, schedule[..|schedule| - 1]), schedule[|schedule| - 1])
  }

  // ----- single steps

  /** The thread holds the global mutex. */
  predicate Holds(p: Place) {
    p.Check? || p.Init? || p.Release?
  }

  /** The thread has left `ensure_initialization`. */
  predicate Past(p: Place) {
    p.Ready? || p.HeapTry? || p.HeapWatch? || p.HeapRetry? || p.Inside?
  }

  /** How a step changes who holds the global mutex. */
  lemma StepLock(p: Place, sh: Shared)
    ensures var (p', sh') := Step(p, sh);
            && (!Holds(p) && Holds(p') ==> !sh.lock && sh'.lock) && (Holds(p) && !Holds(p') ==> !sh'.lock)
            && (Holds(p) == Holds(p') ==> sh'.lock == sh.lock)
  {
  }

  lemma StepHeapLock(p: Place, sh: Shared)
    ensures var (p', sh') := Step(p, sh);
            && (!p.Inside? && p'.Inside? ==> !sh.heapLock && sh'.heapLock)
            && (p.Inside? && !p'.Inside? ==> !sh'.heapLock)
            && (p.Inside? == p'.Inside? && !p.Init? ==> sh'.heapLock == sh.heapLock)
            && (p.Init? ==> sh'.heapLock ==> sh.heapLock)
  {
  }

  /** How far initialisation is, as a thread at `p` sees it. */
  ghost predicate InitAt(p: Place, sh: Shared) {
    && (p.Init? ==>
       !sh.magic && sh.bodies == 1 && p.k <= |PARAMS| && sh.written == PARAMS[..p.k]
       && (p.k == |PARAMS| ==> !sh.heapLock))
    && (p.Release? || Past(p) ==> sh.magic)
  }

  ghost predicate Finished(sh: Shared) {
    sh.bodies == 1 && sh.written == PARAMS
  }

  /** A step of a thread that does not hold the global mutex leaves initialisation alone. */
  lemma StepOutside(p: Place, sh: Shared)
    requires !p.Check? && !p.Init?
    ensures var sh' := Step(p, sh).1;
            sh'.magic == sh.magic && sh'.written == sh.written && sh'.bodies == sh.bodies && !Step(p, sh).0.Init?
  {
  }

  /** The mover itself. */
  lemma StepInit(p: Place, sh: Shared)
    requires InitAt(p, sh) && (p.Check? && !sh.magic ==> sh.bodies == 0 && sh.written == [])
             && (sh.magic ==> Finished(sh))
    ensures var (p', sh') := Step(p, sh); InitAt(p', sh') && (sh'.magic ==> Finished(sh')) && (sh.magic ==> sh'.magic)
    ensures var (p', sh') := Step(p, sh); !sh'.magic && !p'.Init? ==>
            sh'.bodies == sh.bodies && sh'.written == sh.written && !p.Init?
    ensures var (p', sh') := Step(p, sh); sh'.magic && !sh.magic ==> !sh'.heapLock
  {
    if p.Init? && p.k < |PARAMS| {
      assert PARAMS[..p.k] + [PARAMS[p.k]] == PARAMS[..p.k + 1];
    } else if p.Init? {
      assert PARAMS[..|PARAMS|] == PARAMS;
    }
  }

  // ----- what holds in every state

  ghost predicate OneHolder(s: State) {
    && (forall t: nat {:trigger s.at[t]} :: Holds(s.at[t]) ==> s.sh.lock)
    && (forall t: nat, u: nat :: Holds(s.at[t]) && Holds(s.at[u]) ==> t == u)
    && (s.sh.lock ==> exists t: nat :: Holds(s.at[t]))
  }

  ghost predicate OneInside(s: State) {
    && (forall t: nat {:trigger s.at[t]} :: s.at[t].Inside? ==> s.sh.heapLock)
    && (forall t: nat, u: nat :: s.at[t].Inside? && s.at[u].Inside? ==> t == u)
    && (s.sh.magic && s.sh.heapLock ==> exists t: nat :: s.at[t].Inside?)
  }

  ghost predicate InitOk(s: State) {
    && (forall t: nat {:trigger InitAt(s.at[t], s.sh)} :: InitAt(s.at[t], s.sh))
    && (s.sh.magic ==> Finished(s.sh))
    && (!s.sh.magic && (forall t: nat :: !s.at[t].Init?) ==> s.sh.bodies == 0 && s.sh.written == [])
  }

  ghost predicate Inv(s: State) {
    OneHolder(s) && OneInside(s) && InitOk(s)
  }

  lemma InitialInv(s: State)
    requires Initial(s)
    ensures Inv(s)
  {
  }

  lemma NextOneHolder(s: State, t: nat)
    requires OneHolder(s)
    ensures OneHolder(Next(s, t))
  {
    var s' := Next(s, t);
    StepLock(s.at[t], s.sh);
    hide Step, Holds;
    assert forall u: nat {:trigger s'.at[u]} :: u != t ==> s'.at[u] == s.at[u];
    if s'.sh.lock && !Holds(s'.at[t]) {
      var u: nat :| Holds(s.at[u]);
      assert u != t && Holds(s'.at[u]);
    }
  }

  lemma NextOneInside(s: State, t: nat)
    requires OneInside(s) && InitOk(s) && (s.at[t].Check? && !s.sh.magic ==> s.sh.bodies == 0 && s.sh.written == [])
    ensures OneInside(Next(s, t))
  {
    var s' := Next(s, t);
    assert InitAt(s.at[t], s.sh);
    StepHeapLock(s.at[t], s.sh);
    StepInit(s.at[t], s.sh);
    assert forall u: nat {:trigger s'.at[u]} :: u != t ==> s'.at[u] == s.at[u];
    if s.at[t].Init? {
      forall u: nat ensures !s.at[u].Inside? {
        assert InitAt(s.at[u], s.sh);
      }
    }
    hide Step, Finished, PARAMS;
    if s'.sh.magic && s'.sh.heapLock && !s'.at[t].Inside? {
      var u: nat :| s.at[u].Inside?;
      assert u != t && s'.at[u].Inside?;
    }
  }

  /** A thread that has just acquired the global mutex and finds no initialisation done is the first to start it. */
  lemma NoBodyYet(s: State, t: nat)
    requires Inv(s) && s.at[t].Check? && !s.sh.magic
    ensures s.sh.bodies == 0 && s.sh.written == []
  {
    assert Holds(s.at[t]);
    assert forall u: nat :: s.at[u].Init? ==> Holds(s.at[u]);
  }

  lemma NextInitOk(s: State, t: nat)
    requires Inv(s) && (s.at[t].Check? && !s.sh.magic ==> s.sh.bodies == 0 && s.sh.written == [])
    ensures InitOk(Next(s, t))
  {
    var s' := Next(s, t);
    assert InitAt(s.at[t], s.sh);
    StepInit(s.at[t], s.sh);
    forall u: nat ensures InitAt(s'.at[u], s'.sh) {
      OthersInit(s, t, u);
    }
    if !s'.sh.magic && forall u: nat :: !s'.at[u].Init? {
      NoneStarted(s, t);
    }
  }

  lemma OthersInit(s: State, t: nat, u: nat)
    requires Inv(s) && InitAt(Step(s.at[t], s.sh).0, Step(s.at[t], s.sh).1)
             && (s.sh.magic ==> Step(s.at[t], s.sh).1.magic)
    ensures InitAt(Next(s, t).at[u], Next(s, t).sh)
  {
    assert InitAt(s.at[u], s.sh);
    if u != t && s.at[u].Init? {
      assert Holds(s.at[u]) && !Holds(s.at[t]);
      StepOutside(s.at[t], s.sh);
      StepHeapLock(s.at[t], s.sh);
      assert InitAt(s.at[t], s.sh);
    }
  }

  lemma NoneStarted(s: State, t: nat)
    requires Inv(s) && !Next(s, t).sh.magic && forall u: nat :: !Next(s, t).at[u].Init?
    ensures Next(s, t).sh.bodies == 0 && Next(s, t).sh.written == []
  {
    var s' := Next(s, t);
    assert InitAt(s.at[t], s.sh);
    assert !s'.at[t].Init?;
    assert forall u: nat {:trigger s.at[u]} :: u != t ==> s.at[u] == s'.at[u];
    assert !s.at[t].Check? && !s.at[t].Init?;
    StepOutside(s.at[t], s.sh);
  }

  lemma NextInv(s: State, t: nat)
    requires Inv(s)
    ensures Inv(Next(s, t))
  {
    hide Step, InitOk, OneInside, OneHolder, Next;
    if s.at[t].Check? && !s.sh.magic {
      NoBodyYet(s, t);
    }
    NextOneHolder(s, t);
    NextOneInside(s, t);
    NextInitOk(s, t);
  }

  /** Every schedule of any number of threads keeps the invariant. */
  lemma {:induction false} RunInv(s: State, schedule: seq<nat>)
    requires Initial(s)
    ensures Inv(Run(s, schedule))
    decreases |schedule|
  {
    if schedule == [] {
      InitialInv(s);
    } else {
      var before := schedule[..|schedule| - 1];
      RunInv(s, before);
      NextInv(Run(s, before), schedule[|schedule| - 1]);
    }
  }

  // ----- the results

  /** At most one thread holds the global mutex, and at most one the mutex of the heap. */
  lemma MutualExclusion(s: State, schedule: seq<nat>, t: nat, u: nat)
    requires Initial(s)
    ensures var r := Run(s, schedule);
            (Holds(r.at[t]) && Holds(r.at[u])) || (r.at[t].Inside? && r.at[u].Inside?) ==> t == u
  {
    RunInv(s, schedule);
  }

  /** The body of the initialisation is entered at most once, and whoever has left `ensure_initialization` finds it
      done: every parameter is written and the mutex of the heap set up, before it is ever acquired. */
  lemma InitialisedOnce(s: State, schedule: seq<nat>, t: nat)
    requires Initial(s)
    ensures var r := Run(s, schedule);
            r.sh.bodies <= 1 && (Past(r.at[t]) ==> r.sh.magic && r.sh.bodies == 1 && r.sh.written == PARAMS)
  {
    RunInv(s, schedule);
    var r := Run(s, schedule);
    assert InitAt(r.at[t], r.sh);
    if !r.sh.magic && exists u: nat :: r.at[u].Init? {
      var u: nat :| r.at[u].Init?;
      assert InitAt(r.at[u], r.sh);
    }
  }

  /** How many steps a thread needs to give the global mutex back. */
  function StepsLeft(p: Place): nat {
    match p
    case Check => |PARAMS| + 3
    case Init(k) => if k <= |PARAMS| then |PARAMS| - k + 2 else 2
    case Release => 1
    case _ => 0
  }

  lemma StepCloser(p: Place, sh: Shared)
    requires Holds(p)
    ensures var (p', sh') := Step(p, sh); StepsLeft(p') < StepsLeft(p) && (Holds(p') || !sh'.lock)
  {
  }

  lemma RunMore(s: State, a: seq<nat>, t: nat)
    ensures Run(s, a + [t]) == Next(Run(s, a), t)
  {
    assert (a + [t])[..|a|] == a;
  }

  /** A holder that is given turns lets the global mutex go. */
  lemma {:induction false} HolderLeaves(s: State, a: seq<nat>, t: nat) returns (b: seq<nat>)
    requires Holds(Run(s, a).at[t])
    ensures a <= b && |b| <= |a| + StepsLeft(Run(s, a).at[t]) && !Run(s, b).sh.lock
    ensures forall u: nat | u != t :: Run(s, b).at[u] == Run(s, a).at[u]
    decreases StepsLeft(Run(s, a).at[t])
  {
    hide Step, Run;
    var r := Run(s, a);
    StepCloser(r.at[t], r.sh);
    RunMore(s, a, t);
    if Holds(Run(s, a + [t]).at[t]) {
      b := HolderLeaves(s, a + [t], t);
    } else {
      b := a + [t];
    }
  }

  predicate Waits(p: Place) {
    p.Try? || p.Watch? || p.Retry?
  }

  lemma FreeStep(p: Place, sh: Shared)
    ensures !sh.lock && (p.Try? || p.Retry?) ==> Holds(Step(p, sh).0)
    ensures !sh.lock && p.Watch? ==> Step(p, sh) == (Retry, sh)
    ensures !sh.heapLock && (p.HeapTry? || p.HeapRetry?) ==> Step(p, sh).0.Inside?
    ensures !sh.heapLock && p.HeapWatch? ==> Step(p, sh) == (HeapRetry, sh)
    ensures p.Inside? ==> !Step(p, sh).1.heapLock
  {
  }

  lemma TakesFree(s: State, a: seq<nat>, u: nat) returns (b: seq<nat>)
    requires !Run(s, a).sh.lock && Waits(Run(s, a).at[u])
    ensures a <= b && Holds(Run(s, b).at[u])
  {
    hide Step, Run, Holds;
    var r := Run(s, a);
    FreeStep(r.at[u], r.sh);
    RunMore(s, a, u);
    b := a + [u];
    if r.at[u].Watch? {
      FreeStep(Retry, r.sh);
      RunMore(s, b, u);
      b := b + [u];
    }
  }

  /** No deadlock: from every state that can be reached, some schedule lets a waiting thread have the global mutex. */
  lemma WaiterCanGoOn(s: State, a: seq<nat>, u: nat) returns (b: seq<nat>)
    requires Initial(s) && Waits(Run(s, a).at[u])
    ensures a <= b && Holds(Run(s, b).at[u])
  {
    RunInv(s, a);
    hide Step, Run, OneInside, InitOk, StepsLeft;
    b := a;
    if Run(s, a).sh.lock {
      var t: nat :| Holds(Run(s, a).at[t]);
      b := HolderLeaves(s, a, t);
    }
    b := TakesFree(s, b, u);
  }

  predicate WaitsForHeap(p: Place) {
    p.HeapTry? || p.HeapWatch? || p.HeapRetry?
  }

  lemma TakesFreeHeap(s: State, a: seq<nat>, u: nat) returns (b: seq<nat>)
    requires !Run(s, a).sh.heapLock && WaitsForHeap(Run(s, a).at[u])
    ensures a <= b && Run(s, b).at[u].Inside?
  {
    hide Step, Run;
    var r := Run(s, a);
    FreeStep(r.at[u], r.sh);
    RunMore(s, a, u);
    b := a + [u];
    if r.at[u].HeapWatch? {
      FreeStep(HeapRetry, r.sh);
      RunMore(s, b, u);
      b := b + [u];
    }
  }

  /** The same for the mutex of the heap. */
  lemma HeapWaiterCanGoOn(s: State, a: seq<nat>, u: nat) returns (b: seq<nat>)
    requires Initial(s) && WaitsForHeap(Run(s, a).at[u])
    ensures a <= b && Run(s, b).at[u].Inside?
  {
    RunInv(s, a);
    hide Step, Run, OneHolder, PARAMS, Finished;
    b := a;
    assert InitAt(Run(s, a).at[u], Run(s, a).sh);
    if Run(s, a).sh.heapLock {
      var t: nat :| Run(s, a).at[t].Inside?;
      FreeStep(Run(s, a).at[t], Run(s, a).sh);
      RunMore(s, a, t);
      b := a + [t];
    }
    b := TakesFreeHeap(s, b, u);
  }
}
