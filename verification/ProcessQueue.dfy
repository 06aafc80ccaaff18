/** The process message queue: as the thread queue, but a spin lock guards the event count,
    a semaphore wakes the reader, and the reader tests the count outside the lock. */
module ProcessQueue {
  import opened Counting
  import opened Options
  import opened Threads

  datatype Pc =
    | Idle
    | PushLock(m: Msg) | PushEnQueue(m: Msg) | PushUnLock
    | ProduceLock | ProduceLoad | ProduceStore(r: nat) | ProduceUnLock | SemUp
    | ConsumeTest | SemWait | ConsumeLock | ConsumeLoad | ConsumeStore(r: nat) | ConsumeUnLock
    | PopLock | PopDeQueue | PopUnLock(m: Msg)

  /** As for the thread queue, and `sem` is the value of the semaphore. */
  datatype Shared = Shared(
    queue: seq<Msg>, queueLock: Option<Tid>, events: nat, eventLock: Option<Tid>, sem: nat,
    pushed: seq<Msg>, popped: seq<Msg>, called: seq<Msg>, asked: nat, returned: seq<Msg>, failed: bool)

  /** Only the threads in `readers` ever pop. */
  datatype State = State(pc: map<Tid, Pc>, readers: set<Tid>, sh: Shared)

  ghost predicate Init(s: State) {
    && (forall t <- s.pc :: s.pc[t] == Idle)
    && s.sh == Shared([], None, 0, None, 0, [], [], [], 0, [], false)
  }

  ghost predicate Act(t: Tid, reader: bool, p: Pc, a: Shared, q: Pc, b: Shared) {
    match p
    case Idle =>
      || (q.PushLock? && b == a.(called := a.called + [q.m]))
      || (q == ConsumeTest && reader && b == a.(asked := a.asked + 1))
    case PushLock(m) => a.queueLock == None && q == PushEnQueue(m) && b == a.(queueLock := Some(t))
    case PushEnQueue(m) => q == PushUnLock && b == a.(queue := a.queue + [m], pushed := a.pushed + [m])
    case PushUnLock => q == ProduceLock && b == a.(queueLock := None)
    case ProduceLock => a.eventLock == None && q == ProduceLoad && b == a.(eventLock := Some(t))
    case ProduceLoad => q == ProduceStore(a.events) && b == a
    case ProduceStore(n) => q == ProduceUnLock && b == a.(events := n + 1)
    case ProduceUnLock => q == SemUp && b == a.(eventLock := None)
    case SemUp => q == Idle && b == a.(sem := a.sem + 1)
    case ConsumeTest => q == (if a.events == 0 then SemWait else ConsumeLock) && b == a
    case SemWait => a.sem > 0 && q == ConsumeTest && b == a.(sem := a.sem - 1)
    case ConsumeLock => a.eventLock == None && q == ConsumeLoad && b == a.(eventLock := Some(t))
    case ConsumeLoad => q == ConsumeStore(a.events) && b == a
    case ConsumeStore(n) => q == ConsumeUnLock && b == if n == 0 then a.(failed := true) else a.(events := n - 1)
    case ConsumeUnLock => q == PopLock && b == a.(eventLock := None)
    case PopLock => a.queueLock == None && q == PopDeQueue && b == a.(queueLock := Some(t))
    case PopDeQueue =>
      && q.PopUnLock?
      && if a.queue == [] then b == a.(failed := true)
         else q.m == a.queue[0] && b == a.(queue := a.queue[1..], popped := a.popped + [a.queue[0]])
    case PopUnLock(m) => q == Idle && b == a.(queueLock := None, returned := a.returned + [m])
  }

  ghost predicate Step(s: State, r: State, t: Tid)
    requires t in s.pc
  {
    && t in r.pc && r.pc == s.pc[t := r.pc[t]] && r.readers == s.readers
    && Act(t, t in s.readers, s.pc[t], s.sh, r.pc[t], r.sh)
  }

  ghost predicate Next(s: State, r: State) {
    exists t :: t in s.pc && Step(s, r, t)
  }

  ghost predicate NextAt(run: seq<State>, i: nat)
    requires 0 < i < |run|
  {
    Next(run[i - 1], run[i])
  }

  ghost predicate Run(run: seq<State>) {
    && run != [] && Init(run[0])
    && forall i | 0 < i < |run| :: NextAt(run, i)
  }

  // ---------------------------------------------------------------- counting

  datatype Kind = Announcing | Signalling | Trying | Taking | Other

  ghost function KindOf(p: Pc): Kind {
    match p
    case PushUnLock => Announcing
    case ProduceLock => Announcing
    case ProduceLoad => Announcing
    case ProduceStore(_) => Announcing
    case ProduceUnLock => Signalling
    case SemUp => Signalling
    case ConsumeTest => Trying
    case ConsumeLock => Trying
    case ConsumeLoad => Trying
    case ConsumeStore(_) => Trying
    case ConsumeUnLock => Taking
    case PopLock => Taking
    case PopDeQueue => Taking
    case _ => Other
  }

  ghost function Kinds(pc: map<Tid, Pc>): map<Tid, Kind> {
    map t | t in pc :: KindOf(pc[t])
  }

  ghost function Count(pc: map<Tid, Pc>, k: Kind): nat {
    Num(Kinds(pc), k)
  }

  ghost function Gain(p: Pc, q: Pc, k: Kind): int {
    One(KindOf(q) == k) - One(KindOf(p) == k)
  }

  lemma CountStep(s: State, r: State, t: Tid, k: Kind)
    requires t in s.pc && Step(s, r, t)
    ensures Count(r.pc, k) == Count(s.pc, k) + Gain(s.pc[t], r.pc[t], k)
  {
    hide KindOf, Act;
    assert Kinds(r.pc) == Kinds(s.pc)[t := KindOf(r.pc[t])];
    NumGo(Kinds(s.pc), t, KindOf(r.pc[t]), k);
  }

  // --------------------------------------------------------------- invariant

  ghost predicate InQueueSection(p: Pc) {
    p.PushEnQueue? || p.PushUnLock? || p.PopDeQueue? || p.PopUnLock?
  }

  ghost predicate InEventSection(p: Pc) {
    || p.ProduceLoad? || p.ProduceStore? || p.ProduceUnLock?
    || p.ConsumeLoad? || p.ConsumeStore? || p.ConsumeUnLock?
  }

  /** The reader has seen an event that it has not yet taken. */
  ghost predicate HasSeen(p: Pc) {
    p.ConsumeLock? || p.ConsumeLoad? || p.ConsumeStore?
  }

  ghost predicate Popping(p: Pc) {
    || p.ConsumeTest? || p.SemWait? || HasSeen(p) || p.ConsumeUnLock?
    || p.PopLock? || p.PopDeQueue? || p.PopUnLock?
  }

  ghost predicate Locked(s: State) {
    forall t <- s.pc ::
      && (InQueueSection(s.pc[t]) <==> s.sh.queueLock == Some(t))
      && (InEventSection(s.pc[t]) <==> s.sh.eventLock == Some(t))
  }

  ghost predicate Sees(p: Pc, events: nat) {
    && (p.ProduceStore? || p.ConsumeStore? ==> p.r == events)
    && (HasSeen(p) ==> events > 0)
  }

  ghost predicate Fresh(s: State) {
    forall t <- s.pc :: Sees(s.pc[t], s.sh.events) && (Popping(s.pc[t]) ==> t in s.readers)
  }

  ghost predicate Balanced(s: State) {
    |s.sh.queue| == s.sh.events + Count(s.pc, Announcing) + Count(s.pc, Taking)
  }

  /** Every event has an up of the semaphore, done or to come, or a reader at work. */
  ghost predicate Signalled(s: State) {
    s.sh.events <= s.sh.sem + Count(s.pc, Signalling) + Count(s.pc, Trying)
  }

  ghost predicate InOrder(s: State) {
    s.sh.pushed == s.sh.popped + s.sh.queue && !s.sh.failed
  }

  ghost predicate Inv(s: State) {
    Locked(s) && Fresh(s) && Balanced(s) && Signalled(s) && InOrder(s)
  }

  ghost predicate OneReader(s: State) {
    forall x, y :: x in s.readers && y in s.readers ==> x == y
  }

  lemma ActLocks(t: Tid, reader: bool, p: Pc, a: Shared, q: Pc, b: Shared)
    requires Act(t, reader, p, a, q, b)
    ensures Handover(t, InQueueSection(p), InQueueSection(q), a.queueLock, b.queueLock)
    ensures Handover(t, InEventSection(p), InEventSection(q), a.eventLock, b.eventLock)
  {
  }

  lemma LockedStep(s: State, r: State, t: Tid)
    requires Locked(s) && t in s.pc && Step(s, r, t)
    ensures Locked(r)
  {
    ActLocks(t, t in s.readers, s.pc[t], s.sh, r.pc[t], r.sh);
    hide Act;
  }

  lemma ActGuarded(t: Tid, reader: bool, p: Pc, a: Shared, q: Pc, b: Shared)
    requires Act(t, reader, p, a, q, b) && Sees(p, a.events)
    ensures Sees(q, b.events) && (b.events != a.events ==> InEventSection(p))
    ensures b.events < a.events ==> HasSeen(p)
    ensures Popping(q) ==> Popping(p) || reader
  {
  }

  lemma ActBalance(t: Tid, reader: bool, p: Pc, a: Shared, q: Pc, b: Shared)
    requires Act(t, reader, p, a, q, b) && Sees(p, a.events) && (p == PopDeQueue ==> a.queue != [])
    ensures |b.queue| - |a.queue| == b.events - a.events + Gain(p, q, Announcing) + Gain(p, q, Taking)
  {
  }

  lemma ActSignals(t: Tid, reader: bool, p: Pc, a: Shared, q: Pc, b: Shared)
    requires Act(t, reader, p, a, q, b) && Sees(p, a.events)
    ensures b.events == 0 || b.events - a.events <= b.sem - a.sem + Gain(p, q, Signalling) + Gain(p, q, Trying)
  {
  }

  lemma FreshStep(s: State, r: State, t: Tid)
    requires OneReader(s) && Locked(s) && Fresh(s) && t in s.pc && Step(s, r, t)
    ensures Fresh(r)
  {
    ActGuarded(t, t in s.readers, s.pc[t], s.sh, r.pc[t], r.sh);
    hide Act;
  }

  lemma TakerFinds(s: State, t: Tid)
    requires Balanced(s) && t in s.pc && s.pc[t] == PopDeQueue
    ensures s.sh.queue != []
  {
    NumSome(Kinds(s.pc), Taking, t);
  }

  lemma ActOrder(t: Tid, reader: bool, p: Pc, a: Shared, q: Pc, b: Shared)
    requires Act(t, reader, p, a, q, b) && Sees(p, a.events) && (p == PopDeQueue ==> a.queue != [])
    requires a.pushed == a.popped + a.queue && !a.failed
    ensures b.pushed == b.popped + b.queue && !b.failed
  {
  }

  lemma InOrderStep(s: State, r: State, t: Tid)
    requires Fresh(s) && Balanced(s) && InOrder(s) && t in s.pc && Step(s, r, t)
    ensures InOrder(r)
  {
    if s.pc[t] == PopDeQueue {
      TakerFinds(s, t);
    }
    ActOrder(t, t in s.readers, s.pc[t], s.sh, r.pc[t], r.sh);
    hide Balanced, Act;
  }

  lemma CountsStep(s: State, r: State, t: Tid)
    requires Fresh(s) && Balanced(s) && Signalled(s) && t in s.pc && Step(s, r, t)
    ensures Balanced(r) && Signalled(r)
  {
    if s.pc[t] == PopDeQueue {
      TakerFinds(s, t);
    }
    ActBalance(t, t in s.readers, s.pc[t], s.sh, r.pc[t], r.sh);
    ActSignals(t, t in s.readers, s.pc[t], s.sh, r.pc[t], r.sh);
    CountStep(s, r, t, Announcing);
    CountStep(s, r, t, Taking);
    CountStep(s, r, t, Signalling);
    CountStep(s, r, t, Trying);
    hide Act, KindOf, Count;
  }

  lemma {:induction false} InvHolds(run: seq<State>, i: nat)
    requires Run(run) && i < |run| && OneReader(run[0])
    ensures Inv(run[i]) && OneReader(run[i])
    decreases i
  {
    if i == 0 {
      NumNone(Kinds(run[0].pc), Announcing);
      NumNone(Kinds(run[0].pc), Taking);
    } else {
      InvHolds(run, i - 1);
      var s, r := run[i - 1], run[i];
      assert NextAt(run, i);
      var t :| t in s.pc && Step(s, r, t);
      LockedStep(s, r, t);
      FreshStep(s, r, t);
      CountsStep(s, r, t);
      InOrderStep(s, r, t);
    }
  }

  // ---------------------------------------------------------------- theorems

  /** With one reader, every reachable state balances and nothing fails. */
  lemma FirstInFirstOut(run: seq<State>, i: nat)
    requires Run(run) && i < |run| && OneReader(run[0])
    ensures var s := run[i];
      && |s.sh.queue| == s.sh.events + Count(s.pc, Announcing) + Count(s.pc, Taking)
      && s.sh.popped <= s.sh.pushed && s.sh.pushed == s.sh.popped + s.sh.queue && !s.sh.failed
      && forall t <- s.pc :: (s.pc[t] == PopDeQueue ==> s.sh.queue != []) && (s.pc[t].ConsumeStore? ==> s.pc[t].r > 0)
  {
    InvHolds(run, i);
    forall t <- run[i].pc | run[i].pc[t] == PopDeQueue ensures run[i].sh.queue != [] {
      TakerFinds(run[i], t);
    }
  }

  /** When the reader is about to wait, every event has its up of the semaphore done or to come. */
  lemma EventsAreSignalled(run: seq<State>, i: nat, t: Tid)
    requires Run(run) && i < |run| && OneReader(run[0]) && t in run[i].pc && run[i].pc[t] == SemWait
    ensures run[i].sh.events <= run[i].sh.sem + Count(run[i].pc, Signalling)
  {
    InvHolds(run, i);
    var s := run[i];
    forall x <- s.pc ensures KindOf(s.pc[x]) != Trying {
      assert Popping(s.pc[t]) && (Popping(s.pc[x]) ==> x == t);
    }
    NumNone(Kinds(s.pc), Trying);
  }

  /** The reader cannot sleep past an event: blocked with all else at rest, the queue is empty. */
  lemma SleepOnlyWhenEmpty(run: seq<State>, i: nat)
    requires Run(run) && i < |run| && OneReader(run[0])
    requires forall x <- run[i].pc :: run[i].pc[x] == Idle || (run[i].pc[x] == SemWait && run[i].sh.sem == 0)
    requires exists x <- run[i].pc :: run[i].pc[x] == SemWait
    ensures run[i].sh.queue == [] && run[i].sh.popped == run[i].sh.pushed
  {
    InvHolds(run, i);
    var kinds := Kinds(run[i].pc);
    NumNone(kinds, Signalling);
    NumNone(kinds, Trying);
    NumNone(kinds, Announcing);
    NumNone(kinds, Taking);
  }

  // ------------------------------------------------------------ calls and returns

  ghost function Bringing(p: Pc): Option<Msg> {
    match p
    case PushLock(m) => Some(m)
    case PushEnQueue(m) => Some(m)
    case _ => None
  }

  ghost function Fetching(p: Pc): Option<Msg> {
    match p
    case PopUnLock(m) => Some(m)
    case _ => None
  }

  ghost function Brought(pc: map<Tid, Pc>): map<Tid, Option<Msg>> {
    map t | t in pc :: Bringing(pc[t])
  }

  ghost function Fetched(pc: map<Tid, Pc>): map<Tid, Option<Msg>> {
    map t | t in pc :: Fetching(pc[t])
  }

  ghost function Poppers(pc: map<Tid, Pc>): map<Tid, bool> {
    map t | t in pc :: Popping(pc[t])
  }

  /** As for the thread queue. */
  ghost predicate Served(s: State) {
    && PassedOn(s.sh.called, s.sh.pushed, Brought(s.pc))
    && PassedOn(s.sh.popped, s.sh.returned, Fetched(s.pc))
    && s.sh.asked == |s.sh.returned| + Num(Poppers(s.pc), true)
  }

  lemma ActBrings(t: Tid, reader: bool, p: Pc, a: Shared, q: Pc, b: Shared)
    requires Act(t, reader, p, a, q, b)
    ensures HandsOn(Bringing(p), Bringing(q), a.called, a.pushed, b.called, b.pushed)
  {
  }

  lemma ActFetches(t: Tid, reader: bool, p: Pc, a: Shared, q: Pc, b: Shared)
    requires Act(t, reader, p, a, q, b) && (p == PopDeQueue ==> a.queue != [])
    ensures HandsOn(Fetching(p), Fetching(q), a.popped, a.returned, b.popped, b.returned)
    ensures b.asked + One(Popping(p)) + |a.returned| == a.asked + One(Popping(q)) + |b.returned|
  {
  }

  lemma HandsStep(s: State, r: State, t: Tid)
    requires t in s.pc && Step(s, r, t)
    ensures Brought(r.pc) == Brought(s.pc)[t := Bringing(r.pc[t])]
    ensures Fetched(r.pc) == Fetched(s.pc)[t := Fetching(r.pc[t])]
    ensures Poppers(r.pc) == Poppers(s.pc)[t := Popping(r.pc[t])]
  {
    hide Act;
  }

  lemma ServedStep(s: State, r: State, t: Tid)
    requires Served(s) && t in s.pc && Step(s, r, t) && (s.pc[t] == PopDeQueue ==> s.sh.queue != [])
    ensures Served(r)
  {
    HandsStep(s, r, t);
    var a, b := s.sh, r.sh;
    ActBrings(t, t in s.readers, s.pc[t], a, r.pc[t], b);
    ActFetches(t, t in s.readers, s.pc[t], a, r.pc[t], b);
    hide Step, Bringing, Fetching, Popping, HandsOn, PassedOn, Num;
    PassedOnStep(a.called, a.pushed, Brought(s.pc), t, Bringing(r.pc[t]), b.called, b.pushed);
    PassedOnStep(a.popped, a.returned, Fetched(s.pc), t, Fetching(r.pc[t]), b.popped, b.returned);
    NumGo(Poppers(s.pc), t, Popping(r.pc[t]), true);
  }

  lemma {:induction false} CallsAreServed(run: seq<State>, i: nat)
    requires Run(run) && i < |run| && OneReader(run[0])
    ensures Served(run[i])
    decreases i
  {
    hide Step, Served;
    if i == 0 {
      NothingServed(run[0]);
    } else {
      CallsAreServed(run, i - 1);
      InvHolds(run, i - 1);
      assert NextAt(run, i);
      var s := run[i - 1];
      var t :| t in s.pc && Step(s, run[i], t);
      if s.pc[t] == PopDeQueue {
        TakerFinds(s, t);
      }
      ServedStep(s, run[i], t);
    }
  }

  lemma NothingServed(s: State)
    requires Init(s)
    ensures Served(s)
  {
    EmptyHands(s.sh.called, s.sh.pushed, Brought(s.pc));
    EmptyHands(s.sh.popped, s.sh.returned, Fetched(s.pc));
    NumNone(Poppers(s.pc), true);
  }

  ghost predicate Busy(p: Pc, a: Shared) {
    p != Idle && !(p == SemWait && a.sem == 0)
  }

  ghost predicate NobodyBusy(s: State) {
    forall t <- s.pc :: !Busy(s.pc[t], s.sh)
  }

  ghost predicate ServesAll(a: Shared) {
    && multiset(a.pushed) == multiset(a.called) && multiset(a.popped) == multiset(a.returned)
    && a.pushed == a.popped + a.queue
    && |a.returned| == if a.asked <= |a.called| then a.asked else |a.called|
  }

  /** With one reader at rest, all calls that can be served have been. */
  lemma RestServesAll(run: seq<State>, i: nat)
    requires Run(run) && i < |run| && OneReader(run[0]) && NobodyBusy(run[i])
    ensures ServesAll(run[i].sh)
  {
    CallsAreServed(run, i);
    InvHolds(run, i);
    var s := run[i];
    EmptyHands(s.sh.called, s.sh.pushed, Brought(s.pc));
    EmptyHands(s.sh.popped, s.sh.returned, Fetched(s.pc));
    hide Locked, Fresh, Balanced, Signalled, Run, PassedOn;
    if t :| t in s.pc && s.pc[t] == SemWait {
      SleepOnlyWhenEmpty(run, i);
    } else {
      NumNone(Poppers(s.pc), true);
    }
  }

  /** An idle thread can call `PushMsg` with any message, and a reader `PopMsg`. */
  lemma AnyCall(s: State, t: Tid, m: Msg) returns (push: State, pop: State)
    requires t in s.pc && s.pc[t] == Idle
    ensures Step(s, push, t) && push.pc[t] == PushLock(m) && push.sh.called == s.sh.called + [m]
    ensures t in s.readers ==> Step(s, pop, t) && pop.pc[t] == ConsumeTest && pop.sh.asked == s.sh.asked + 1
  {
    push := State(s.pc[t := PushLock(m)], s.readers, s.sh.(called := s.sh.called + [m]));
    pop := State(s.pc[t := ConsumeTest], s.readers, s.sh.(asked := s.sh.asked + 1));
  }

  // ---------------------------------------------------------------- coming to rest

  /** A mutex is held by a thread of the system inside its section; and every up of the
      semaphore has had a push of its own. All this with any number of readers. */
  ghost predicate Sane(s: State) {
    && Locked(s)
    && (s.sh.queueLock.Some? ==> s.sh.queueLock.value in s.pc)
    && (s.sh.eventLock.Some? ==> s.sh.eventLock.value in s.pc)
    && s.sh.sem + Count(s.pc, Announcing) + Count(s.pc, Signalling) <= |s.sh.pushed|
  }

  lemma ActEarns(t: Tid, reader: bool, p: Pc, a: Shared, q: Pc, b: Shared)
    requires Act(t, reader, p, a, q, b)
    ensures b.sem - a.sem + Gain(p, q, Announcing) + Gain(p, q, Signalling) <= |b.pushed| - |a.pushed|
  {
  }

  lemma {:induction false} SemaphoreIsEarned(run: seq<State>, i: nat)
    requires Run(run) && i < |run|
    ensures Sane(run[i])
    decreases i
  {
    if i == 0 {
      NumNone(Kinds(run[0].pc), Announcing);
      NumNone(Kinds(run[0].pc), Signalling);
    } else {
      SemaphoreIsEarned(run, i - 1);
      var s, r := run[i - 1], run[i];
      assert NextAt(run, i);
      var t :| t in s.pc && Step(s, r, t);
      LockedStep(s, r, t);
      ActLocks(t, t in s.readers, s.pc[t], s.sh, r.pc[t], r.sh);
      ActEarns(t, t in s.readers, s.pc[t], s.sh, r.pc[t], r.sh);
      CountStep(s, r, t, Announcing);
      CountStep(s, r, t, Signalling);
      hide Act, Run, Count, KindOf, InQueueSection, InEventSection;
    }
  }

  /** A busy thread that need not wait for a lock can act. */
  lemma CanAct(t: Tid, reader: bool, p: Pc, a: Shared) returns (q: Pc, b: Shared)
    requires Busy(p, a)
    requires p.PushLock? || p.PopLock? ==> a.queueLock == None
    requires p.ProduceLock? || p.ConsumeLock? ==> a.eventLock == None
    ensures Act(t, reader, p, a, q, b)
  {
    match p
    case PushLock(m) => q, b := PushEnQueue(m), a.(queueLock := Some(t));
    case PushEnQueue(m) => q, b := PushUnLock, a.(queue := a.queue + [m], pushed := a.pushed + [m]);
    case PushUnLock => q, b := ProduceLock, a.(queueLock := None);
    case ProduceLock => q, b := ProduceLoad, a.(eventLock := Some(t));
    case ProduceLoad => q, b := ProduceStore(a.events), a;
    case ProduceStore(n) => q, b := ProduceUnLock, a.(events := n + 1);
    case ProduceUnLock => q, b := SemUp, a.(eventLock := None);
    case SemUp => q, b := Idle, a.(sem := a.sem + 1);
    case ConsumeTest => q, b := if a.events == 0 then SemWait else ConsumeLock, a;
    case SemWait => q, b := ConsumeTest, a.(sem := a.sem - 1);
    case ConsumeLock => q, b := ConsumeLoad, a.(eventLock := Some(t));
    case ConsumeLoad => q, b := ConsumeStore(a.events), a;
    case ConsumeStore(n) => q, b := ConsumeUnLock, if n == 0 then a.(failed := true) else a.(events := n - 1);
    case ConsumeUnLock => q, b := PopLock, a.(eventLock := None);
    case PopLock => q, b := PopDeQueue, a.(queueLock := Some(t));
    case PopDeQueue =>
      if a.queue == [] {
        var m: Msg :| true;
        q, b := PopUnLock(m), a.(failed := true);
      } else {
        q, b := PopUnLock(a.queue[0]), a.(queue := a.queue[1..], popped := a.popped + [a.queue[0]]);
      }
    case PopUnLock(m) => q, b := Idle, a.(queueLock := None, returned := a.returned + [m]);
  }

  /** No deadlock, with any number of readers: while any thread is busy, some busy thread can
      take a step. */
  lemma SomebodyCanStep(run: seq<State>, i: nat, t0: Tid) returns (t: Tid, r: State)
    requires Run(run) && i < |run| && t0 in run[i].pc && Busy(run[i].pc[t0], run[i].sh)
    ensures t in run[i].pc && Busy(run[i].pc[t], run[i].sh) && Step(run[i], r, t)
  {
    SemaphoreIsEarned(run, i);
    hide Run, Count;
    var s := run[i];
    var p := s.pc[t0];
    t := if (p.PushLock? || p.PopLock?) && s.sh.queueLock.Some? then s.sh.queueLock.value
         else if (p.ProduceLock? || p.ConsumeLock?) && s.sh.eventLock.Some? then s.sh.eventLock.value
         else t0;
    var q, b := CanAct(t, t in s.readers, s.pc[t], s.sh);
    hide Act;
    r := State(s.pc[t := q], s.readers, b);
  }

  ghost function PushLeft(p: Pc): nat {
    match p
    case PushLock(_) => 8
    case PushEnQueue(_) => 7
    case PushUnLock => 6
    case ProduceLock => 5
    case ProduceLoad => 4
    case ProduceStore(_) => 3
    case ProduceUnLock => 2
    case SemUp => 1
    case _ => 0
  }

  ghost function PopLeft(p: Pc): nat {
    match p
    case ConsumeTest => 8
    case SemWait => 7
    case ConsumeLock => 7
    case ConsumeLoad => 6
    case ConsumeStore(_) => 5
    case ConsumeUnLock => 4
    case PopLock => 3
    case PopDeQueue => 2
    case PopUnLock(_) => 1
    case _ => 0
  }

  /** An up of the semaphore can send one reader round its loop once. */
  ghost function Left(p: Pc): nat {
    3 * PushLeft(p) + PopLeft(p)
  }

  ghost function Lefts(pc: map<Tid, Pc>): map<Tid, nat> {
    map t | t in pc :: Left(pc[t])
  }

  ghost function Rank(s: State): nat {
    Total(Lefts(s.pc)) + 2 * s.sh.sem
  }

  lemma ActLeft(t: Tid, reader: bool, p: Pc, a: Shared, q: Pc, b: Shared)
    requires Act(t, reader, p, a, q, b) && p != Idle
    ensures Left(q) + 2 * b.sem < Left(p) + 2 * a.sem
  {
  }

  /** A step that is no new call. */
  ghost predicate Quiet(s: State, r: State) {
    exists t :: t in s.pc && s.pc[t] != Idle && Step(s, r, t)
  }

  lemma QuietStep(s: State, r: State)
    requires Quiet(s, r)
    ensures Rank(r) < Rank(s)
  {
    hide Act, Left;
    var t :| t in s.pc && s.pc[t] != Idle && Step(s, r, t);
    ActLeft(t, t in s.readers, s.pc[t], s.sh, r.pc[t], r.sh);
    assert Lefts(r.pc) == Lefts(s.pc)[t := Left(r.pc[t])];
    TotalGo(Lefts(s.pc), t, Left(r.pc[t]));
  }

  ghost predicate QuietAt(run: seq<State>, i: nat)
    requires 0 < i < |run|
  {
    Quiet(run[i - 1], run[i])
  }

  /** Without new calls no run goes on for ever, with any number of readers. */
  lemma {:induction false} QuietRunsEnd(run: seq<State>, i: nat, j: nat)
    requires i <= j < |run| && forall k | i < k <= j :: QuietAt(run, k)
    ensures j - i + Rank(run[j]) <= Rank(run[i])
    decreases j
  {
    hide Rank;
    if i < j {
      QuietRunsEnd(run, i, j - 1);
      assert QuietAt(run, j);
      QuietStep(run[j - 1], run[j]);
    }
  }

  lemma OneQuietStep(run: seq<State>, r: State)
    requires Run(run) && run != [] && Quiet(run[|run| - 1], r)
    ensures Run(run + [r]) && QuietAt(run + [r], |run|)
  {
    var next := run + [r];
    hide Quiet, Init, Step;
    forall i | 0 < i < |next| ensures NextAt(next, i) {
      if i < |run| {
        assert NextAt(run, i);
      } else {
        QuietIsNext(run[|run| - 1], r);
      }
    }
  }

  lemma QuietIsNext(s: State, r: State)
    requires Quiet(s, r)
    ensures Next(s, r)
  {
  }

  /** Nobody is busy, and with one reader, all calls that can be served have been. */
  ghost predicate Rests(s: State) {
    NobodyBusy(s) && (OneReader(s) ==> ServesAll(s.sh))
  }

  ghost predicate QuietFrom(run: seq<State>, i: nat)
    requires 0 < i
  {
    forall k | i <= k < |run| :: QuietAt(run, k)
  }

  /** From every reachable state quiet steps lead to rest. */
  lemma {:induction false} ComesToRest(run: seq<State>) returns (end: seq<State>)
    requires Run(run) && run != []
    ensures Run(end) && run <= end && QuietFrom(end, |run|) && Rests(end[|end| - 1])
    decreases Rank(run[|run| - 1])
  {
    hide *;
    if NobodyBusy(run[|run| - 1]) {
      end := run;
      RestIsFine(run);
      AlreadyQuiet(run);
    } else {
      var r := QuietNext(run);
      OneQuietStep(run, r);
      QuietStep(run[|run| - 1], r);
      end := ComesToRest(run + [r]);
      QuietOnward(run, r, end);
    }
  }

  lemma {:induction false} SameReaders(run: seq<State>, i: nat)
    requires Run(run) && i < |run|
    ensures run[i].readers == run[0].readers
    decreases i
  {
    hide Act;
    if i > 0 {
      SameReaders(run, i - 1);
      assert NextAt(run, i);
    }
  }

  lemma RestIsFine(run: seq<State>)
    requires Run(run) && run != [] && NobodyBusy(run[|run| - 1])
    ensures Rests(run[|run| - 1])
  {
    SameReaders(run, |run| - 1);
    hide Run, NobodyBusy, ServesAll;
    if OneReader(run[|run| - 1]) {
      RestServesAll(run, |run| - 1);
    }
  }

  lemma AlreadyQuiet(run: seq<State>)
    requires run != []
    ensures QuietFrom(run, |run|)
  {
  }

  lemma QuietOnward(run: seq<State>, r: State, end: seq<State>)
    requires run != [] && run + [r] <= end && QuietAt(run + [r], |run|) && QuietFrom(end, |run| + 1)
    ensures run <= end && QuietFrom(end, |run|)
  {
    hide Quiet;
    assert end[|run| - 1] == (run + [r])[|run| - 1] && end[|run|] == (run + [r])[|run|];
    assert QuietAt(end, |run|);
  }

  lemma QuietNext(run: seq<State>) returns (r: State)
    requires Run(run) && run != [] && !NobodyBusy(run[|run| - 1])
    ensures Quiet(run[|run| - 1], r)
  {
    hide Act, Step;
    var s := run[|run| - 1];
    var t0 :| t0 in s.pc && Busy(s.pc[t0], s.sh);
    var t;
    t, r := SomebodyCanStep(run, |run| - 1, t0);
  }

  // ------------------------------------------------- two readers do not work

  ghost predicate Leads(run: seq<State>, s: State) {
    Run(run) && run[|run| - 1] == s
  }

  /** A run goes on by one act of thread `t`, where `base` says what the others do. */
  lemma Do(run: seq<State>, s: State, base: map<Tid, Pc>, t: Tid, q: Pc, b: Shared) returns (next: seq<State>, r: State)
    requires Leads(run, s) && t in s.pc && base.Keys <= s.pc.Keys && s.pc == base[t := s.pc[t]]
    requires Act(t, t in s.readers, s.pc[t], s.sh, q, b)
    ensures Leads(next, r) && r == State(base[t := q], s.readers, b) && run != [] && next != [] && next[0] == run[0]
  {
    r := State(base[t := q], s.readers, b);
    next := run + [r];
    hide Act;
    assert r.pc == s.pc[t := q];
    assert Step(s, r, t);
    forall i | 0 < i < |next| ensures NextAt(next, i) {
      if i < |run| {
        assert NextAt(run, i);
      }
    }
  }

  lemma DoEnQueue(s0: State, t: Tid, m: Msg) returns (run: seq<State>, s: State)
    requires Init(s0) && t in s0.pc
    ensures Leads(run, s) && run != [] && run[0] == s0
    ensures s == State(s0.pc[t := ProduceLock], s0.readers, Shared([m], None, 0, None, 0, [m], [], [m], 0, [], false))
  {
    run, s := [s0], s0;
    assert Leads(run, s);
    hide Leads, Run;
    run, s := Do(run, s, s0.pc, t, PushLock(m), s.sh.(called := [m]));
    run, s := Do(run, s, s0.pc, t, PushEnQueue(m), s.sh.(queueLock := Some(t)));
    run, s := Do(run, s, s0.pc, t, PushUnLock, s.sh.(queue := [m], pushed := [m]));
    run, s := Do(run, s, s0.pc, t, ProduceLock, s.sh.(queueLock := None));
  }

  lemma DoCountUp(s0: State, t: Tid, m: Msg) returns (run: seq<State>, s: State)
    requires Init(s0) && t in s0.pc
    ensures Leads(run, s) && run != [] && run[0] == s0
    ensures s == State(s0.pc[t := ProduceUnLock], s0.readers, Shared([m], None, 1, Some(t), 0, [m], [], [m], 0, [], false))
  {
    hide Leads, Run;
    run, s := DoEnQueue(s0, t, m);
    run, s := Do(run, s, s0.pc, t, ProduceLoad, s.sh.(eventLock := Some(t)));
    run, s := Do(run, s, s0.pc, t, ProduceStore(0), s.sh);
    run, s := Do(run, s, s0.pc, t, ProduceUnLock, s.sh.(events := 1));
  }

  /** One thread pushes one message, undisturbed. */
  lemma DoPush(s0: State, t: Tid, m: Msg) returns (run: seq<State>, s: State)
    requires Init(s0) && t in s0.pc
    ensures Leads(run, s) && run != [] && run[0] == s0
    ensures s == State(s0.pc, s0.readers, Shared([m], None, 1, None, 1, [m], [], [m], 0, [], false))
  {
    hide Leads, Run;
    run, s := DoCountUp(s0, t, m);
    run, s := Do(run, s, s0.pc, t, SemUp, s.sh.(eventLock := None));
    run, s := Do(run, s, s0.pc, t, Idle, s.sh.(sem := 1));
    assert s.pc == s0.pc;
  }

  /** Both readers see the one event. */
  lemma BothSee(s0: State, x: Tid, y: Tid, m: Msg) returns (run: seq<State>, s: State)
    requires Init(s0) && x in s0.readers && y in s0.readers && x != y && x in s0.pc && y in s0.pc
    ensures Leads(run, s) && run != [] && run[0] == s0 && s.readers == s0.readers
    ensures s.pc == s0.pc[y := ConsumeLock][x := ConsumeLock] && s.sh == Shared([m], None, 1, None, 1, [m], [], [m], 2, [], false)
  {
    hide Leads, Run;
    run, s := DoPush(s0, x, m);
    run, s := Do(run, s, s0.pc, y, ConsumeTest, s.sh.(asked := 1));
    run, s := Do(run, s, s0.pc, y, ConsumeLock, s.sh);
    var base := s0.pc[y := ConsumeLock];
    run, s := Do(run, s, base, x, ConsumeTest, s.sh.(asked := 2));
    run, s := Do(run, s, base, x, ConsumeLock, s.sh);
  }

  /** Both readers see the one event before either takes it; the second count-down wraps. */
  lemma DoublePop(s0: State, x: Tid, y: Tid) returns (run: seq<State>, s: State)
    requires Init(s0) && x in s0.readers && y in s0.readers && x != y && x in s0.pc && y in s0.pc
    ensures Leads(run, s) && run != [] && run[0] == s0 && s.sh.failed
  {
    hide Leads, Run;
    var m: Msg :| true;
    run, s := BothSee(s0, x, y, m);
    var base := s0.pc[y := ConsumeLock];
    run, s := Do(run, s, base, x, ConsumeLoad, s.sh.(eventLock := Some(x)));
    run, s := Do(run, s, base, x, ConsumeStore(1), s.sh);
    run, s := Do(run, s, base, x, ConsumeUnLock, s.sh.(events := 0));
    run, s := Do(run, s, base, x, PopLock, s.sh.(eventLock := None));
    base := s0.pc[x := PopLock];
    assert s.pc == base[y := ConsumeLock];
    run, s := Do(run, s, base, y, ConsumeLoad, s.sh.(eventLock := Some(y)));
    run, s := Do(run, s, base, y, ConsumeStore(0), s.sh);
    run, s := Do(run, s, base, y, ConsumeUnLock, s.sh.(failed := true));
  }

  /** The process queue works on every run exactly when at most one thread ever pops. */
  lemma WorksIffOneReader(s0: State)
    requires Init(s0) && s0.readers <= s0.pc.Keys
    ensures OneReader(s0) <==> forall run, s :: Leads(run, s) && run[0] == s0 ==> !s.sh.failed
  {
    if OneReader(s0) {
      forall run, s | Leads(run, s) && run[0] == s0 ensures !s.sh.failed {
        InvHolds(run, |run| - 1);
      }
    } else {
      var x, y :| x in s0.readers && y in s0.readers && x != y;
      var run, s := DoublePop(s0, x, y);
      assert Leads(run, s) && run[0] == s0;
    }
  }
}
