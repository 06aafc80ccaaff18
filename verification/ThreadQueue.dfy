/** The thread message queue: `PushMsg` and `PopMsg` of any number of threads, step by
    step. A mutex guards the queue, another one the event count, and a condition
    variable, signalled after the second mutex is free again, wakes sleeping readers. */
module ThreadQueue {

  import opened Counting
  import opened Options
  import opened Threads

  /** Where a thread is; each value names the next thing it will do. */
  datatype Pc =
    | Idle
    | PushLock(m: Msg) | PushEnQueue(m: Msg) | PushUnLock
    | ProduceLock | ProduceLoad | ProduceStore(r: nat) | ProduceUnLock | WakeUp
    | ConsumeLock | ConsumeTest | Waiting | Woken | ConsumeLoad | ConsumeStore(r: nat) | ConsumeUnLock
    | PopLock | PopDeQueue | PopUnLock(m: Msg)

  /** What the threads share. `pushed` and `popped` record what went through the queue, and
      `called`, `asked` and `returned` what callers see: the messages of the calls of `PushMsg`,
      the number of calls of `PopMsg`, and what these have given back. `failed` is set when
      `DeQueue` meets an empty queue or the event count wraps below zero. */
  datatype Shared = Shared(
    queue: seq<Msg>, queueLock: Option<Tid>, events: nat, eventLock: Option<Tid>,
    pushed: seq<Msg>, popped: seq<Msg>, called: seq<Msg>, asked: nat, returned: seq<Msg>, failed: bool)

  datatype State = State(pc: map<Tid, Pc>, sh: Shared)

  ghost predicate Init(s: State) {
    && (forall t <- s.pc :: s.pc[t] == Idle)
    && s.sh == Shared([], None, 0, None, [], [], [], 0, [], false)
  }

  /** Thread `t`, about to do `p`, turns the shared state `a` into `b` and goes on to `q`. */
  ghost predicate Act(t: Tid, p: Pc, a: Shared, q: Pc, b: Shared) {
    match p
    case Idle =>
      || (q.PushLock? && b == a.(called := a.called + [q.m]))
      || (q == ConsumeLock && b == a.(asked := a.asked + 1))
    case PushLock(m) => a.queueLock == None && q == PushEnQueue(m) && b == a.(queueLock := Some(t))
    case PushEnQueue(m) => q == PushUnLock && b == a.(queue := a.queue + [m], pushed := a.pushed + [m])
    case PushUnLock => q == ProduceLock && b == a.(queueLock := None)
    case ProduceLock => a.eventLock == None && q == ProduceLoad && b == a.(eventLock := Some(t))
    case ProduceLoad => q == ProduceStore(a.events) && b == a
    case ProduceStore(n) => q == ProduceUnLock && b == a.(events := n + 1)
    case ProduceUnLock => q == WakeUp && b == a.(eventLock := None)
    case WakeUp => q == Idle && b == a
    case ConsumeLock => a.eventLock == None && q == ConsumeTest && b == a.(eventLock := Some(t))
    case ConsumeTest =>
      if a.events == 0 then q == Waiting && b == a.(eventLock := None) else q == ConsumeLoad && b == a
    case Waiting => q == Woken && b == a  // a spurious wakeup
    case Woken => a.eventLock == None && q == ConsumeTest && b == a.(eventLock := Some(t))
    case ConsumeLoad => q == ConsumeStore(a.events) && b == a
    case ConsumeStore(n) => q == ConsumeUnLock && b == if n == 0 then a.(failed := true) else a.(events := n - 1)
    case ConsumeUnLock => q == PopLock && b == a.(eventLock := None)
    case PopLock => a.queueLock == None && q == PopDeQueue && b == a.(queueLock := Some(t))
    case PopDeQueue =>
      && q.PopUnLock?
      && if a.queue == [] then b == a.(failed := true)
         else q.m == a.queue[0] && b == a.(queue := a.queue[1..], popped := a.popped + [a.queue[0]])
    case PopUnLock(m) => q == Idle && b == a.(queueLock := None, returned := a.returned + [m])
  }

  ghost function Waiters(pc: map<Tid, Pc>): set<Tid> {
    set t | t in pc && pc[t] == Waiting
  }

  ghost function Wake(pc: map<Tid, Pc>, w: set<Tid>): map<Tid, Pc> {
    map t | t in pc :: if t in w then Woken else pc[t]
  }

  /** A signal wakes some of the waiters, at least one if there is any. */
  ghost predicate Signals(p: Pc, pc: map<Tid, Pc>, w: set<Tid>) {
    if p == WakeUp then w <= Waiters(pc) && (Waiters(pc) != {} ==> w != {}) else w == {}
  }

  ghost predicate Step(s: State, r: State, t: Tid, w: set<Tid>)
    requires t in s.pc
  {
    && t in r.pc && Act(t, s.pc[t], s.sh, r.pc[t], r.sh)
    && Signals(s.pc[t], s.pc, w)
    && r.pc == Wake(s.pc, w)[t := r.pc[t]]
  }

  ghost predicate Next(s: State, r: State) {
    exists t, w :: t in s.pc && Step(s, r, t, w)
  }

  ghost predicate NextAt(run: seq<State>, i: nat)
    requires 0 < i < |run|
  {
    Next(run[i - 1], run[i])
  }

  ghost predicate Run(run: seq<State>) {
    && run != [] && Init(run[0])
    && forall i | 0 < i < |run| :: NextAt(run, i)
  }

  // ---------------------------------------------------------------- counting

  datatype Kind = Announcing | Signalling | Asleep | Awake | Taking | Other

  ghost function KindOf(p: Pc): Kind {
    match p
    case PushUnLock => Announcing
    case ProduceLock => Announcing
    case ProduceLoad => Announcing
    case ProduceStore(_) => Announcing
    case ProduceUnLock => Signalling
    case WakeUp => Signalling
    case Waiting => Asleep
    case Woken => Awake
    case ConsumeTest => Awake
    case ConsumeLoad => Awake
    case ConsumeStore(_) => Awake
    case ConsumeUnLock => Taking
    case PopLock => Taking
    case PopDeQueue => Taking
    case _ => Other
  }

  ghost function Kinds(pc: map<Tid, Pc>): map<Tid, Kind> {
    map t | t in pc :: KindOf(pc[t])
  }

  ghost function Count(pc: map<Tid, Pc>, k: Kind): nat {
    Num(Kinds(pc), k)
  }

  /** What a step does to the count of kind `k`. */
  lemma CountStep(s: State, r: State, t: Tid, w: set<Tid>, k: Kind)
    requires t in s.pc && Step(s, r, t, w)
    ensures Count(r.pc, k) == Count(s.pc, k) - One(KindOf(s.pc[t]) == k) + One(KindOf(r.pc[t]) == k)
                              + (if k == Awake then |w| else 0) - (if k == Asleep then |w| else 0)
  {
    var v := Wake(s.pc, w);
    assert forall x <- w :: KindOf(s.pc[x]) == Asleep && KindOf(v[x]) == Awake;
    assert KindOf(v[t]) == KindOf(s.pc[t]);
    hide KindOf, Act;
    NumShift(Kinds(s.pc), Kinds(v), w, Asleep, Awake, k);
    assert Kinds(r.pc) == Kinds(v)[t := KindOf(r.pc[t])];
    NumGo(Kinds(v), t, KindOf(r.pc[t]), k);
  }

  // --------------------------------------------------------------- invariant

  ghost predicate InQueueSection(p: Pc) {
    p.PushEnQueue? || p.PushUnLock? || p.PopDeQueue? || p.PopUnLock?
  }

  ghost predicate InEventSection(p: Pc) {
    || p.ProduceLoad? || p.ProduceStore? || p.ProduceUnLock?
    || p.ConsumeTest? || p.ConsumeLoad? || p.ConsumeStore? || p.ConsumeUnLock?
  }

  /** A mutex is held by exactly the thread inside the section it guards. */
  ghost predicate Locked(s: State) {
    forall t <- s.pc ::
      && (InQueueSection(s.pc[t]) <==> s.sh.queueLock == Some(t))
      && (InEventSection(s.pc[t]) <==> s.sh.eventLock == Some(t))
  }

  /** What a thread has seen of the event count is still true when it writes. */
  ghost predicate Sees(p: Pc, events: nat) {
    && (p.ProduceStore? || p.ConsumeStore? ==> p.r == events)
    && (p.ConsumeLoad? || p.ConsumeStore? ==> events > 0)
  }

  ghost predicate Fresh(s: State) {
    forall t <- s.pc :: Sees(s.pc[t], s.sh.events)
  }

  /** The queue holds what was counted, what will be counted, and what is about to be taken. */
  ghost predicate Balanced(s: State) {
    |s.sh.queue| == s.sh.events + Count(s.pc, Announcing) + Count(s.pc, Taking)
  }

  /** While a reader sleeps, every counted event has a signal to come or a reader awake. */
  ghost predicate NoLostWakeup(s: State) {
    Count(s.pc, Asleep) > 0 ==> s.sh.events <= Count(s.pc, Signalling) + Count(s.pc, Awake)
  }

  ghost predicate InOrder(s: State) {
    s.sh.pushed == s.sh.popped + s.sh.queue && !s.sh.failed
  }

  ghost predicate Inv(s: State) {
    Locked(s) && Fresh(s) && Balanced(s) && NoLostWakeup(s) && InOrder(s)
  }

  lemma ActLocks(t: Tid, p: Pc, a: Shared, q: Pc, b: Shared)
    requires Act(t, p, a, q, b)
    ensures Handover(t, InQueueSection(p), InQueueSection(q), a.queueLock, b.queueLock)
    ensures Handover(t, InEventSection(p), InEventSection(q), a.eventLock, b.eventLock)
  {
  }

  lemma LockedStep(s: State, r: State, t: Tid, w: set<Tid>)
    requires Locked(s) && t in s.pc && Step(s, r, t, w)
    ensures Locked(r)
  {
    ActLocks(t, s.pc[t], s.sh, r.pc[t], r.sh);
    hide Act;
  }

  /** Only the holder of the event mutex writes the count. */
  lemma ActGuarded(t: Tid, p: Pc, a: Shared, q: Pc, b: Shared)
    requires Act(t, p, a, q, b) && Sees(p, a.events)
    ensures Sees(q, b.events) && (b.events != a.events ==> InEventSection(p))
  {
  }

  lemma FreshStep(s: State, r: State, t: Tid, w: set<Tid>)
    requires Locked(s) && Fresh(s) && t in s.pc && Step(s, r, t, w)
    ensures Fresh(r)
  {
    ActGuarded(t, s.pc[t], s.sh, r.pc[t], r.sh);
    hide Act;
  }

  /** A reader about to take is counted, so the queue is not empty. */
  lemma TakerFinds(s: State, t: Tid)
    requires Balanced(s) && t in s.pc && s.pc[t] == PopDeQueue
    ensures s.sh.queue != []
  {
    NumSome(Kinds(s.pc), Taking, t);
  }

  lemma ActOrder(t: Tid, p: Pc, a: Shared, q: Pc, b: Shared)
    requires Act(t, p, a, q, b) && Sees(p, a.events) && (p == PopDeQueue ==> a.queue != [])
    requires a.pushed == a.popped + a.queue && !a.failed
    ensures b.pushed == b.popped + b.queue && !b.failed
  {
  }

  lemma InOrderStep(s: State, r: State, t: Tid, w: set<Tid>)
    requires Fresh(s) && Balanced(s) && InOrder(s) && t in s.pc && Step(s, r, t, w)
    ensures InOrder(r)
  {
    if s.pc[t] == PopDeQueue {
      TakerFinds(s, t);
    }
    ActOrder(t, s.pc[t], s.sh, r.pc[t], r.sh);
    hide Balanced, Act;
  }

  ghost function Gain(p: Pc, q: Pc, k: Kind): int {
    One(KindOf(q) == k) - One(KindOf(p) == k)
  }

  /** The balance of one act. */
  lemma ActBalance(t: Tid, p: Pc, a: Shared, q: Pc, b: Shared)
    requires Act(t, p, a, q, b) && Sees(p, a.events) && (p == PopDeQueue ==> a.queue != [])
    ensures |b.queue| - |a.queue| == b.events - a.events + Gain(p, q, Announcing) + Gain(p, q, Taking)
  {
  }

  /** Events never outgrow signals and readers awake, but for the signal itself. */
  lemma ActWakes(t: Tid, p: Pc, a: Shared, q: Pc, b: Shared)
    requires Act(t, p, a, q, b) && Sees(p, a.events)
    ensures Gain(p, q, Asleep) > 0 ==> b.events == 0
    ensures p != WakeUp ==> b.events == 0 || b.events - a.events <= Gain(p, q, Signalling) + Gain(p, q, Awake)
    ensures p == WakeUp ==> b.events == a.events && Gain(p, q, Signalling) == -1
    ensures p == WakeUp ==> Gain(p, q, Awake) == Gain(p, q, Asleep) == 0
  {
  }

  lemma SleepersAreWaiters(pc: map<Tid, Pc>)
    ensures Count(pc, Asleep) == |Waiters(pc)|
  {
    assert forall t <- pc :: KindOf(pc[t]) == Asleep <==> pc[t] == Waiting;
    hide KindOf;
    assert All(Kinds(pc), Asleep) == Waiters(pc);
  }

  lemma CountsStep(s: State, r: State, t: Tid, w: set<Tid>)
    requires Fresh(s) && Balanced(s) && NoLostWakeup(s) && t in s.pc && Step(s, r, t, w)
    ensures Balanced(r) && NoLostWakeup(r)
  {
    if s.pc[t] == PopDeQueue {
      TakerFinds(s, t);
    }
    ActBalance(t, s.pc[t], s.sh, r.pc[t], r.sh);
    ActWakes(t, s.pc[t], s.sh, r.pc[t], r.sh);
    SleepersAreWaiters(s.pc);
    CountStep(s, r, t, w, Announcing);
    CountStep(s, r, t, w, Taking);
    CountStep(s, r, t, w, Signalling);
    CountStep(s, r, t, w, Asleep);
    CountStep(s, r, t, w, Awake);
    hide Act, KindOf, Count, Waiters;
  }

  lemma {:induction false} InvHolds(run: seq<State>, i: nat)
    requires Run(run) && i < |run|
    ensures Inv(run[i])
    decreases i
  {
    if i == 0 {
      NumNone(Kinds(run[0].pc), Announcing);
      NumNone(Kinds(run[0].pc), Taking);
      NumNone(Kinds(run[0].pc), Asleep);
    } else {
      InvHolds(run, i - 1);
      var s, r := run[i - 1], run[i];
      assert NextAt(run, i);
      var t, w :| t in s.pc && Step(s, r, t, w);
      LockedStep(s, r, t, w);
      FreshStep(s, r, t, w);
      CountsStep(s, r, t, w);
      InOrderStep(s, r, t, w);
    }
  }

  // ------------------------------------------------------------ calls and returns

  /** The message that a thread still has to put in, and the one it is about to give back. */
  ghost function Bringing(p: Pc): Option<Msg> {
    match p
    case PushLock(m) => Some(m)
    case PushEnQueue(m) => Some(m)
    case _ => None
  }

  ghost function Fetching(p: Pc): Option<Msg> {
    match p
    case PopUnLock(m) => Some(m)
    case _ => None
  }

  ghost predicate Popping(p: Pc) {
    || p.ConsumeLock? || p.ConsumeTest? || p.Waiting? || p.Woken? || p.ConsumeLoad? || p.ConsumeStore?
    || p.ConsumeUnLock? || p.PopLock? || p.PopDeQueue? || p.PopUnLock?
  }

  ghost function Brought(pc: map<Tid, Pc>): map<Tid, Option<Msg>> {
    map t | t in pc :: Bringing(pc[t])
  }

  ghost function Fetched(pc: map<Tid, Pc>): map<Tid, Option<Msg>> {
    map t | t in pc :: Fetching(pc[t])
  }

  ghost function Poppers(pc: map<Tid, Pc>): map<Tid, bool> {
    map t | t in pc :: Popping(pc[t])
  }

  /** Every message that a caller has passed has been put in once, or is on its way; every
      message taken out has been given back once, or is on its way; and every call of `PopMsg`
      has given a message back, or is under way. */
  ghost predicate Served(s: State) {
    && PassedOn(s.sh.called, s.sh.pushed, Brought(s.pc))
    && PassedOn(s.sh.popped, s.sh.returned, Fetched(s.pc))
    && s.sh.asked == |s.sh.returned| + Num(Poppers(s.pc), true)
  }

  lemma ActBrings(t: Tid, p: Pc, a: Shared, q: Pc, b: Shared)
    requires Act(t, p, a, q, b)
    ensures HandsOn(Bringing(p), Bringing(q), a.called, a.pushed, b.called, b.pushed)
  {
  }

  lemma ActFetches(t: Tid, p: Pc, a: Shared, q: Pc, b: Shared)
    requires Act(t, p, a, q, b) && (p == PopDeQueue ==> a.queue != [])
    ensures HandsOn(Fetching(p), Fetching(q), a.popped, a.returned, b.popped, b.returned)
    ensures b.asked + One(Popping(p)) + |a.returned| == a.asked + One(Popping(q)) + |b.returned|
  {
  }

  lemma BroughtStep(s: State, r: State, t: Tid, w: set<Tid>)
    requires t in s.pc && Step(s, r, t, w)
    ensures Brought(r.pc) == Brought(s.pc)[t := Bringing(r.pc[t])]
  {
    OthersStep(s, r, t, w);
    assert Bringing(Waiting) == Bringing(Woken);
    hide Step, Bringing;
  }

  lemma FetchedStep(s: State, r: State, t: Tid, w: set<Tid>)
    requires t in s.pc && Step(s, r, t, w)
    ensures Fetched(r.pc) == Fetched(s.pc)[t := Fetching(r.pc[t])]
  {
    OthersStep(s, r, t, w);
    assert Fetching(Waiting) == Fetching(Woken);
    hide Step, Fetching;
  }

  lemma PoppersStep(s: State, r: State, t: Tid, w: set<Tid>)
    requires t in s.pc && Step(s, r, t, w)
    ensures Poppers(r.pc) == Poppers(s.pc)[t := Popping(r.pc[t])]
  {
    OthersStep(s, r, t, w);
    assert Popping(Waiting) == Popping(Woken);
    hide Step, Popping;
  }

  /** The other threads stay where they are, but for the sleepers that are woken. */
  lemma OthersStep(s: State, r: State, t: Tid, w: set<Tid>)
    requires t in s.pc && Step(s, r, t, w)
    ensures r.pc.Keys == s.pc.Keys
    ensures forall x <- s.pc :: x != t ==> r.pc[x] == s.pc[x] || (s.pc[x] == Waiting && r.pc[x] == Woken)
  {
    hide Act;
  }

  lemma ServedStep(s: State, r: State, t: Tid, w: set<Tid>)
    requires Served(s) && t in s.pc && Step(s, r, t, w) && (s.pc[t] == PopDeQueue ==> s.sh.queue != [])
    ensures Served(r)
  {
    BroughtStep(s, r, t, w);
    FetchedStep(s, r, t, w);
    PoppersStep(s, r, t, w);
    var a, b := s.sh, r.sh;
    ActBrings(t, s.pc[t], a, r.pc[t], b);
    ActFetches(t, s.pc[t], a, r.pc[t], b);
    hide Step, Bringing, Fetching, Popping, HandsOn, PassedOn, Num;
    PassedOnStep(a.called, a.pushed, Brought(s.pc), t, Bringing(r.pc[t]), b.called, b.pushed);
    PassedOnStep(a.popped, a.returned, Fetched(s.pc), t, Fetching(r.pc[t]), b.popped, b.returned);
    NumGo(Poppers(s.pc), t, Popping(r.pc[t]), true);
  }

  lemma {:induction false} CallsAreServed(run: seq<State>, i: nat)
    requires Run(run) && i < |run|
    ensures Served(run[i])
    decreases i
  {
    hide Step, Served;
    if i == 0 {
      NothingServed(run[0]);
    } else {
      CallsAreServed(run, i - 1);
      InvHolds(run, i - 1);
      assert NextAt(run, i);
      var s := run[i - 1];
      var t, w :| t in s.pc && Step(s, run[i], t, w);
      if s.pc[t] == PopDeQueue {
        TakerFinds(s, t);
      }
      ServedStep(s, run[i], t, w);
    }
  }

  lemma NothingServed(s: State)
    requires Init(s)
    ensures Served(s)
  {
    EmptyHands(s.sh.called, s.sh.pushed, Brought(s.pc));
    EmptyHands(s.sh.popped, s.sh.returned, Fetched(s.pc));
    NumNone(Poppers(s.pc), true);
  }

  /** What callers have got out of a queue at rest: exactly the messages that they have passed
      are in the queue or have been given back, the earliest ones put in have been given back,
      and as many as there were calls for, or all there were. */
  ghost predicate ServesAll(a: Shared) {
    && multiset(a.pushed) == multiset(a.called) && multiset(a.popped) == multiset(a.returned)
    && a.pushed == a.popped + a.queue
    && |a.returned| == if a.asked <= |a.called| then a.asked else |a.called|
  }

  lemma RestServesAll(run: seq<State>, i: nat)
    requires Run(run) && i < |run| && NobodyBusy(run[i])
    ensures ServesAll(run[i].sh)
  {
    CallsAreServed(run, i);
    InvHolds(run, i);
    var s := run[i];
    EmptyHands(s.sh.called, s.sh.pushed, Brought(s.pc));
    EmptyHands(s.sh.popped, s.sh.returned, Fetched(s.pc));
    hide Locked, Fresh, Balanced, NoLostWakeup, Run, PassedOn;
    if t :| t in s.pc && s.pc[t] == Waiting {
      SleepOnlyWhenEmpty(run, i, t);
    } else {
      NumNone(Poppers(s.pc), true);
    }
  }

  /** An idle thread can call `PushMsg` with any message, and `PopMsg`. */
  lemma AnyCall(s: State, t: Tid, m: Msg) returns (push: State, pop: State)
    requires t in s.pc && s.pc[t] == Idle
    ensures Step(s, push, t, {}) && push.pc[t] == PushLock(m) && push.sh.called == s.sh.called + [m]
    ensures Step(s, pop, t, {}) && pop.pc[t] == ConsumeLock && pop.sh.asked == s.sh.asked + 1
  {
    push := State(s.pc[t := PushLock(m)], s.sh.(called := s.sh.called + [m]));
    pop := State(s.pc[t := ConsumeLock], s.sh.(asked := s.sh.asked + 1));
  }

  /** A sleeping thread can wake without a signal. */
  lemma AnyWaiter(s: State, t: Tid) returns (r: State)
    requires t in s.pc && s.pc[t] == Waiting
    ensures Step(s, r, t, {}) && r == State(s.pc[t := Woken], s.sh)
  {
    r := State(s.pc[t := Woken], s.sh);
  }

  // ---------------------------------------------------------------- theorems

  /** In every reachable state the queue balances, nothing has failed, and readers have
      got a prefix of what writers put in, in the same order. */
  lemma FirstInFirstOut(run: seq<State>, i: nat)
    requires Run(run) && i < |run|
    ensures var s := run[i];
      && |s.sh.queue| == s.sh.events + Count(s.pc, Announcing) + Count(s.pc, Taking)
      && s.sh.popped <= s.sh.pushed && s.sh.pushed == s.sh.popped + s.sh.queue && !s.sh.failed
      && forall t <- s.pc :: (s.pc[t] == PopDeQueue ==> s.sh.queue != []) && (s.pc[t].ConsumeStore? ==> s.pc[t].r > 0)
  {
    InvHolds(run, i);
    forall t <- run[i].pc | run[i].pc[t] == PopDeQueue ensures run[i].sh.queue != [] {
      TakerFinds(run[i], t);
    }
  }

  lemma MutualExclusion(run: seq<State>, i: nat, t: Tid, x: Tid)
    requires Run(run) && i < |run| && t in run[i].pc && x in run[i].pc
    ensures InQueueSection(run[i].pc[t]) && InQueueSection(run[i].pc[x]) ==> t == x
    ensures InEventSection(run[i].pc[t]) && InEventSection(run[i].pc[x]) ==> t == x
  {
    InvHolds(run, i);
  }

  ghost predicate Busy(p: Pc) {
    p != Idle && p != Waiting
  }

  /** No wakeup is lost: once all else is at rest, a reader sleeps only beside an empty queue. */
  lemma SleepOnlyWhenEmpty(run: seq<State>, i: nat, t: Tid)
    requires Run(run) && i < |run| && t in run[i].pc && run[i].pc[t] == Waiting
    requires forall x <- run[i].pc :: !Busy(run[i].pc[x])
    ensures run[i].sh.queue == [] && run[i].sh.popped == run[i].sh.pushed
  {
    InvHolds(run, i);
    var kinds := Kinds(run[i].pc);
    NumSome(kinds, Asleep, t);
    NumNone(kinds, Signalling);
    NumNone(kinds, Awake);
    NumNone(kinds, Announcing);
    NumNone(kinds, Taking);
  }

  /** A busy thread that need not wait for a mutex can act. */
  lemma CanAct(t: Tid, p: Pc, a: Shared) returns (q: Pc, b: Shared)
    requires Busy(p)
    requires p.PushLock? || p.PopLock? ==> a.queueLock == None
    requires p.ProduceLock? || p.ConsumeLock? || p.Woken? ==> a.eventLock == None
    ensures Act(t, p, a, q, b)
  {
    match p
    case PushLock(m) => q, b := PushEnQueue(m), a.(queueLock := Some(t));
    case PushEnQueue(m) => q, b := PushUnLock, a.(queue := a.queue + [m], pushed := a.pushed + [m]);
    case PushUnLock => q, b := ProduceLock, a.(queueLock := None);
    case ProduceLock => q, b := ProduceLoad, a.(eventLock := Some(t));
    case ProduceLoad => q, b := ProduceStore(a.events), a;
    case ProduceStore(n) => q, b := ProduceUnLock, a.(events := n + 1);
    case ProduceUnLock => q, b := WakeUp, a.(eventLock := None);
    case WakeUp => q, b := Idle, a;
    case ConsumeLock => q, b := ConsumeTest, a.(eventLock := Some(t));
    case ConsumeTest =>
      if a.events == 0 { q, b := Waiting, a.(eventLock := None); } else { q, b := ConsumeLoad, a; }
    case Woken => q, b := ConsumeTest, a.(eventLock := Some(t));
    case ConsumeLoad => q, b := ConsumeStore(a.events), a;
    case ConsumeStore(n) => q, b := ConsumeUnLock, if n == 0 then a.(failed := true) else a.(events := n - 1);
    case ConsumeUnLock => q, b := PopLock, a.(eventLock := None);
    case PopLock => q, b := PopDeQueue, a.(queueLock := Some(t));
    case PopDeQueue =>
      if a.queue == [] {
        var m: Msg :| true;
        q, b := PopUnLock(m), a.(failed := true);
      } else {
        q, b := PopUnLock(a.queue[0]), a.(queue := a.queue[1..], popped := a.popped + [a.queue[0]]);
      }
    case PopUnLock(m) => q, b := Idle, a.(queueLock := None, returned := a.returned + [m]);
  }

  /** A mutex is only ever held by a thread of the system. */
  ghost predicate Owned(s: State) {
    && (s.sh.queueLock.Some? ==> s.sh.queueLock.value in s.pc)
    && (s.sh.eventLock.Some? ==> s.sh.eventLock.value in s.pc)
  }

  lemma {:induction false} OwnedHolds(run: seq<State>, i: nat)
    requires Run(run) && i < |run|
    ensures Owned(run[i])
    decreases i
  {
    if i > 0 {
      OwnedHolds(run, i - 1);
      assert NextAt(run, i);
      var t, w :| t in run[i - 1].pc && Step(run[i - 1], run[i], t, w);
      ActLocks(t, run[i - 1].pc[t], run[i - 1].sh, run[i].pc[t], run[i].sh);
      hide Act;
    }
  }

  /** No deadlock: while any thread is busy, some busy thread can take a step. */
  lemma SomebodyCanStep(run: seq<State>, i: nat, t0: Tid) returns (t: Tid, r: State, w: set<Tid>)
    requires Run(run) && i < |run| && t0 in run[i].pc && Busy(run[i].pc[t0])
    ensures t in run[i].pc && Busy(run[i].pc[t]) && Step(run[i], r, t, w)
  {
    InvHolds(run, i);
    OwnedHolds(run, i);
    var s := run[i];
    var p := s.pc[t0];
    t := if (p.PushLock? || p.PopLock?) && s.sh.queueLock.Some? then s.sh.queueLock.value
         else if (p.ProduceLock? || p.ConsumeLock? || p.Woken?) && s.sh.eventLock.Some? then s.sh.eventLock.value
         else t0;
    var q, b := CanAct(t, s.pc[t], s.sh);
    w := if s.pc[t] == WakeUp then Waiters(s.pc) else {};
    hide Act;
    r := State(Wake(s.pc, w)[t := q], b);
  }

  /** While a message is queued and a reader sleeps, some busy thread can take a step. */
  lemma NobodyIsForgotten(run: seq<State>, i: nat, t0: Tid) returns (t: Tid, r: State, w: set<Tid>)
    requires Run(run) && i < |run| && t0 in run[i].pc && run[i].pc[t0] == Waiting && run[i].sh.queue != []
    ensures t in run[i].pc && Busy(run[i].pc[t]) && Step(run[i], r, t, w)
  {
    if forall x <- run[i].pc :: !Busy(run[i].pc[x]) {
      SleepOnlyWhenEmpty(run, i, t0);
      assert false;
    }
    var x :| x in run[i].pc && Busy(run[i].pc[x]);
    t, r, w := SomebodyCanStep(run, i, x);
  }

  // ---------------------------------------------------------------- coming to rest

  /** How many steps a push still has to make. */
  ghost function PushLeft(p: Pc): nat {
    match p
    case PushLock(_) => 8
    case PushEnQueue(_) => 7
    case PushUnLock => 6
    case ProduceLock => 5
    case ProduceLoad => 4
    case ProduceStore(_) => 3
    case ProduceUnLock => 2
    case WakeUp => 1
    case _ => 0
  }

  /** How many steps a pop can still make before it sleeps or ends. */
  ghost function PopLeft(p: Pc): nat {
    match p
    case ConsumeLock => 8
    case Woken => 8
    case ConsumeTest => 7
    case ConsumeLoad => 6
    case ConsumeStore(_) => 5
    case ConsumeUnLock => 4
    case PopLock => 3
    case PopDeQueue => 2
    case PopUnLock(_) => 1
    case _ => 0
  }

  /** One step of a push outweighs all the readers its signal can wake. */
  ghost function Left(p: Pc, n: nat): nat {
    PushLeft(p) * (8 * n + 1) + PopLeft(p)
  }

  ghost function Lefts(pc: map<Tid, Pc>, n: nat): map<Tid, nat> {
    map t | t in pc :: Left(pc[t], n)
  }

  ghost function Rank(pc: map<Tid, Pc>): nat {
    Total(Lefts(pc, |pc|))
  }

  lemma ActLeft(t: Tid, p: Pc, a: Shared, q: Pc, b: Shared)
    requires Act(t, p, a, q, b) && Busy(p)
    ensures PushLeft(q) <= PushLeft(p)
    ensures p == WakeUp ==> PushLeft(q) + 1 == PushLeft(p) && PopLeft(q) == PopLeft(p)
    ensures p != WakeUp ==>
      if PushLeft(q) < PushLeft(p) then PopLeft(q) == PopLeft(p) else PopLeft(q) < PopLeft(p)
  {
  }

  /** Either a whole push step is gone, or at least something of a pop. */
  lemma LeftFalls(p: Pc, q: Pc, n: nat)
    requires PushLeft(q) <= PushLeft(p)
    requires if PushLeft(q) < PushLeft(p) then PopLeft(q) == PopLeft(p) else PopLeft(q) < PopLeft(p)
    ensures Left(q, n) < Left(p, n)
    ensures PushLeft(q) < PushLeft(p) ==> Left(q, n) + 8 * n < Left(p, n)
  {
    hide PushLeft, PopLeft;
    if PushLeft(q) < PushLeft(p) {
      Multiples(PushLeft(q), PushLeft(p), 8 * n + 1);
    }
  }

  lemma WakeLeft(pc: map<Tid, Pc>, w: set<Tid>, n: nat)
    requires w <= Waiters(pc)
    ensures Total(Lefts(Wake(pc, w), n)) <= Total(Lefts(pc, n)) + 8 * |pc|
    ensures w == {} ==> Wake(pc, w) == pc
  {
    var v := Wake(pc, w);
    assert w == {} ==> v == pc;
    forall t <- pc ensures Left(v[t], n) <= Left(pc[t], n) + 8 {
    }
    hide Left;
    assert |Lefts(pc, n)| == |pc| by {
      assert Lefts(pc, n).Keys == pc.Keys;
    }
    TotalGrows(Lefts(pc, n), Lefts(v, n), 8);
  }

  /** A step that is neither a new call nor a spurious wakeup. */
  ghost predicate Quiet(s: State, r: State) {
    exists t, w :: t in s.pc && Busy(s.pc[t]) && Step(s, r, t, w)
  }

  lemma QuietStep(s: State, r: State)
    requires Quiet(s, r)
    ensures Rank(r.pc) < Rank(s.pc) && r.pc.Keys == s.pc.Keys
  {
    hide Act, Left, PushLeft, PopLeft, Lefts;
    var t, w :| t in s.pc && Busy(s.pc[t]) && Step(s, r, t, w);
    var p, q, v, n := s.pc[t], r.pc[t], Wake(s.pc, w), |s.pc|;
    ActLeft(t, p, s.sh, q, r.sh);
    LeftFalls(p, q, n);
    assert v[t] == p && w <= Waiters(s.pc) && (p != WakeUp ==> w == {});
    hide Busy, Wake, Waiters;
    WakeLeft(s.pc, w, n);
    GoLeft(v, t, q, n);
    SameSize(s.pc, r.pc);
  }

  lemma GoLeft(pc: map<Tid, Pc>, t: Tid, q: Pc, n: nat)
    requires t in pc
    ensures Total(Lefts(pc[t := q], n)) + Left(pc[t], n) == Total(Lefts(pc, n)) + Left(q, n)
  {
    hide Left;
    assert Lefts(pc[t := q], n) == Lefts(pc, n)[t := Left(q, n)];
    TotalGo(Lefts(pc, n), t, Left(q, n));
  }

  lemma SameSize(pc: map<Tid, Pc>, r: map<Tid, Pc>)
    requires r.Keys == pc.Keys
    ensures |r| == |pc|
  {
    assert |r| == |r.Keys| && |pc| == |pc.Keys|;
  }

  ghost predicate QuietAt(run: seq<State>, i: nat)
    requires 0 < i < |run|
  {
    Quiet(run[i - 1], run[i])
  }

  /** Without new calls and spurious wakeups no run goes on for ever: its length is bounded by
      what the threads had left to do. */
  lemma {:induction false} QuietRunsEnd(run: seq<State>, i: nat, j: nat)
    requires i <= j < |run| && forall k | i < k <= j :: QuietAt(run, k)
    ensures j - i + Rank(run[j].pc) <= Rank(run[i].pc)
    decreases j
  {
    if i < j {
      QuietRunsEnd(run, i, j - 1);
      assert QuietAt(run, j);
      QuietStep(run[j - 1], run[j]);
    }
  }

  lemma OneQuietStep(run: seq<State>, r: State)
    requires Run(run) && run != [] && Quiet(run[|run| - 1], r)
    ensures Run(run + [r]) && QuietAt(run + [r], |run|)
  {
    var next := run + [r];
    hide Quiet, Init, Step;
    forall i | 0 < i < |next| ensures NextAt(next, i) {
      if i < |run| {
        assert NextAt(run, i);
      } else {
        QuietIsNext(run[|run| - 1], r);
      }
    }
  }

  lemma QuietIsNext(s: State, r: State)
    requires Quiet(s, r)
    ensures Next(s, r)
  {
  }

  ghost predicate NobodyBusy(s: State) {
    forall t <- s.pc :: !Busy(s.pc[t])
  }

  /** Nobody is busy, whoever sleeps does so beside an empty queue, and all calls that can be
      served have been. */
  ghost predicate Rests(s: State) {
    && NobodyBusy(s) && ServesAll(s.sh)
    && ((exists t <- s.pc :: s.pc[t] == Waiting) ==> s.sh.queue == [] && s.sh.popped == s.sh.pushed)
  }

  lemma RestIsFine(run: seq<State>)
    requires Run(run) && run != [] && NobodyBusy(run[|run| - 1])
    ensures Rests(run[|run| - 1])
  {
    hide Run, Busy, ServesAll;
    var s := run[|run| - 1];
    RestServesAll(run, |run| - 1);
    if t :| t in s.pc && s.pc[t] == Waiting {
      SleepOnlyWhenEmpty(run, |run| - 1, t);
    }
  }

  ghost predicate QuietFrom(run: seq<State>, i: nat)
    requires 0 < i
  {
    forall k | i <= k < |run| :: QuietAt(run, k)
  }

  /** From every reachable state quiet steps lead to rest. */
  lemma {:induction false} ComesToRest(run: seq<State>) returns (end: seq<State>)
    requires Run(run) && run != []
    ensures Run(end) && run <= end && QuietFrom(end, |run|) && Rests(end[|end| - 1])
    decreases Rank(run[|run| - 1].pc)
  {
    hide *;
    if NobodyBusy(run[|run| - 1]) {
      end := run;
      RestIsFine(run);
      AlreadyQuiet(run);
    } else {
      var r := QuietNext(run);
      OneQuietStep(run, r);
      QuietStep(run[|run| - 1], r);
      end := ComesToRest(run + [r]);
      QuietOnward(run, r, end);
    }
  }

  lemma AlreadyQuiet(run: seq<State>)
    requires run != []
    ensures QuietFrom(run, |run|)
  {
  }

  lemma QuietOnward(run: seq<State>, r: State, end: seq<State>)
    requires run != [] && run + [r] <= end && QuietAt(run + [r], |run|) && QuietFrom(end, |run| + 1)
    ensures run <= end && QuietFrom(end, |run|)
  {
    hide Quiet;
    assert end[|run| - 1] == (run + [r])[|run| - 1] && end[|run|] == (run + [r])[|run|];
    assert QuietAt(end, |run|);
  }

  lemma QuietNext(run: seq<State>) returns (r: State)
    requires Run(run) && run != [] && !NobodyBusy(run[|run| - 1])
    ensures Quiet(run[|run| - 1], r)
  {
    hide Act, Step;
    var s := run[|run| - 1];
    var t0 :| t0 in s.pc && Busy(s.pc[t0]);
    var t, w;
    t, r, w := SomebodyCanStep(run, |run| - 1, t0);
  }
}
