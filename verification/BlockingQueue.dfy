/** The blocking queue as a protocol: one mutex, one condition variable, notify_one after a push. */
module BlockingQueue {
  import opened Wrappers

  type Thread = nat

  /** What a thread that has called a blocking method still has to do. */
  datatype Task<T> = PushBack(value: T) | PushFront(value: T) | Pop

  /** capacity: the most items the deque can hold. asleep: blocked in wait. woken: notified or
      spuriously woken, still to reacquire the mutex and check its predicate again. */
  datatype State<T> = State(
    maxSize: int,
    capacity: nat,
    queue: seq<T>,
    asleep: map<Thread, Task<T>>,
    woken: map<Thread, Task<T>>)

  /** The step of a thread whose critical section runs now, or of a sleeper that wakes unasked. A
      push names the sleeper its notify_one picks, if any is asleep. */
  datatype Event<T> =
    | Enter(thread: Thread, task: Task<T>, notified: Option<Thread>)
    | Resume(thread: Thread, notified: Option<Thread>)
    | Spurious(thread: Thread)
    | Clear

  const SIZE_RANGE := 0x1_0000_0000_0000_0000 // 2^64

  /** The predicate a push waits for: the int bound is converted to size_t for the comparison. */
  predicate MayPush(maxSize: int, size: nat) {
    maxSize == 0 || size < maxSize % SIZE_RANGE
  }

  predicate Ready<T>(s: State<T>, task: Task<T>) {
    if task.Pop? then s.queue != [] else MayPush(s.maxSize, |s.queue|)
  }

  /** notify_one: some sleeper, if there is one, is moved to the woken threads. */
  ghost predicate Notified<T>(s: State<T>, notified: Option<Thread>, s': State<T>) {
    if notified.Some? then
      notified.value in s.asleep && s' == s.(asleep := s.asleep - {notified.value},
                                             woken := s.woken[notified.value := s.asleep[notified.value]])
    else
      s.asleep == map[] && s' == s
  }

  /** A push that the deque has no room for throws, and its thread is gone. */
  predicate Throws<T>(s: State<T>, task: Task<T>) {
    !task.Pop? && Ready(s, task) && |s.queue| >= s.capacity
  }

  /** The critical section of thread t from the check of its predicate on. */
  ghost predicate Section<T>(s: State<T>, t: Thread, task: Task<T>, notified: Option<Thread>, s': State<T>) {
    if !Ready(s, task) then
      s' == s.(asleep := s.asleep[t := task])
    else if Throws(s, task) then
      s' == s
    else match task
      case PushBack(v) => Notified(s.(queue := s.queue + [v]), notified, s')
      case PushFront(v) => Notified(s.(queue := [v] + s.queue), notified, s')
      case Pop => s' == s.(queue := s.queue[1..])
  }

  ghost predicate Step<T>(s: State<T>, event: Event<T>, s': State<T>) {
    match event
    case Enter(t, task, notified) =>
      t !in s.asleep && t !in s.woken && Section(s, t, task, notified, s')
    case Resume(t, notified) =>
      t in s.woken && Section(s.(woken := s.woken - {t}), t, s.woken[t], notified, s')
    case Spurious(t) =>
      t in s.asleep && s' == s.(asleep := s.asleep - {t}, woken := s.woken[t := s.asleep[t]])
    case Clear =>
      s' == s.(queue := [])
  }

  ghost predicate Run<T>(maxSize: int, capacity: nat, states: seq<State<T>>, events: seq<Event<T>>) {
    && |states| == |events| + 1
    && states[0] == State(maxSize, capacity, [], map[], map[])
    && forall i: nat | i < |events| :: Step(states[i], events[i], states[i + 1])
  }

  // ---------- The monitor ----------

  /** The queue object, together with the bookkeeping of its condition variable. */
  class ThreadSafeQueue<T> {
    const maxSize: int
    const capacity: nat
    var dataQueue: seq<T>
    var asleep: map<Thread, Task<T>>
    var woken: map<Thread, Task<T>>

    constructor (maxSize: int, capacity: nat)
      ensures Now() == State(maxSize, capacity, [], map[], map[])
    {
      this.maxSize, this.capacity, dataQueue, asleep, woken := maxSize, capacity, [], map[], map[];
    }

    ghost function Now(): State<T>
      reads this
    {
      State(maxSize, capacity, dataQueue, asleep, woken)
    }

    /** A thread calls push_blocking, push_front_blocking or a blocking pop and gets the mutex. */
    method Enter(t: Thread, task: Task<T>) returns (popped: Option<T>, threw: bool, ghost notified: Option<Thread>)
      requires t !in asleep && t !in woken
      modifies this
      ensures Step(old(Now()), Event.Enter(t, task, notified), Now())
      ensures popped == Delivered(old(Now()), task) && threw == Throws(old(Now()), task)
    {
      popped, threw, notified := FromWait(t, task);
    }

    /** A woken thread gets the mutex back. */
    method Resume(t: Thread) returns (popped: Option<T>, threw: bool, ghost notified: Option<Thread>)
      requires t in woken
      modifies this
      ensures Step(old(Now()), Event.Resume(t, notified), Now())
      ensures popped == Delivered(old(Now()), old(woken)[t]) && threw == Throws(old(Now()), old(woken)[t])
    {
      var task := woken[t];
      woken := woken - {t};
      popped, threw, notified := FromWait(t, task);
    }

    method ClearQueue()
      modifies this`dataQueue
      ensures Step(old(Now()), Clear, Now())
    {
      dataQueue := [];
    }

    /** cond_var.wait(lock, predicate) and what follows it up to the release of the mutex. */
    method FromWait(t: Thread, task: Task<T>) returns (popped: Option<T>, threw: bool, ghost notified: Option<Thread>)
      modifies this
      ensures Section(old(Now()), t, task, notified, Now())
      ensures popped == Delivered(old(Now()), task) && threw == Throws(old(Now()), task)
    {
      popped, threw, notified := None, false, None;
      match task {
        case PushBack(value) =>
          if !(maxSize == 0 || |dataQueue| < maxSize % SIZE_RANGE) {
            asleep := asleep[t := task];
            return;
          }
          if |dataQueue| >= capacity {
            threw := true;
            return;
          }
          dataQueue := dataQueue + [value];
          notified := NotifyOne();
        case PushFront(value) =>
          if !(maxSize == 0 || |dataQueue| < maxSize % SIZE_RANGE) {
            asleep := asleep[t := task];
            return;
          }
          if |dataQueue| >= capacity {
            threw := true;
            return;
          }
          dataQueue := [value] + dataQueue;
          notified := NotifyOne();
        case Pop =>
          if dataQueue == [] {
            asleep := asleep[t := task];
            return;
          }
          popped := Some(dataQueue[0]);
          dataQueue := dataQueue[1..];
      }
    }

    method NotifyOne() returns (ghost notified: Option<Thread>)
      modifies this`asleep, this`woken
      ensures Notified(old(Now()), notified, Now())
    {
      notified := None;
      if asleep != map[] {
        assert asleep.Keys != {};
        var t :| t in asleep;
        asleep, woken := asleep - {t}, woken[t := asleep[t]];
        notified := Some(t);
      }
    }
  }

  /** What a thread's section hands to its caller. */
  function Delivered<T>(s: State<T>, task: Task<T>): Option<T> {
    if task.Pop? && s.queue != [] then Some(s.queue[0]) else None
  }

  // ---------- The bound ----------

  ghost predicate Bounded<T>(s: State<T>) {
    |s.queue| <= s.capacity && (s.maxSize != 0 ==> |s.queue| <= s.maxSize % SIZE_RANGE)
  }

  lemma StepKeepsBound<T>(s: State<T>, event: Event<T>, s': State<T>)
    requires Step(s, event, s') && Bounded(s)
    ensures s'.maxSize == s.maxSize && s'.capacity == s.capacity && Bounded(s')
  {
  }

  /** In every reachable state the queue holds at most max_size items if that is positive, and never more
      than the deque can. */
  lemma {:induction false} BoundKept<T>(maxSize: int, capacity: nat, states: seq<State<T>>, events: seq<Event<T>>,
                                        i: nat)
    requires Run(maxSize, capacity, states, events) && i <= |events| && maxSize < SIZE_RANGE
    ensures states[i].maxSize == maxSize && states[i].capacity == capacity && Bounded(states[i])
    ensures |states[i].queue| <= capacity && (maxSize > 0 ==> |states[i].queue| <= maxSize)
  {
    if i > 0 {
      BoundKept(maxSize, capacity, states, events, i - 1);
      StepKeepsBound(states[i - 1], events[i - 1], states[i]);
    }
  }

  // ---------- No lost wake-up ----------

  /** The predicate of a push never fails while the deque has room: the queue is unbounded, or its
      bound, as converted, is more than the deque can hold. */
  predicate NeverBlocks(maxSize: int, capacity: nat) {
    maxSize == 0 || capacity < maxSize % SIZE_RANGE
  }

  ghost predicate OnlyPops<T>(tasks: map<Thread, Task<T>>) {
    forall t | t in tasks :: tasks[t].Pop?
  }

  /** Only consumers ever sleep, and while one does, at least as many threads are awake to look again
      as there are items. */
  ghost predicate Inv<T>(s: State<T>) {
    && NeverBlocks(s.maxSize, s.capacity) && |s.queue| <= s.capacity
    && OnlyPops(s.asleep) && OnlyPops(s.woken)
    && s.asleep.Keys !! s.woken.Keys
    && (s.asleep != map[] ==> |s.woken| >= |s.queue|)
  }

  /** The section of a thread that has just been woken, and was counted among the woken, or of one
      that has just called. */
  lemma SectionKeepsInv<T>(s: State<T>, t: Thread, task: Task<T>, resumed: bool, notified: Option<Thread>, s': State<T>)
    requires NeverBlocks(s.maxSize, s.capacity) && |s.queue| <= s.capacity
    requires OnlyPops(s.asleep) && OnlyPops(s.woken) && s.asleep.Keys !! s.woken.Keys
    requires t !in s.asleep && t !in s.woken && (resumed ==> task.Pop?)
    requires s.asleep != map[] ==> |s.woken| + (if resumed then 1 else 0) >= |s.queue|
    requires Section(s, t, task, notified, s')
    ensures Inv(s')
  {
  }

  lemma StepKeepsInv<T>(s: State<T>, event: Event<T>, s': State<T>)
    requires Inv(s) && Step(s, event, s')
    ensures Inv(s')
  {
    match event
    case Enter(t, task, notified) =>
      SectionKeepsInv(s, t, task, false, notified, s');
    case Resume(t, notified) =>
      ResumeKeepsInv(s, t, notified, s');
    case Spurious(t) =>
      assert s'.woken.Keys == s.woken.Keys + {t};
      assert |s'.woken.Keys| == |s.woken.Keys| + 1;
    case Clear =>
  }

  lemma ResumeKeepsInv<T>(s: State<T>, t: Thread, notified: Option<Thread>, s': State<T>)
    requires Inv(s) && Step(s, Resume(t, notified), s')
    ensures Inv(s')
  {
    var rest := s.woken - {t};
    assert rest.Keys == s.woken.Keys - {t};
    assert |rest.Keys| == |s.woken.Keys| - 1;
    SectionKeepsInv(s.(woken := rest), t, s.woken[t], true, notified, s');
  }

  lemma {:induction false} RunKeepsInv<T>(maxSize: int, capacity: nat, states: seq<State<T>>, events: seq<Event<T>>,
                                          i: nat)
    requires Run(maxSize, capacity, states, events) && NeverBlocks(maxSize, capacity) && i <= |events|
    ensures Inv(states[i])
  {
    if i > 0 {
      RunKeepsInv(maxSize, capacity, states, events, i - 1);
      StepKeepsInv(states[i - 1], events[i - 1], states[i]);
    }
  }

  /** While a consumer sleeps and there is an item, some woken thread's next section takes an item. */
  lemma SomeoneTakesIt<T>(maxSize: int, capacity: nat, states: seq<State<T>>, events: seq<Event<T>>, i: nat)
    requires Run(maxSize, capacity, states, events) && NeverBlocks(maxSize, capacity) && i <= |events|
    requires states[i].asleep != map[] && states[i].queue != []
    ensures exists t :: t in states[i].woken && Popped(states[i], Resume(t, None)) == [states[i].queue[0]]
  {
    var s := states[i];
    RunKeepsInv(maxSize, capacity, states, events, i);
    assert s.woken.Keys != {};
    var t :| t in s.woken;
    assert s.woken[t].Pop?;
    assert Popped(s, Resume(t, None)) == [s.queue[0]];
  }

  /** A wake-up has been lost: a thread sleeps although it could go on, and nobody is about to wake. */
  ghost predicate Stuck<T>(s: State<T>) {
    s.woken == map[] && exists t :: t in s.asleep && Ready(s, s.asleep[t])
  }

  ghost predicate CanGetStuck<T(!new)>(maxSize: int, capacity: nat) {
    exists states: seq<State<T>>, events: seq<Event<T>>, i: nat ::
      Run(maxSize, capacity, states, events) && i < |states| && Stuck(states[i])
  }

  lemma RunAppend<T>(maxSize: int, capacity: nat, states: seq<State<T>>, events: seq<Event<T>>, event: Event<T>,
                     s': State<T>)
    requires Run(maxSize, capacity, states, events) && Step(states[|events|], event, s')
    ensures Run(maxSize, capacity, states + [s'], events + [event])
  {
    var states', events' := states + [s'], events + [event];
    forall i: nat | i < |events'|
      ensures Step(states'[i], events'[i], states'[i + 1])
    {
      if i < |events| {
        assert Step(states[i], events[i], states[i + 1]);
      }
    }
  }

  /** One producer fills the queue with k items. */
  lemma {:induction false} FillingRun<T>(maxSize: int, capacity: nat, k: nat, x: T)
      returns (states: seq<State<T>>, events: seq<Event<T>>)
    requires k <= maxSize % SIZE_RANGE && k <= capacity
    ensures Run(maxSize, capacity, states, events)
    ensures states[|events|] == State(maxSize, capacity, seq(k, _ => x), map[], map[])
  {
    if k == 0 {
      states, events := [State(maxSize, capacity, [], map[], map[])], [];
    } else {
      states, events := FillingRun(maxSize, capacity, k - 1, x);
      var s' := State(maxSize, capacity, seq(k, _ => x), map[], map[]);
      assert seq(k, _ => x) == seq(k - 1, _ => x) + [x];
      RunAppend(maxSize, capacity, states, events, Enter(0, PushBack(x), None), s');
      states, events := states + [s'], events + [Enter(0, PushBack(x), None)];
    }
  }

  /** With a bound that the deque can reach a producer can sleep although there is room, with nobody
      awake: pops do not notify. */
  lemma BoundedGetsStuck<T(!new)>(maxSize: int, capacity: nat, x: T)
    requires 0 < maxSize % SIZE_RANGE <= capacity
    ensures CanGetStuck<T>(maxSize, capacity)
  {
    var bound := maxSize % SIZE_RANGE;
    var full := seq(bound, _ => x);
    var states, events := FillingRun(maxSize, capacity, bound, x);
    var s1 := State(maxSize, capacity, full, map[1 := PushBack(x)], map[]);
    RunAppend(maxSize, capacity, states, events, Enter(1, PushBack(x), None), s1);
    states, events := states + [s1], events + [Enter(1, PushBack(x), None)];
    var s2 := State(maxSize, capacity, full[1..], map[1 := PushBack(x)], map[]);
    RunAppend(maxSize, capacity, states, events, Enter(2, Pop, None), s2);
    states, events := states + [s2], events + [Enter(2, Pop, None)];
    assert 1 in s2.asleep && Ready(s2, s2.asleep[1]);
    assert Stuck(states[|states| - 1]);
  }

  /** No wake-up is ever lost, for any number of threads and with spurious wake-ups, exactly when the
      bound is 0 or out of the deque's reach. */
  lemma NoLostWakeUp<T(!new)>(maxSize: int, capacity: nat, x: T)
    requires -0x8000_0000 <= maxSize < 0x8000_0000
    ensures !CanGetStuck<T>(maxSize, capacity) <==> NeverBlocks(maxSize, capacity)
  {
    if NeverBlocks(maxSize, capacity) {
      forall states: seq<State<T>>, events: seq<Event<T>>, i: nat |
             Run(maxSize, capacity, states, events) && i < |states|
        ensures !Stuck(states[i])
      {
        RunKeepsInv(maxSize, capacity, states, events, i);
      }
    } else {
      BoundedGetsStuck(maxSize, capacity, x);
    }
  }

  /** For a deque that holds between 2^31 and 2^63 items: exactly the positive bounds lose wake-ups. */
  lemma PositiveBoundsGetStuck<T(!new)>(maxSize: int, capacity: nat, x: T)
    requires -0x8000_0000 <= maxSize < 0x8000_0000 && 0x8000_0000 <= capacity <= SIZE_RANGE / 2
    ensures CanGetStuck<T>(maxSize, capacity) <==> maxSize > 0
  {
    NoLostWakeUp(maxSize, capacity, x);
  }

  // ---------- Order and conservation ----------

  /** What the thread whose section the event runs was called to do. */
  function Runs<T>(s: State<T>, event: Event<T>): Option<Task<T>> {
    match event
    case Enter(_, task, _) => Some(task)
    case Resume(t, _) => if t in s.woken then Some(s.woken[t]) else None
    case _ => None
  }

  function Pushed<T>(s: State<T>, event: Event<T>): seq<T> {
    var task := Runs(s, event);
    if task.Some? && !task.value.Pop? && Ready(s, task.value) && !Throws(s, task.value) then [task.value.value] else []
  }

  function Popped<T>(s: State<T>, event: Event<T>): seq<T> {
    var task := Runs(s, event);
    if task.Some? && task.value.Pop? && s.queue != [] then [s.queue[0]] else []
  }

  function Cleared<T>(s: State<T>, event: Event<T>): seq<T> {
    if event.Clear? then s.queue else []
  }

  function AllPushed<T>(states: seq<State<T>>, events: seq<Event<T>>, i: nat): seq<T>
    requires i <= |events| <= |states|
  {
    if i == 0 then [] else AllPushed(states, events, i - 1) + Pushed(states[i - 1], events[i - 1])
  }

  function AllPopped<T>(states: seq<State<T>>, events: seq<Event<T>>, i: nat): seq<T>
    requires i <= |events| <= |states|
  {
    if i == 0 then [] else AllPopped(states, events, i - 1) + Popped(states[i - 1], events[i - 1])
  }

  function AllCleared<T>(states: seq<State<T>>, events: seq<Event<T>>, i: nat): seq<T>
    requires i <= |events| <= |states|
  {
    if i == 0 then [] else AllCleared(states, events, i - 1) + Cleared(states[i - 1], events[i - 1])
  }

  function NextQueue<T>(s: State<T>, event: Event<T>): seq<T> {
    var task := Runs(s, event);
    if event.Clear? then []
    else if task.None? || !Ready(s, task.value) || Throws(s, task.value) then s.queue
    else match task.value
      case PushBack(v) => s.queue + [v]
      case PushFront(v) => [v] + s.queue
      case Pop => s.queue[1..]
  }

  lemma QueueStep<T>(s: State<T>, event: Event<T>, s': State<T>)
    requires Step(s, event, s')
    ensures s'.queue == NextQueue(s, event)
  {
  }

  lemma ItemsStep<T>(s: State<T>, event: Event<T>)
    ensures multiset(s.queue) + multiset(Pushed(s, event))
         == multiset(Popped(s, event)) + multiset(Cleared(s, event)) + multiset(NextQueue(s, event))
  {
    if Popped(s, event) != [] {
      assert s.queue == [s.queue[0]] + s.queue[1..];
    }
  }

  lemma ItemsAdd<T>(pushed: seq<T>, popped: seq<T>, cleared: seq<T>, queue: seq<T>,
                    push: seq<T>, pop: seq<T>, clear: seq<T>, queue': seq<T>)
    requires multiset(pushed) == multiset(popped) + multiset(cleared) + multiset(queue)
    requires multiset(queue) + multiset(push) == multiset(pop) + multiset(clear) + multiset(queue')
    ensures multiset(pushed + push) == multiset(popped + pop) + multiset(cleared + clear) + multiset(queue')
  {
    calc {
      multiset(pushed + push);
      multiset(pushed) + multiset(push);
      (multiset(popped) + multiset(cleared)) + (multiset(queue) + multiset(push));
      (multiset(popped) + multiset(cleared)) + (multiset(pop) + multiset(clear) + multiset(queue'));
      (multiset(popped) + multiset(pop)) + (multiset(cleared) + multiset(clear)) + multiset(queue');
    }
  }

  /** Nothing is lost, made up or handed out twice, whatever the bound: the items pushed are those
      popped, those cleared and those still queued. */
  lemma {:induction false} Conservation<T>(maxSize: int, capacity: nat, states: seq<State<T>>, events: seq<Event<T>>,
                                           i: nat)
    requires Run(maxSize, capacity, states, events) && i <= |events|
    ensures multiset(AllPushed(states, events, i))
         == multiset(AllPopped(states, events, i)) + multiset(AllCleared(states, events, i)) + multiset(states[i].queue)
  {
    if i > 0 {
      var s, event := states[i - 1], events[i - 1];
      Conservation(maxSize, capacity, states, events, i - 1);
      QueueStep(s, event, states[i]);
      ItemsStep(s, event);
      ItemsAdd(AllPushed(states, events, i - 1), AllPopped(states, events, i - 1),
               AllCleared(states, events, i - 1), s.queue,
               Pushed(s, event), Popped(s, event), Cleared(s, event), NextQueue(s, event));
    }
  }

  /** An event that neither clears the queue nor pushes in front. */
  predicate KeepsOrder<T>(s: State<T>, event: Event<T>) {
    !event.Clear? && (Runs(s, event).Some? ==> !Runs(s, event).value.PushFront?)
  }

  lemma OrderStep<T>(s: State<T>, event: Event<T>)
    requires KeepsOrder(s, event)
    ensures s.queue + Pushed(s, event) == Popped(s, event) + NextQueue(s, event)
  {
  }

  lemma OrderAdd<T>(pushed: seq<T>, popped: seq<T>, queue: seq<T>, push: seq<T>, pop: seq<T>, queue': seq<T>)
    requires pushed == popped + queue && queue + push == pop + queue'
    ensures pushed + push == (popped + pop) + queue'
  {
    assert pushed + push == popped + (queue + push);
  }

  /** Without push_front_blocking and clear, items come out in the order in which they went in. */
  lemma {:induction false} FirstInFirstOut<T>(maxSize: int, capacity: nat, states: seq<State<T>>,
                                              events: seq<Event<T>>, i: nat)
    requires Run(maxSize, capacity, states, events) && i <= |events|
    requires forall j: nat | j < i :: KeepsOrder(states[j], events[j])
    ensures AllPushed(states, events, i) == AllPopped(states, events, i) + states[i].queue
  {
    if i > 0 {
      FirstInFirstOut(maxSize, capacity, states, events, i - 1);
      var s, event := states[i - 1], events[i - 1];
      QueueStep(s, event, states[i]);
      assert KeepsOrder(s, event);
      OrderStep(s, event);
      OrderAdd(AllPushed(states, events, i - 1), AllPopped(states, events, i - 1), s.queue,
               Pushed(s, event), Popped(s, event), NextQueue(s, event));
    }
  }
}
