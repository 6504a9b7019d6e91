/** The one-minute timing wheel of the HTTP server.

    Slots hold shared references to tasks, an index holds weak ones; a task runs its
    callback when its last reference is dropped.  `Wheel` is that structure, with the
    reference counts being the occurrences in the slots.  Callbacks call the wheel again
    while a slot is being cleared, so a Run is not one step: the wheel is a machine whose
    steps are calls, dropped references and returns of callbacks.  It refines `Plan`, a
    plain map from id to deadline. */
module TimerWheel {

  const CAPACITY: nat := 60
  const UINT32: nat := 0x1_0000_0000

  datatype Task = Task(id: nat, timeout: nat, cancelled: bool)

  /** Between two Runs; in one, clearing the slot; in the callback of a task that is gone but still in the index. */
  datatype Phase = Idle | Clearing | Calling(id: nat)

  /** slots: _wheel, holding handles of tasks; heap: the tasks that are alive; index: _timers (weak);
      made: handles handed out so far; now: how often Run has been called; due: the Run in which a task
      will lose its last reference; fired: handles whose callback has been called, in order. */
  datatype Wheel = Wheel(
    tick: nat,
    slots: seq<seq<nat>>,
    heap: map<nat, Task>,
    index: map<nat, nat>,
    made: nat,
    now: nat,
    due: map<nat, nat>,
    fired: seq<nat>,
    phase: Phase)

  /** The slot a task goes to: unsigned 32-bit addition, then the wheel size. */
  function SlotFor(tick: nat, timeout: nat): nat { (tick + timeout) % UINT32 % CAPACITY }

  /** How many ticks from now that slot is cleared. */
  function Delay(tick: nat, timeout: nat): (d: nat)
    requires tick < CAPACITY
    ensures 1 <= d <= CAPACITY
  {
    var s := SlotFor(tick, timeout);
    if tick < s then s - tick else s + CAPACITY - tick
  }

  lemma DelayReaches(tick: nat, timeout: nat)
    requires tick < CAPACITY
    ensures (tick + Delay(tick, timeout)) % CAPACITY == SlotFor(tick, timeout)
  {
  }

  /** The unsigned addition cannot wrap for this timeout. */
  predicate Sane(timeout: nat) { timeout + CAPACITY <= UINT32 }

  /** For such timeouts the delay does not depend on the tick. */
  lemma DelayConstant(tick: nat, timeout: nat)
    requires tick < CAPACITY && Sane(timeout)
    ensures Delay(tick, timeout) == Delay(0, timeout)
  {
    var q, r := timeout / CAPACITY, timeout % CAPACITY;
    assert timeout == CAPACITY * q + r;
    assert SlotFor(0, timeout) == r;
    if tick + r < CAPACITY {
      assert tick + timeout == CAPACITY * q + (tick + r) && SlotFor(tick, timeout) == tick + r;
    } else {
      assert tick + timeout == CAPACITY * (q + 1) + (tick + r - CAPACITY) &&
        SlotFor(tick, timeout) == tick + r - CAPACITY;
    }
  }

  /** The wheel keeps a timeout exactly when it lies between 1 and the wheel size. */
  lemma DelayIsTimeout(tick: nat, timeout: nat)
    requires tick < CAPACITY && timeout < UINT32
    ensures Delay(tick, timeout) == timeout <==> 1 <= timeout <= 60
  {
    if 1 <= timeout <= CAPACITY {
      assert SlotFor(0, timeout) == if timeout == CAPACITY then 0 else timeout;
      DelayConstant(tick, timeout);
    }
  }

  function NoReferences(): (slots: seq<seq<nat>>)
    ensures |slots| == CAPACITY && forall i :: 0 <= i < CAPACITY ==> slots[i] == []
  {
    seq(CAPACITY, _ => [])
  }

  const EMPTY := Wheel(0, NoReferences(), map[], map[], 0, 0, map[], [], Idle)

  // ---------------------------------------------------------------- calls

  function TimerAdd(w: Wheel, id: nat, timeout: nat): Wheel
    requires |w.slots| == CAPACITY && w.tick < CAPACITY
  {
    var h, i := w.made, SlotFor(w.tick, timeout);
    w.(made := h + 1, heap := w.heap[h := Task(id, timeout, false)], slots := w.slots[i := w.slots[i] + [h]],
       index := w.index[id := h], due := w.due[h := w.now + Delay(w.tick, timeout)])
  }

  /** The index leads to a task that is alive: lock() on the weak reference succeeds. */
  predicate Live(w: Wheel, id: nat) { id in w.index && w.index[id] in w.heap }

  function TimerRefresh(w: Wheel, id: nat): Wheel
    requires |w.slots| == CAPACITY && w.tick < CAPACITY
  {
    if Live(w, id) then
      var h := w.index[id];
      var i := SlotFor(w.tick, w.heap[h].timeout);
      var d := w.now + Delay(w.tick, w.heap[h].timeout);
      w.(slots := w.slots[i := w.slots[i] + [h]], due := if h in w.due && w.due[h] > d then w.due else w.due[h := d])
    else w
  }

  function TimerCancel(w: Wheel, id: nat): Wheel {
    if Live(w, id) then
      var h := w.index[id];
      w.(heap := w.heap[h := w.heap[h].(cancelled := true)])
    else w
  }

  predicate HasTimer(w: Wheel, id: nat) { id in w.index }

  datatype Command = Add(id: nat, timeout: nat) | Refresh(id: nat) | Cancel(id: nat)

  function Do(w: Wheel, c: Command): Wheel
    requires |w.slots| == CAPACITY && w.tick < CAPACITY
  {
    match c
    case Add(id, timeout) => TimerAdd(w, id, timeout)
    case Refresh(id) => TimerRefresh(w, id)
    case Cancel(id) => TimerCancel(w, id)
  }

  // ---------------------------------------------------------------- a Run, step by step

  predicate Referenced(slots: seq<seq<nat>>, h: nat) { exists i :: 0 <= i < |slots| && h in slots[i] }

  /** The first reference of the slot that is being cleared is taken out. */
  function Unlinked(w: Wheel): Wheel
    requires w.tick < |w.slots| && w.slots[w.tick] != []
  {
    w.(slots := w.slots[w.tick := w.slots[w.tick][1..]])
  }

  /** The task of that reference has no other. */
  predicate Dies(w: Wheel)
    requires w.tick < |w.slots| && w.slots[w.tick] != []
  {
    var h := w.slots[w.tick][0];
    h in w.heap && !Referenced(Unlinked(w).slots, h)
  }

  /** Dropping it: with the last reference the task is gone.  If it was cancelled, its index entry goes with it;
      otherwise its callback is called first. */
  function DropFirst(w: Wheel): Wheel
    requires w.tick < |w.slots| && w.slots[w.tick] != []
  {
    var h, w1 := w.slots[w.tick][0], Unlinked(w);
    if !Dies(w) then w1
    else if w.heap[h].cancelled then w1.(heap := w.heap - {h}, index := w.index - {w.heap[h].id})
    else w1.(heap := w.heap - {h}, fired := w.fired + [h], phase := Calling(w.heap[h].id))
  }

  /** Start: Run moves the tick; Drop: one reference; Return: the callback returns and RemoveTimer runs; Finish: the
      slot is empty and Run returns. */
  datatype Step = Call(command: Command) | Start | Drop | Return | Finish

  function Take(w: Wheel, step: Step): Wheel
    requires Possible(w, step)
  {
    match step
    case Call(c) => Do(w, c)
    case Start => w.(tick := (w.tick + 1) % CAPACITY, now := w.now + 1, phase := Clearing)
    case Drop => DropFirst(w)
    case Return => w.(index := w.index - {w.phase.id}, phase := Clearing)
    case Finish => w.(phase := Idle)
  }

  /** The wheel is called between Runs and by callbacks. */
  predicate Possible(w: Wheel, step: Step) {
    && |w.slots| == CAPACITY && w.tick < CAPACITY
    && match step
       case Call(c) => !w.phase.Clearing?
       case Start => w.phase.Idle?
       case Drop => w.phase.Clearing? && w.slots[w.tick] != []
       case Return => w.phase.Calling?
       case Finish => w.phase.Clearing? && w.slots[w.tick] == []
  }

  /** A reference for this timeout does not go to the slot that is being cleared. */
  predicate Roomy(w: Wheel, timeout: nat) { w.phase.Idle? || SlotFor(w.tick, timeout) != w.tick }

  /** What the wheel asks of its callers: a timer is added only under an id that has none, and no call of a callback
      puts a reference into the slot that is being cleared. */
  predicate Allowed(w: Wheel, c: Command) {
    match c
    case Add(id, timeout) => !HasTimer(w, id) && Sane(timeout) && Roomy(w, timeout)
    case Refresh(id) => Live(w, id) ==> Roomy(w, w.heap[w.index[id]].timeout)
    case Cancel(id) => true
  }

  predicate Legal(w: Wheel, step: Step) { Possible(w, step) && (step.Call? ==> Allowed(w, step.command)) }

  // ---------------------------------------------------------------- invariant

  /** The tick, among the sixty from base on, at which slot i is cleared. */
  function TickOf(base: nat, i: nat): nat
    requires i < CAPACITY
  {
    base + (i + CAPACITY - base % CAPACITY) % CAPACITY
  }

  lemma TickOfFacts(base: nat, i: nat, d: nat)
    requires i < CAPACITY
    ensures base <= TickOf(base, i) < base + CAPACITY && TickOf(base, i) % CAPACITY == i
    ensures base <= d < base + CAPACITY && d % CAPACITY == i ==> d == TickOf(base, i)
  {
  }

  /** Every live task is due within the next sixty ticks from base, has a reference in the slot of that tick,
      and none later; slots refer to live tasks only. */
  ghost predicate Linked(w: Wheel, base: nat) {
    && |w.slots| == CAPACITY
    && (forall h :: h in w.heap ==>
      h in w.due && base <= w.due[h] < base + CAPACITY && h in w.slots[w.due[h] % CAPACITY])
    && (forall i: nat, h :: i < CAPACITY && h in w.slots[i] ==>
      h in w.heap && h in w.due && TickOf(base, i) <= w.due[h])
  }

  /** In a Run the current slot still stands for the current tick. */
  function Base(w: Wheel): nat { if w.phase.Idle? then w.now + 1 else w.now }

  /** The index holds exactly the live tasks, one per id, and the one whose callback is running. */
  ghost predicate Indexed(w: Wheel) {
    && (forall id :: id in w.index && w.phase != Calling(id) ==> w.index[id] in w.heap && w.heap[w.index[id]].id == id)
    && (forall h :: h in w.heap ==> w.heap[h].id in w.index && w.index[w.heap[h].id] == h)
    && (w.phase.Calling? ==>
      w.phase.id in w.index && w.index[w.phase.id] !in w.heap && w.index[w.phase.id] < w.made)
  }

  ghost predicate Logged(w: Wheel) {
    && (forall h :: h in w.heap ==> h < w.made)
    && (forall k :: 0 <= k < |w.fired| ==> w.fired[k] < w.made && w.fired[k] !in w.heap)
    && (forall j, k :: 0 <= j < k < |w.fired| ==> w.fired[j] != w.fired[k])
  }

  ghost predicate Valid(w: Wheel) { w.tick == w.now % CAPACITY && Linked(w, Base(w)) && Logged(w) }

  /** A refresh now would not bring any deadline forward. */
  ghost predicate Punctual(w: Wheel) {
    forall h :: h in w.heap ==> Sane(w.heap[h].timeout) && h in w.due && w.due[h] <= w.now + Delay(0, w.heap[h].timeout)
  }

  ghost predicate Inv(w: Wheel) { Valid(w) && Indexed(w) && Punctual(w) }

  type Running = w: Wheel | Inv(w) ghost witness EMPTY

  lemma EmptyInv()
    ensures Inv(EMPTY)
  {
  }

  // ---------------------------------------------------------------- calls keep it

  /** A slot chosen now is the one cleared Delay ticks later. */
  lemma DueSlot(w: Wheel, timeout: nat)
    requires w.tick == w.now % CAPACITY
    ensures var d := w.now + Delay(w.tick, timeout);
      && d % CAPACITY == SlotFor(w.tick, timeout)
      && (d < Base(w) + CAPACITY <==> Roomy(w, timeout))
      && (Roomy(w, timeout) ==> TickOf(Base(w), SlotFor(w.tick, timeout)) == d)
  {
    DelayReaches(w.tick, timeout);
    var d := w.now + Delay(w.tick, timeout);
    assert w.now == w.now / CAPACITY * CAPACITY + w.tick;
    assert d % CAPACITY == (w.tick + Delay(w.tick, timeout)) % CAPACITY;
    TickOfFacts(Base(w), SlotFor(w.tick, timeout), d);
  }

  /** Pushing a reference to h into the slot of tick d, and moving h's deadline to d if that is later. */
  lemma LinkMore(w: Wheel, w': Wheel, b: nat, i: nat, h: nat, d: nat)
    requires Linked(w, b) && i < CAPACITY && d == TickOf(b, i) && b <= d < b + CAPACITY
    requires d % CAPACITY == i && w'.slots == w.slots[i := w.slots[i] + [h]] && w'.heap.Keys == w.heap.Keys + {h}
    requires w'.due == if h in w.heap && h in w.due && w.due[h] > d then w.due else w.due[h := d]
    ensures Linked(w', b)
  {
    forall x | x in w'.heap
      ensures x in w'.due && b <= w'.due[x] < b + CAPACITY && x in w'.slots[w'.due[x] % CAPACITY]
    {
      LinkedMore(w, w', b, i, h, d, x);
    }
    forall j: nat, x | j < CAPACITY && x in w'.slots[j]
      ensures x in w'.heap && x in w'.due && TickOf(b, j) <= w'.due[x]
    {
      assert x in w.slots[j] || (j == i && x == h);
    }
  }

  lemma LinkedMore(w: Wheel, w': Wheel, b: nat, i: nat, h: nat, d: nat, x: nat)
    requires Linked(w, b) && i < CAPACITY && b <= d < b + CAPACITY && d % CAPACITY == i
    requires w'.slots == w.slots[i := w.slots[i] + [h]] && w'.heap.Keys == w.heap.Keys + {h} && x in w'.heap
    requires w'.due == if h in w.heap && h in w.due && w.due[h] > d then w.due else w.due[h := d]
    ensures x in w'.due && b <= w'.due[x] < b + CAPACITY
    ensures x in w'.slots[w'.due[x] % CAPACITY]
  {
    if x == h && !(h in w.heap && w.due[h] > d) {
      assert h in w'.slots[i];
    } else {
      assert x in w.slots[w.due[x] % CAPACITY];
    }
  }

  lemma AddLinked(w: Wheel, id: nat, timeout: nat)
    requires Valid(w) && Roomy(w, timeout)
    ensures Linked(TimerAdd(w, id, timeout), Base(w))
  {
    DueSlot(w, timeout);
    var w' := TimerAdd(w, id, timeout);
    LinkMore(w, w', Base(w), SlotFor(w.tick, timeout), w.made, w.now + Delay(w.tick, timeout));
  }

  lemma AddValid(w: Wheel, id: nat, timeout: nat)
    requires Valid(w) && Roomy(w, timeout)
    ensures Valid(TimerAdd(w, id, timeout))
  {
    AddLinked(w, id, timeout);
  }

  lemma AddIndexed(w: Wheel, id: nat, timeout: nat)
    requires Valid(w) && Indexed(w) && !HasTimer(w, id)
    ensures Indexed(TimerAdd(w, id, timeout))
  {
  }

  lemma AddPunctual(w: Wheel, id: nat, timeout: nat)
    requires Valid(w) && Punctual(w) && Sane(timeout)
    ensures Punctual(TimerAdd(w, id, timeout))
    ensures TimerAdd(w, id, timeout).due[w.made] == w.now + Delay(0, timeout)
  {
    DelayConstant(w.tick, timeout);
  }

  lemma AddKeeps(w: Wheel, id: nat, timeout: nat)
    requires Inv(w) && Allowed(w, Add(id, timeout))
    ensures Inv(TimerAdd(w, id, timeout))
  {
    AddValid(w, id, timeout);
    AddIndexed(w, id, timeout);
    AddPunctual(w, id, timeout);
  }

  lemma RefreshLinked(w: Wheel, id: nat)
    requires Valid(w) && Live(w, id) && Roomy(w, w.heap[w.index[id]].timeout)
    ensures Linked(TimerRefresh(w, id), Base(w))
  {
    var timeout := w.heap[w.index[id]].timeout;
    DueSlot(w, timeout);
    LinkMore(w, TimerRefresh(w, id), Base(w), SlotFor(w.tick, timeout), w.index[id], w.now + Delay(w.tick, timeout));
  }

  lemma RefreshValid(w: Wheel, id: nat)
    requires Valid(w) && Live(w, id) && Roomy(w, w.heap[w.index[id]].timeout)
    ensures Valid(TimerRefresh(w, id))
  {
    RefreshLinked(w, id);
  }

  /** The refreshed task is due one delay from now, as Punctual says it never was due later. */
  lemma RefreshDue(w: Wheel, id: nat)
    requires Valid(w) && Punctual(w) && Live(w, id)
    ensures var h := w.index[id];
      h in w.due && TimerRefresh(w, id).due == w.due[h := w.now + Delay(0, w.heap[h].timeout)]
  {
    DelayConstant(w.tick, w.heap[w.index[id]].timeout);
  }

  lemma SameIndexed(w: Wheel, w': Wheel)
    requires Indexed(w) && w'.heap == w.heap && w'.index == w.index && w'.phase == w.phase && w'.made == w.made
    ensures Indexed(w')
  {
  }

  lemma DuePunctual(w: Wheel, w': Wheel, h: nat)
    requires Punctual(w) && h in w.heap && w'.heap == w.heap && w'.now == w.now
    requires w'.due == w.due[h := w.now + Delay(0, w.heap[h].timeout)]
    ensures Punctual(w')
  {
  }

  lemma RefreshKeeps(w: Wheel, id: nat)
    requires Inv(w) && Allowed(w, Refresh(id))
    ensures Inv(TimerRefresh(w, id))
  {
    if Live(w, id) {
      RefreshValid(w, id);
      RefreshDue(w, id);
      DuePunctual(w, TimerRefresh(w, id), w.index[id]);
      SameIndexed(w, TimerRefresh(w, id));
    } else {
      assert TimerRefresh(w, id) == w;
    }
  }

  lemma SameLinked(w: Wheel, w': Wheel, b: nat)
    requires Linked(w, b) && w'.slots == w.slots && w'.due == w.due && w'.heap.Keys == w.heap.Keys
    ensures Linked(w', b)
  {
  }

  lemma SameLogged(w: Wheel, w': Wheel)
    requires Logged(w) && w'.heap.Keys == w.heap.Keys && w'.fired == w.fired && w'.made == w.made
    ensures Logged(w')
  {
  }

  lemma CancelValid(w: Wheel, id: nat)
    requires Valid(w)
    ensures Valid(TimerCancel(w, id))
  {
    var w' := TimerCancel(w, id);
    assert w'.heap.Keys == w.heap.Keys;
    SameLinked(w, w', Base(w));
    SameLogged(w, w');
  }

  lemma CancelKeeps(w: Wheel, id: nat)
    requires Inv(w)
    ensures Inv(TimerCancel(w, id))
  {
    CancelValid(w, id);
  }

  // ---------------------------------------------------------------- the steps of a Run keep it

  lemma StartKeeps(w: Wheel)
    requires Inv(w) && w.phase.Idle?
    ensures Inv(Take(w, Start))
  {
    var w' := Take(w, Start);
    SameLinked(w, w', w.now + 1);
    SameLogged(w, w');
    NextTick(w.tick, w.now);
    StartIndexed(w, w');
  }

  lemma NextTick(tick: nat, now: nat)
    requires tick == now % CAPACITY
    ensures (tick + 1) % CAPACITY == (now + 1) % CAPACITY
  {
  }

  lemma StartIndexed(w: Wheel, w': Wheel)
    requires Indexed(w) && w.phase.Idle? && w'.phase.Clearing? && w'.heap == w.heap && w'.index == w.index
    ensures Indexed(w')
  {
  }

  /** A task other than the one dropped, or one referenced elsewhere, keeps its reference in the slot of its tick. */
  lemma StillLinked(w: Wheel, x: nat)
    requires w.tick == w.now % CAPACITY && Linked(w, w.now) && w.slots[w.tick] != [] && x in DropFirst(w).heap
    ensures x in w.due && x in Unlinked(w).slots[w.due[x] % CAPACITY]
  {
    var s := w.slots[w.tick];
    TickOfFacts(w.now, w.tick, w.now);
    assert s == [s[0]] + s[1..];
    if x == s[0] {
      var i :| 0 <= i < |Unlinked(w).slots| && x in Unlinked(w).slots[i];
      assert x in w.slots[i];
      TickOfFacts(w.now, i, w.due[x]);
      TickOfFacts(w.now, w.due[x] % CAPACITY, w.due[x]);
    }
  }

  lemma StillReferred(w: Wheel, i: nat, x: nat)
    requires Linked(w, w.now) && w.tick < CAPACITY && w.slots[w.tick] != []
    requires i < CAPACITY && x in Unlinked(w).slots[i]
    ensures x in DropFirst(w).heap && x in w.due && TickOf(w.now, i) <= w.due[x]
  {
    assert x in w.slots[i];
    assert Referenced(Unlinked(w).slots, x);
  }

  /** Tasks with a reference beyond this tick survive it. */
  lemma DropLinked(w: Wheel)
    requires w.tick == w.now % CAPACITY && Linked(w, w.now) && w.slots[w.tick] != []
    ensures Linked(DropFirst(w), w.now)
  {
    var w' := DropFirst(w);
    forall x | x in w'.heap ensures x in w'.slots[w'.due[x] % CAPACITY] { StillLinked(w, x); }
    forall i: nat, x | i < CAPACITY && x in w'.slots[i]
      ensures x in w'.heap && x in w'.due && TickOf(w.now, i) <= w'.due[x]
    {
      StillReferred(w, i, x);
    }
  }

  /** The task that dies is due at this tick. */
  lemma DiesDue(w: Wheel)
    requires w.tick == w.now % CAPACITY && Linked(w, w.now) && w.slots[w.tick] != [] && Dies(w)
    ensures var h := w.slots[w.tick][0]; h in w.heap && h in w.due && w.due[h] == w.now
  {
    var h := w.slots[w.tick][0];
    assert h in w.slots[w.tick];
    TickOfFacts(w.now, w.tick, w.now);
    assert h in Unlinked(w).slots[w.due[h] % CAPACITY] || w.due[h] % CAPACITY == w.tick;
    TickOfFacts(w.now, w.tick, w.due[h]);
  }

  lemma DropIndexed(w: Wheel)
    requires Indexed(w) && Logged(w) && w.phase.Clearing? && w.tick < |w.slots| && w.slots[w.tick] != []
    ensures Indexed(DropFirst(w))
  {
  }

  lemma DropLogged(w: Wheel)
    requires Logged(w) && w.tick < |w.slots| && w.slots[w.tick] != []
    ensures Logged(DropFirst(w))
  {
  }

  lemma DropKeeps(w: Wheel)
    requires Inv(w) && Possible(w, Drop)
    ensures Inv(DropFirst(w))
  {
    DropLinked(w);
    DropIndexed(w);
    DropLogged(w);
  }

  lemma ReturnKeeps(w: Wheel)
    requires Inv(w) && w.phase.Calling?
    ensures Inv(Take(w, Return))
  {
  }

  /** Once the current slot is empty, it stands for the tick sixty later. */
  lemma NextWindow(w: Wheel)
    requires w.tick == w.now % CAPACITY && Linked(w, w.now) && w.slots[w.tick] == []
    ensures Linked(w, w.now + 1) && forall h :: h in w.heap ==> w.due[h] != w.now
  {
    forall i: nat, h | i < CAPACITY && h in w.slots[i] ensures TickOf(w.now + 1, i) <= w.due[h] {
      TickOfFacts(w.now, i, TickOf(w.now, i));
      TickOfFacts(w.now + 1, i, TickOf(w.now, i));
      TickOfFacts(w.now, w.tick, w.now);
    }
  }

  lemma FinishKeeps(w: Wheel)
    requires Inv(w) && Possible(w, Finish)
    ensures Inv(Take(w, Finish)) && forall h :: h in w.heap ==> w.due[h] > w.now
  {
    NextWindow(w);
    assert Linked(Take(w, Finish), w.now + 1);
  }

  /** Every call and every step of a Run keeps the wheel in order. */
  lemma StepKeeps(w: Wheel, step: Step)
    requires Inv(w) && Legal(w, step)
    ensures Inv(Take(w, step))
  {
    match step
    case Call(Add(id, timeout)) => AddKeeps(w, id, timeout);
    case Call(Refresh(id)) => RefreshKeeps(w, id);
    case Call(Cancel(id)) => CancelKeeps(w, id);
    case Start => StartKeeps(w);
    case Drop => DropKeeps(w);
    case Return => ReturnKeeps(w);
    case Finish => FinishKeeps(w);
  }

  // ---------------------------------------------------------------- refinement of a plain map

  datatype Entry = Entry(due: nat, delay: nat, cancelled: bool)

  /** What is seen of a step from outside: a call, the start of a Run, the end of a timer, with its callback or
      without, the end of a Run, or nothing. */
  datatype Event = Called(command: Command) | Ticked | Ended(id: nat, ran: bool) | Done | Silent

  function Seen(w: Wheel, step: Step): Event
    requires Possible(w, step)
  {
    match step
    case Call(c) => Called(c)
    case Start => Ticked
    case Drop =>
      if Dies(w) then var t := w.heap[w.slots[w.tick][0]]; Ended(t.id, !t.cancelled) else Silent
    case Return => Silent
    case Finish => Done
  }

  /** What the wheel is for: each id has a deadline. */
  datatype Plan = Plan(now: nat, timers: map<nat, Entry>)
  {
    function After(e: Event): Plan {
      match e
      case Called(Add(id, timeout)) =>
        this.(timers := timers[id := Entry(now + Delay(0, timeout), Delay(0, timeout), false)])
      case Called(Refresh(id)) =>
        if id in timers then this.(timers := timers[id := timers[id].(due := now + timers[id].delay)]) else this
      case Called(Cancel(id)) =>
        if id in timers then this.(timers := timers[id := timers[id].(cancelled := true)]) else this
      case Ticked => this.(now := now + 1)
      case Ended(id, ran) => this.(timers := timers - {id})
      case Done => this
      case Silent => this
    }

    /** A timer ends at its deadline only, with its callback unless it was cancelled; a Run ends when no timer is left
        to end. */
    predicate Admits(e: Event) {
      match e
      case Ended(id, ran) => id in timers && timers[id].due == now && (ran <==> !timers[id].cancelled)
      case Done => forall id :: id in timers ==> timers[id].due > now
      case Called(c) => c.Add? ==> c.id !in timers
      case Ticked => forall id :: id in timers ==> timers[id].due > now
      case Silent => true
    }
  }

  ghost function EntryOf(w: Wheel, h: nat): Entry
    requires h in w.heap && h in w.due
  {
    Entry(w.due[h], Delay(0, w.heap[h].timeout), w.heap[h].cancelled)
  }

  ghost function Abs(w: Wheel): Plan {
    Plan(w.now, map id | id in w.index && w.index[id] in w.heap && w.index[id] in w.due :: EntryOf(w, w.index[id]))
  }

  lemma AbsEntry(w: Wheel, id: nat)
    requires Live(w, id) ==> w.index[id] in w.due
    ensures id in Abs(w).timers <==> Live(w, id)
    ensures Live(w, id) ==> Abs(w).timers[id] == EntryOf(w, w.index[id])
  {
  }

  lemma HasIff(w: Running, id: nat)
    ensures HasTimer(w, id) <==> id in Abs(w).timers || w.phase == Calling(id)
  {
    AbsEntry(w, id);
  }

  /** Every live task has a deadline, and the index leads to it by its own id. */
  ghost predicate Dated(w: Wheel) {
    && (forall h :: h in w.heap ==> h in w.due && w.heap[h].id in w.index && w.index[w.heap[h].id] == h)
    && (forall id :: Live(w, id) ==> w.heap[w.index[id]].id == id)
  }

  lemma InvDated(w: Running)
    ensures Dated(w)
  {
  }

  ghost predicate SameEntry(p: Plan, q: Plan, id: nat) {
    (id in p.timers <==> id in q.timers) && (id in p.timers ==> p.timers[id] == q.timers[id])
  }

  lemma SameEntries(p: Plan, q: Plan)
    requires p.now == q.now && forall id :: SameEntry(p, q, id)
    ensures p == q
  {
    forall id ensures id in p.timers.Keys <==> id in q.timers.Keys { assert SameEntry(p, q, id); }
    forall id | id in p.timers ensures p.timers[id] == q.timers[id] { assert SameEntry(p, q, id); }
    assert p.timers == q.timers;
  }

  lemma AddEntry(w: Running, w': Running, id: nat, timeout: nat, x: nat)
    requires Allowed(w, Add(id, timeout)) && w' == TimerAdd(w, id, timeout)
    ensures SameEntry(Abs(w'), Abs(w).After(Called(Add(id, timeout))), x)
  {
    AddPunctual(w, id, timeout);
    AbsEntry(w, x);
    AbsEntry(w', x);
  }

  /** Adding a timer under an id that has none is adding it to the plan. */
  lemma AddRefines(w: Running, id: nat, timeout: nat)
    requires Allowed(w, Add(id, timeout))
    ensures Inv(TimerAdd(w, id, timeout)) && Abs(TimerAdd(w, id, timeout)) == Abs(w).After(Called(Add(id, timeout)))
    ensures Abs(w).Admits(Called(Add(id, timeout)))
  {
    AddKeeps(w, id, timeout);
    var w': Running := TimerAdd(w, id, timeout);
    forall x ensures SameEntry(Abs(w'), Abs(w).After(Called(Add(id, timeout))), x) { AddEntry(w, w', id, timeout, x); }
    SameEntries(Abs(w'), Abs(w).After(Called(Add(id, timeout))));
    AbsEntry(w, id);
  }

  /** w' differs from w in the slots, and in that the deadline of id is one delay from now. */
  ghost predicate DueMoved(w: Wheel, w': Wheel, id: nat) {
    && w'.heap == w.heap && w'.index == w.index && w'.now == w.now && id in w.index && w.index[id] in w.heap
    && w'.due == w.due[w.index[id] := w.now + Delay(0, w.heap[w.index[id]].timeout)]
  }

  lemma DueMovedEntry(w: Wheel, w': Wheel, id: nat, x: nat)
    requires Dated(w) && DueMoved(w, w', id)
    ensures SameEntry(Abs(w'), Abs(w).After(Called(Refresh(id))), x)
  {
    AbsEntry(w, x);
    AbsEntry(w', x);
  }

  lemma DueMovedRefines(w: Wheel, w': Wheel, id: nat)
    requires Dated(w) && DueMoved(w, w', id)
    ensures Abs(w') == Abs(w).After(Called(Refresh(id)))
  {
    forall x ensures SameEntry(Abs(w'), Abs(w).After(Called(Refresh(id))), x) { DueMovedEntry(w, w', id, x); }
    SameEntries(Abs(w'), Abs(w).After(Called(Refresh(id))));
  }

  lemma RefreshRefines(w: Running, id: nat)
    requires Allowed(w, Refresh(id))
    ensures Inv(TimerRefresh(w, id)) && Abs(TimerRefresh(w, id)) == Abs(w).After(Called(Refresh(id)))
  {
    RefreshKeeps(w, id);
    if Live(w, id) { RefreshMoves(w, id); } else { RefreshNothing(w, id); }
  }

  lemma RefreshMoves(w: Running, id: nat)
    requires Live(w, id)
    ensures Abs(TimerRefresh(w, id)) == Abs(w).After(Called(Refresh(id)))
  {
    InvDated(w);
    RefreshDue(w, id);
    DueMovedRefines(w, TimerRefresh(w, id), id);
  }

  lemma RefreshNothing(w: Wheel, id: nat)
    requires |w.slots| == CAPACITY && w.tick < CAPACITY && !Live(w, id)
    ensures Abs(TimerRefresh(w, id)) == Abs(w).After(Called(Refresh(id)))
  {
    assert TimerRefresh(w, id) == w && id !in Abs(w).timers;
  }

  lemma CancelEntry(w: Wheel, w': Wheel, id: nat, x: nat)
    requires Dated(w) && w' == TimerCancel(w, id)
    ensures SameEntry(Abs(w'), Abs(w).After(Called(Cancel(id))), x)
  {
    AbsEntry(w, x);
    AbsEntry(w, id);
    AbsEntry(w', x);
  }

  lemma CancelRefines(w: Running, id: nat)
    ensures Inv(TimerCancel(w, id)) && Abs(TimerCancel(w, id)) == Abs(w).After(Called(Cancel(id)))
  {
    CancelKeeps(w, id);
    InvDated(w);
    var w' := TimerCancel(w, id);
    forall x ensures SameEntry(Abs(w'), Abs(w).After(Called(Cancel(id))), x) { CancelEntry(w, w', id, x); }
    SameEntries(Abs(w'), Abs(w).After(Called(Cancel(id))));
  }

  /** The live tasks, their ids and their deadlines are the same. */
  lemma SameTimers(w: Wheel, w': Wheel)
    requires Dated(w) && w'.heap == w.heap && w'.due == w.due && forall x :: Live(w', x) <==> Live(w, x)
    requires forall x :: Live(w, x) ==> x in w'.index && w'.index[x] == w.index[x]
    ensures Abs(w').timers == Abs(w).timers
  {
    forall x ensures SameEntry(Abs(w'), Abs(w).(now := w'.now), x) {
      AbsEntry(w, x);
      AbsEntry(w', x);
    }
    SameEntries(Abs(w'), Abs(w).(now := w'.now));
  }

  lemma EndEntry(w: Wheel, w': Wheel, x: nat)
    requires Dated(w) && Possible(w, Drop) && Dies(w) && w' == DropFirst(w)
    ensures SameEntry(Abs(w'), Abs(w).After(Seen(w, Drop)), x)
  {
    var h := w.slots[w.tick][0];
    assert w.index[w.heap[h].id] == h;
    AbsEntry(w, x);
    AbsEntry(w', x);
  }

  /** With its last reference a timer ends in the plan. */
  lemma EndRefines(w: Running)
    requires Possible(w, Drop) && Dies(w)
    ensures Inv(DropFirst(w)) && Abs(w).Admits(Seen(w, Drop)) && Abs(DropFirst(w)) == Abs(w).After(Seen(w, Drop))
  {
    DropKeeps(w);
    DiesDue(w);
    InvDated(w);
    var w' := DropFirst(w);
    AbsEntry(w, w.heap[w.slots[w.tick][0]].id);
    forall x ensures SameEntry(Abs(w'), Abs(w).After(Seen(w, Drop)), x) { EndEntry(w, w', x); }
    SameEntries(Abs(w'), Abs(w).After(Seen(w, Drop)));
  }

  /** Dropping any other reference, starting and ending a Run and the return of a callback change no timer. */
  lemma QuietRefines(w: Running, step: Step)
    requires Possible(w, step) && !step.Call? && (step.Drop? ==> !Dies(w))
    ensures Inv(Take(w, step)) && Abs(w).Admits(Seen(w, step)) && Abs(Take(w, step)) == Abs(w).After(Seen(w, step))
  {
    StepKeeps(w, step);
    InvDated(w);
    SameTimers(w, Take(w, step));
    if step.Finish? { FinishKeeps(w); }
  }

  lemma StepRefines(w: Running, step: Step)
    requires Legal(w, step)
    ensures Inv(Take(w, step)) && Abs(w).Admits(Seen(w, step)) && Abs(Take(w, step)) == Abs(w).After(Seen(w, step))
  {
    match step
    case Call(Add(id, timeout)) => AddRefines(w, id, timeout);
    case Call(Refresh(id)) => RefreshRefines(w, id);
    case Call(Cancel(id)) => CancelRefines(w, id);
    case Drop => if Dies(w) { EndRefines(w); } else { QuietRefines(w, step); }
    case _ => QuietRefines(w, step);
  }

  // ---------------------------------------------------------------- whole runs

  /** A run: any calls between Runs, and any calls by each callback, as long as they are allowed. */
  ghost predicate Plays(w: Wheel, steps: seq<Step>)
    decreases |steps|
  {
    steps == [] || (Legal(w, steps[0]) && Plays(Take(w, steps[0]), steps[1..]))
  }

  ghost function Play(w: Wheel, steps: seq<Step>): Wheel
    requires Plays(w, steps)
    decreases |steps|
  {
    if steps == [] then w else Play(Take(w, steps[0]), steps[1..])
  }

  ghost function Events(w: Wheel, steps: seq<Step>): (es: seq<Event>)
    requires Plays(w, steps)
    ensures |es| == |steps|
    decreases |steps|
  {
    if steps == [] then [] else [Seen(w, steps[0])] + Events(Take(w, steps[0]), steps[1..])
  }

  function AfterAll(p: Plan, es: seq<Event>): Plan
    decreases |es|
  {
    if es == [] then p else AfterAll(p.After(es[0]), es[1..])
  }

  predicate AdmitsAll(p: Plan, es: seq<Event>)
    decreases |es|
  {
    es == [] || (p.Admits(es[0]) && AdmitsAll(p.After(es[0]), es[1..]))
  }

  /** Over every run, callbacks that call the wheel included: what is seen of the wheel is a run of the plan, the wheel
      ends as the plan does, and HasTimer holds for the ids of the plan and for the one whose callback is running. */
  lemma {:induction false} RunRefinesPlan(w: Running, steps: seq<Step>)
    requires Plays(w, steps)
    ensures Inv(Play(w, steps)) && AdmitsAll(Abs(w), Events(w, steps))
    ensures Abs(Play(w, steps)) == AfterAll(Abs(w), Events(w, steps))
    ensures forall id :: HasTimer(Play(w, steps), id) <==>
      id in AfterAll(Abs(w), Events(w, steps)).timers || Play(w, steps).phase == Calling(id)
    decreases |steps|
  {
    if steps == [] {
      forall id ensures HasTimer(w, id) <==> id in Abs(w).timers || w.phase == Calling(id) { HasIff(w, id); }
    } else {
      StepRefines(w, steps[0]);
      RunRefinesPlan(Take(w, steps[0]), steps[1..]);
      assert Events(w, steps)[1..] == Events(Take(w, steps[0]), steps[1..]);
    }
  }

  // ---------------------------------------------------------------- one timer in a run

  /** A timer as a countdown of Runs. */
  datatype Life = Gone | Counting(left: int, delay: nat, cancelled: bool)

  /** What an event does to the timer of id; only calls that name it, Runs and its own end matter. */
  function Lived(l: Life, e: Event, id: nat): Life {
    match e
    case Called(Add(x, timeout)) => if x == id then Counting(Delay(0, timeout), Delay(0, timeout), false) else l
    case Called(Refresh(x)) => if x == id && l.Counting? then l.(left := l.delay) else l
    case Called(Cancel(x)) => if x == id && l.Counting? then l.(cancelled := true) else l
    case Ticked => if l.Counting? then l.(left := l.left - 1) else l
    case Ended(x, ran) => if x == id then Gone else l
    case Done => l
    case Silent => l
  }

  function LivedAll(l: Life, es: seq<Event>, id: nat): Life
    decreases |es|
  {
    if es == [] then l else LivedAll(Lived(l, es[0], id), es[1..], id)
  }

  function LifeIn(p: Plan, id: nat): Life {
    if id in p.timers then Counting(p.timers[id].due - p.now, p.timers[id].delay, p.timers[id].cancelled) else Gone
  }

  lemma {:induction false} LifeFollows(p: Plan, es: seq<Event>, id: nat)
    ensures LifeIn(AfterAll(p, es), id) == LivedAll(LifeIn(p, id), es, id)
    decreases |es|
  {
    if es != [] { LifeFollows(p.After(es[0]), es[1..], id); }
  }

  lemma {:induction false} AdmitsAt(p: Plan, es: seq<Event>, k: nat)
    requires AdmitsAll(p, es) && k < |es|
    ensures AfterAll(p, es[..k]).Admits(es[k])
    decreases k
  {
    if k > 0 {
      AdmitsAt(p.After(es[0]), es[1..], k - 1);
      assert es[..k][1..] == es[1..][..k - 1];
    }
  }

  /** Every run, with calls by anyone at any time counted: a timer ends only when its countdown, set anew by each add
      and refresh, has reached zero, with its callback exactly if it has not been cancelled since it was added; when a
      Run returns no countdown is left at zero; and HasTimer holds exactly while the countdown goes on or the callback
      runs. */
  lemma CountsDown(w: Running, steps: seq<Step>, id: nat, k: nat)
    requires Plays(w, steps) && k <= |steps|
    ensures var es := Events(w, steps);
      var l := LivedAll(LifeIn(Abs(w), id), es[..k], id);
      && (k < |es| && es[k].Ended? && es[k].id == id ==> l.Counting? && l.left == 0 && (es[k].ran <==> !l.cancelled))
      && (k < |es| && es[k].Done? && l.Counting? ==> l.left > 0)
      && (k == |es| ==> (HasTimer(Play(w, steps), id) <==> l.Counting? || Play(w, steps).phase == Calling(id)))
  {
    var es := Events(w, steps);
    RunRefinesPlan(w, steps);
    LifeFollows(Abs(w), es[..k], id);
    if k < |es| { AdmitsAt(Abs(w), es, k); } else { assert es[..k] == es; }
  }

  /** A dead task stays dead and its callback does not run again. */
  lemma DeadStaysDead(w: Running, step: Step, h: nat)
    requires Legal(w, step) && h < w.made && h !in w.heap
    ensures h < Take(w, step).made && h !in Take(w, step).heap && (h in Take(w, step).fired <==> h in w.fired)
  {
  }

  lemma {:induction false} DeadForGood(w: Running, steps: seq<Step>, h: nat)
    requires Plays(w, steps) && h < w.made && h !in w.heap
    ensures h !in Play(w, steps).heap && (h in Play(w, steps).fired <==> h in w.fired)
    decreases |steps|
  {
    if steps != [] {
      StepKeeps(w, steps[0]);
      DeadStaysDead(w, steps[0], h);
      DeadForGood(Take(w, steps[0]), steps[1..], h);
    }
  }

  predicate Renews(step: Step, id: nat) { step.Call? && !step.command.Cancel? && step.command.id == id }

  lemma StepWithout(w: Running, step: Step, id: nat)
    requires Legal(w, step) && !Live(w, id) && !Renews(step, id)
    ensures !Live(Take(w, step), id)
  {
  }

  lemma {:induction false} StaysWithout(w: Running, steps: seq<Step>, id: nat)
    requires Plays(w, steps) && !Live(w, id) && forall i :: 0 <= i < |steps| ==> !Renews(steps[i], id)
    ensures !Live(Play(w, steps), id)
    decreases |steps|
  {
    if steps != [] {
      StepKeeps(w, steps[0]);
      StepWithout(w, steps[0], id);
      StaysWithout(Take(w, steps[0]), steps[1..], id);
    }
  }

  /** The timer of id is the live task h, as before but for the cancellation. */
  ghost predicate Waiting(w: Wheel, w': Wheel, id: nat, h: nat, cancels: bool) {
    && Live(w', id) && w'.index[id] == h && h !in w'.fired
    && h in w.heap && h in w'.heap && w'.heap[h] == w.heap[h].(cancelled := w.heap[h].cancelled || cancels)
    && h in w.due && h in w'.due && w'.due[h] == w.due[h]
  }

  /** Task h is gone, at its tick, and its callback has been called unless it was cancelled. */
  ghost predicate Finished(w: Wheel, w': Wheel, id: nat, h: nat) {
    && !Live(w', id) && h !in w'.heap && h in w.heap && h in w.due && w.due[h] == w.now
    && (h in w'.fired <==> !w.heap[h].cancelled) && h < w'.made
  }

  predicate Ends(e: Event, id: nat) { e.Ended? && e.id == id }

  lemma CallOnTimer(w: Running, c: Command, id: nat)
    requires Legal(w, Call(c)) && Live(w, id) && !Renews(Call(c), id)
    ensures Waiting(w, Do(w, c), id, w.index[id], c == Cancel(id)) && Do(w, c).now == w.now
  {
    if Live(w, c.id) { assert w.heap[w.index[c.id]].id == c.id && w.heap[w.index[id]].id == id; }
  }

  lemma DropOnTimer(w: Running, id: nat)
    requires Possible(w, Drop) && Live(w, id)
    ensures var h, w' := w.index[id], DropFirst(w);
      if Ends(Seen(w, Drop), id) then Finished(w, w', id, h) else Waiting(w, w', id, h, false)
    ensures DropFirst(w).now == w.now
  {
    var h := w.slots[w.tick][0];
    assert w.heap[w.index[id]].id == id;
    if Dies(w) {
      DiesDue(w);
      assert w.index[w.heap[h].id] == h;
    }
  }

  /** What one step does to a timer that it does not renew. */
  lemma StepOnTimer(w: Running, step: Step, id: nat)
    requires Legal(w, step) && Live(w, id) && !Renews(step, id)
    ensures var h, w' := w.index[id], Take(w, step);
      if Ends(Seen(w, step), id) then Finished(w, w', id, h) else Waiting(w, w', id, h, step == Call(Cancel(id)))
    ensures Take(w, step).now == w.now + if step.Start? then 1 else 0
  {
    match step
    case Call(c) => CallOnTimer(w, c, id);
    case Drop => DropOnTimer(w, id);
    case _ =>
  }

  function Ticks(es: seq<Event>): nat { if es == [] then 0 else (if es[0].Ticked? then 1 else 0) + Ticks(es[1..]) }

  /** The id is cancelled, by anyone, before its timer ends. */
  predicate CancelledFirst(es: seq<Event>, id: nat) {
    es != [] && !Ends(es[0], id) && (es[0] == Called(Cancel(id)) || CancelledFirst(es[1..], id))
  }

  /** What has become of task h of id: there until the Run in which it is due, gone when that Run has returned, and gone
      with its callback called unless it was cancelled first. */
  ghost predicate Outcome(w: Wheel, es: seq<Event>, w': Wheel, id: nat, h: nat)
    requires h in w.heap && h in w.due
  {
    var k := w.due[h] - w.now;
    && (Ticks(es) < k ==> Live(w', id) && w'.index[id] == h)
    && (Ticks(es) >= k && w'.phase.Idle? ==> h !in w'.heap)
    && (if h in w'.heap
        then h !in w'.fired && (w'.heap[h].cancelled <==> w.heap[h].cancelled || CancelledFirst(es, id))
        else !Live(w', id) && (h in w'.fired <==> !w.heap[h].cancelled && !CancelledFirst(es, id)))
  }

  /** In any run in which nobody adds or refreshes id again, its timer exists exactly until the Run in which it is due;
      in that Run its callback is called, once, if and only if nobody, no callback of that Run either, has cancelled it
      before. */
  lemma {:induction false} FiresUnlessCancelled(w: Running, steps: seq<Step>, id: nat)
    requires Plays(w, steps) && Live(w, id) && forall i :: 0 <= i < |steps| ==> !Renews(steps[i], id)
    ensures w.index[id] in w.due && Outcome(w, Events(w, steps), Play(w, steps), id, w.index[id])
    decreases |steps|
  {
    var h := w.index[id];
    if steps != [] {
      StepKeeps(w, steps[0]);
      StepOnTimer(w, steps[0], id);
      var w1: Running := Take(w, steps[0]);
      if Ends(Seen(w, steps[0]), id) {
        DeadForGood(w1, steps[1..], h);
        StaysWithout(w1, steps[1..], id);
      } else {
        FiresUnlessCancelled(w1, steps[1..], id);
        OutcomeLater(w, steps[0], w1, Events(w1, steps[1..]), Play(w, steps), id, h);
      }
      assert Events(w, steps)[1..] == Events(w1, steps[1..]);
    }
  }

  lemma OutcomeLater(w: Wheel, step: Step, w1: Wheel, es: seq<Event>, w': Wheel, id: nat, h: nat)
    requires Possible(w, step) && Waiting(w, w1, id, h, step == Call(Cancel(id))) && !Ends(Seen(w, step), id)
    requires w1.now == w.now + (if step.Start? then 1 else 0) && Outcome(w1, es, w', id, h)
    ensures Outcome(w, [Seen(w, step)] + es, w', id, h)
  {
    assert ([Seen(w, step)] + es)[1..] == es;
  }

  // ---------------------------------------------------------------- what callers must not do

  /** The wheel keeps a new or refreshed timer in order exactly when the call is allowed: the id of an add has no timer,
      and a call by a callback does not put a reference into the slot that is being cleared. */
  lemma CallIsSafeIff(w: Running, c: Command)
    requires Possible(w, Call(c)) && (c.Add? ==> Sane(c.timeout))
    ensures Inv(Do(w, c)) <==> Allowed(w, c)
  {
    if Allowed(w, c) {
      StepKeeps(w, Call(c));
    } else if c.Refresh? {
      CrampedRefresh(w, c.id);
    } else if HasTimer(w, c.id) {
      StaleIndex(w, c.id, c.timeout);
    } else {
      CrampedAdd(w, c.id, c.timeout);
    }
  }

  /** A reference in the slot that is being cleared does not last until the deadline. */
  lemma CrampedRefresh(w: Running, id: nat)
    requires Live(w, id) && !Roomy(w, w.heap[w.index[id]].timeout)
    ensures !Linked(TimerRefresh(w, id), w.now)
  {
    DueSlot(w, w.heap[w.index[id]].timeout);
    assert w.index[id] in TimerRefresh(w, id).heap;
  }

  lemma CrampedAdd(w: Running, id: nat, timeout: nat)
    requires !Roomy(w, timeout)
    ensures !Linked(TimerAdd(w, id, timeout), w.now)
  {
    DueSlot(w, timeout);
    assert w.made in TimerAdd(w, id, timeout).heap;
  }

  /** Adding under an id that has a timer, or whose callback is running, leaves an index that does not fit. */
  lemma StaleIndex(w: Running, id: nat, timeout: nat)
    requires HasTimer(w, id)
    ensures !Indexed(TimerAdd(w, id, timeout))
  {
    var w' := TimerAdd(w, id, timeout);
    if Live(w, id) && w.phase != Calling(id) {
      assert w.index[id] in w'.heap && w'.heap[w.index[id]].id == id && w'.index[id] != w.index[id];
    } else {
      assert w.phase == Calling(id) && w'.index[id] in w'.heap;
    }
  }

  /** For the callers: in a Run, that is every timeout but the multiples of sixty. */
  lemma RoomyIff(w: Wheel, timeout: nat)
    requires w.tick < CAPACITY && !w.phase.Idle? && Sane(timeout)
    ensures Roomy(w, timeout) <==> timeout % 60 != 0
  {
    DelayConstant(w.tick, timeout);
    FullTurn(w.tick, timeout);
    FullTurn(0, timeout);
    SlotFromZero(timeout);
  }

  lemma FullTurn(tick: nat, timeout: nat)
    requires tick < CAPACITY
    ensures Delay(tick, timeout) == CAPACITY <==> SlotFor(tick, timeout) == tick
  {
  }

  lemma SlotFromZero(timeout: nat)
    requires Sane(timeout)
    ensures SlotFor(0, timeout) == timeout % CAPACITY
  {
  }

  /** While the callback of a timer runs, HasTimer still holds for it, and its own refresh and cancel do nothing. */
  lemma OwnCallsDoNothing(w: Running, id: nat)
    requires w.phase == Calling(id)
    ensures HasTimer(w, id) && TimerRefresh(w, id) == w && TimerCancel(w, id) == w
  {
  }

  /** Adding keeps the index in step with the live tasks exactly when the id has no timer. */
  lemma FreshIdNeeded(w: Running, id: nat, timeout: nat)
    ensures Indexed(TimerAdd(w, id, timeout)) <==> !HasTimer(w, id)
  {
    if HasTimer(w, id) { StaleIndex(w, id, timeout); } else { AddIndexed(w, id, timeout); }
  }

  /** The deadline: timeout ticks after the add or the refresh, for timeouts between 1 and 60. */
  lemma DeadlineSet(w: Running, id: nat, timeout: nat)
    requires 1 <= timeout <= CAPACITY
    ensures TimerAdd(w, id, timeout).due[TimerAdd(w, id, timeout).index[id]] == w.now + timeout
    ensures Live(w, id) && w.heap[w.index[id]].timeout == timeout ==>
      TimerRefresh(w, id).due[w.index[id]] == w.now + timeout
  {
    DelayIsTimeout(0, timeout);
    AddPunctual(w, id, timeout);
    if Live(w, id) { RefreshDue(w, id); }
  }

  // ---------------------------------------------------------------- a refresh that is not allowed

  /** Two timers of a full turn, n Runs after they were added. */
  function Waited(n: nat): Wheel {
    Wheel(n % CAPACITY, NoReferences()[0 := [0, 1]], map[0 := Task(1, 60, false), 1 := Task(2, 60, false)],
          map[1 := 0, 2 := 1], 2, n, map[0 := 60, 1 := 60], [], Idle)
  }

  lemma {:induction false} PlayOn(w: Wheel, a: seq<Step>, b: seq<Step>)
    requires Plays(w, a) && Plays(Play(w, a), b)
    ensures Plays(w, a + b) && Play(w, a + b) == Play(Play(w, a), b)
    decreases |a|
  {
    if a == [] {
      assert a + b == b;
    } else {
      assert (a + b)[1..] == a[1..] + b;
      PlayOn(Take(w, a[0]), a[1..], b);
    }
  }

  lemma OneStep(w: Wheel, step: Step)
    requires Legal(w, step)
    ensures Plays(w, [step]) && Play(w, [step]) == Take(w, step)
  {
    assert [step][1..] == [];
    assert Plays(Take(w, step), []);
  }

  lemma PlayOne(w: Wheel, a: seq<Step>, step: Step)
    requires Plays(w, a) && Legal(Play(w, a), step)
    ensures Plays(w, a + [step]) && Play(w, a + [step]) == Take(Play(w, a), step)
  {
    OneStep(Play(w, a), step);
    PlayOn(w, a, [step]);
  }

  lemma PairAdded()
    ensures Allowed(EMPTY, Add(1, 60)) && Allowed(TimerAdd(EMPTY, 1, 60), Add(2, 60))
    ensures TimerAdd(TimerAdd(EMPTY, 1, 60), 2, 60) == Waited(0)
  {
    assert [] + [0] == [0] && [0] + [1] == [0, 1];
    assert NoReferences()[0 := [0]][0 := [0, 1]] == NoReferences()[0 := [0, 1]];
  }

  lemma PairWaits(n: nat)
    requires n < CAPACITY - 1
    ensures Legal(Waited(n), Start) && Legal(Take(Waited(n), Start), Finish)
    ensures Take(Take(Waited(n), Start), Finish) == Waited(n + 1)
  {
  }

  lemma {:induction false} Waits(n: nat) returns (steps: seq<Step>)
    requires n < CAPACITY
    ensures Plays(EMPTY, steps) && Play(EMPTY, steps) == Waited(n)
  {
    if n == 0 {
      PairAdded();
      OneStep(EMPTY, Call(Add(1, 60)));
      PlayOne(EMPTY, [Call(Add(1, 60))], Call(Add(2, 60)));
      steps := [Call(Add(1, 60))] + [Call(Add(2, 60))];
    } else {
      var s := Waits(n - 1);
      PairWaits(n - 1);
      PlayOne(EMPTY, s, Start);
      PlayOne(EMPTY, s + [Start], Finish);
      steps := s + [Start] + [Finish];
    }
  }

  /** In their Run, while the callback of the first is running. */
  function PairMeets(): Wheel {
    Wheel(0, NoReferences()[0 := [1]], map[1 := Task(2, 60, false)], map[1 := 0, 2 := 1], 2, 60, map[0 := 60, 1 := 60],
          [0], Calling(1))
  }

  lemma FirstCalled()
    ensures Legal(Waited(59), Start) && Legal(Take(Waited(59), Start), Drop)
    ensures Take(Take(Waited(59), Start), Drop) == PairMeets()
  {
    var w := Take(Waited(59), Start);
    assert w.slots[0] == [0, 1] && w.slots[0][1..] == [1];
    assert Unlinked(w).slots == NoReferences()[0 := [1]];
    assert forall i :: 0 < i < CAPACITY ==> Unlinked(w).slots[i] == [];
    assert w.heap - {0} == map[1 := Task(2, 60, false)];
  }

  /** The callback refreshes the second: its new reference goes to the slot that is being cleared. */
  lemma SecondCalled()
    ensures Possible(PairMeets(), Call(Refresh(2))) && !Allowed(PairMeets(), Refresh(2))
    ensures var w := TimerRefresh(PairMeets(), 2);
      && w.due[1] == 120 && Possible(w, Return) && Possible(Take(w, Return), Drop)
      && Possible(DropFirst(Take(w, Return)), Drop)
      && DropFirst(DropFirst(Take(w, Return))).phase == Calling(2)
  {
    var w := TimerRefresh(PairMeets(), 2);
    assert SlotFor(0, 60) == 0 && [1] + [1] == [1, 1];
    assert w.slots == NoReferences()[0 := [1, 1]];
    var w1 := Take(w, Return);
    assert Unlinked(w1).slots == NoReferences()[0 := [1]] && 1 in Unlinked(w1).slots[0];
    var w2 := DropFirst(w1);
    assert Unlinked(w2).slots == NoReferences()[0 := []];
    assert forall i :: 0 <= i < CAPACITY ==> Unlinked(w2).slots[i] == [];
  }

  /** A run at whose end a callback may refresh a timer that is due in the same Run and has a timeout of 60: that
      timer's callback is called in this Run all the same, sixty Runs before the deadline the refresh has set. */
  lemma RefreshInRunFails() returns (steps: seq<Step>)
    ensures Plays(EMPTY, steps)
    ensures var w := Play(EMPTY, steps);
      && Possible(w, Call(Refresh(2))) && !Allowed(w, Refresh(2))
      && var w1 := TimerRefresh(w, 2);
      && w1.now == 60 && 1 in w1.due && w1.due[1] == 120 && Possible(w1, Return) && Possible(Take(w1, Return), Drop)
      && Possible(DropFirst(Take(w1, Return)), Drop)
      && DropFirst(DropFirst(Take(w1, Return))).phase == Calling(2)
  {
    var s := Waits(59);
    FirstCalled();
    PlayOne(EMPTY, s, Start);
    PlayOne(EMPTY, s + [Start], Drop);
    SecondCalled();
    steps := s + [Start] + [Drop];
  }

  // ---------------------------------------------------------------- a whole Run

  function CallAll(w: Wheel, cs: seq<Command>): (w': Wheel)
    requires |w.slots| == CAPACITY && w.tick < CAPACITY
    ensures |w'.slots| == CAPACITY && w'.tick == w.tick && w'.phase == w.phase && w'.now == w.now
    decreases |cs|
  {
    if cs == [] then w else CallAll(Do(w, cs[0]), cs[1..])
  }

  function First<T>(ss: seq<seq<T>>): seq<T> { if ss == [] then [] else ss[0] }

  function Rest<T>(ss: seq<seq<T>>): seq<seq<T>> { if ss == [] then [] else ss[1..] }

  lemma OneLess(m: map<nat, Task>, h: nat)
    ensures h in m ==> |m - {h}| < |m|
  {
    if h in m {
      assert (m - {h}).Keys == m.Keys - {h};
      assert |m.Keys - {h}| < |m.Keys|;
    }
  }

  predicate InClear(w: Wheel) { |w.slots| == CAPACITY && w.tick < CAPACITY && w.phase.Clearing? }

  /** One reference, with the callback that it may set off, which makes the calls of the first script. */
  function ClearOne(w: Wheel, scripts: seq<seq<Command>>): (r: (Wheel, seq<seq<Command>>))
    requires InClear(w) && w.slots[w.tick] != []
    ensures InClear(r.0) && r.0.now == w.now && |r.1| <= |scripts|
  {
    var w1 := DropFirst(w);
    if w1.phase.Calling? then (Take(CallAll(w1, First(scripts)), Return), Rest(scripts)) else (w1, scripts)
  }

  lemma ClearOneLess(w: Wheel, scripts: seq<seq<Command>>)
    requires InClear(w) && w.slots[w.tick] != []
    ensures var (w1, rest) := ClearOne(w, scripts);
      || |rest| < |scripts|
      || (|rest| == |scripts| && |w1.heap| < |w.heap|)
      || (|rest| == |scripts| && |w1.heap| == |w.heap| && |w1.slots[w1.tick]| < |w.slots[w.tick]|)
  {
    OneLess(w.heap, w.slots[w.tick][0]);
  }

  /** The slot is cleared; the i-th callback that is called makes the calls of scripts[i], a later one none. */
  function Clear(w: Wheel, scripts: seq<seq<Command>>): (w': Wheel)
    requires InClear(w)
    ensures Possible(w', Finish) && w'.now == w.now
    decreases |scripts|, |w.heap|, |w.slots[w.tick]|
  {
    if w.slots[w.tick] == [] then w
    else
      var (w1, rest) := ClearOne(w, scripts);
      ClearOneLess(w, scripts);
      Clear(w1, rest)
  }

  function Run(w: Wheel, scripts: seq<seq<Command>>): Wheel
    requires Possible(w, Start)
  {
    Take(Clear(Take(w, Start), scripts), Finish)
  }

  function Calls(cs: seq<Command>): seq<Step> { if cs == [] then [] else [Call(cs[0])] + Calls(cs[1..]) }

  /** The steps of one reference, of a clear, and of a Run. */
  function OneSteps(w: Wheel, scripts: seq<seq<Command>>): seq<Step>
    requires InClear(w) && w.slots[w.tick] != []
  {
    if DropFirst(w).phase.Calling? then [Drop] + (Calls(First(scripts)) + [Return]) else [Drop]
  }

  function ClearSteps(w: Wheel, scripts: seq<seq<Command>>): seq<Step>
    requires InClear(w)
    decreases |scripts|, |w.heap|, |w.slots[w.tick]|
  {
    if w.slots[w.tick] == [] then []
    else
      var (w1, rest) := ClearOne(w, scripts);
      ClearOneLess(w, scripts);
      OneSteps(w, scripts) + ClearSteps(w1, rest)
  }

  function RunSteps(w: Wheel, scripts: seq<seq<Command>>): seq<Step>
    requires Possible(w, Start)
  {
    [Start] + (ClearSteps(Take(w, Start), scripts) + [Finish])
  }

  /** Splitting a run. */
  lemma {:induction false} PlaySplits(w: Wheel, a: seq<Step>, b: seq<Step>)
    requires Plays(w, a + b)
    ensures Plays(w, a) && Plays(Play(w, a), b) && Play(w, a + b) == Play(Play(w, a), b)
    decreases |a|
  {
    if a == [] {
      assert a + b == b;
    } else {
      assert (a + b)[1..] == a[1..] + b;
      PlaySplits(Take(w, a[0]), a[1..], b);
    }
  }

  lemma {:induction false} CallsPlayed(w: Wheel, cs: seq<Command>)
    requires |w.slots| == CAPACITY && w.tick < CAPACITY && Plays(w, Calls(cs))
    ensures Play(w, Calls(cs)) == CallAll(w, cs)
    decreases |cs|
  {
    if cs != [] {
      assert Calls(cs)[1..] == Calls(cs[1..]);
      CallsPlayed(Do(w, cs[0]), cs[1..]);
    }
  }

  lemma OnePlayed(w: Wheel, scripts: seq<seq<Command>>)
    requires InClear(w) && w.slots[w.tick] != [] && Plays(w, OneSteps(w, scripts))
    ensures Play(w, OneSteps(w, scripts)) == ClearOne(w, scripts).0
  {
    var w1, cs := DropFirst(w), First(scripts);
    assert [Drop][1..] == [] && [Return][1..] == [];
    if w1.phase.Calling? {
      assert OneSteps(w, scripts)[1..] == Calls(cs) + [Return];
      PlaySplits(w1, Calls(cs), [Return]);
      CallsPlayed(w1, cs);
    }
  }

  lemma {:induction false} ClearPlayed(w: Wheel, scripts: seq<seq<Command>>)
    requires InClear(w) && Plays(w, ClearSteps(w, scripts))
    ensures Play(w, ClearSteps(w, scripts)) == Clear(w, scripts)
    decreases |scripts|, |w.heap|, |w.slots[w.tick]|
  {
    if w.slots[w.tick] != [] {
      var (w1, rest) := ClearOne(w, scripts);
      ClearOneLess(w, scripts);
      PlaySplits(w, OneSteps(w, scripts), ClearSteps(w1, rest));
      OnePlayed(w, scripts);
      ClearPlayed(w1, rest);
    }
  }

  /** A Run whose callbacks make allowed calls only is a run of these steps. */
  lemma RunPlayed(w: Wheel, scripts: seq<seq<Command>>)
    requires Possible(w, Start) && Plays(w, RunSteps(w, scripts))
    ensures Play(w, RunSteps(w, scripts)) == Run(w, scripts)
  {
    var w1 := Take(w, Start);
    var cs := ClearSteps(w1, scripts);
    assert RunSteps(w, scripts)[1..] == cs + [Finish];
    PlaySplits(w1, cs, [Finish]);
    ClearPlayed(w1, scripts);
    assert [Finish][1..] == [];
  }

  /** No call of the steps names id. */
  ghost predicate Aside(steps: seq<Step>, id: nat) {
    forall i :: 0 <= i < |steps| ==> steps[i].Call? ==> steps[i].command.id != id
  }

  predicate Mentions(cs: seq<Command>, id: nat) { exists i :: 0 <= i < |cs| && cs[i].id == id }

  predicate Named(scripts: seq<seq<Command>>, id: nat) { exists i :: 0 <= i < |scripts| && Mentions(scripts[i], id) }

  lemma {:induction false} CallsAside(cs: seq<Command>, id: nat)
    requires !Mentions(cs, id)
    ensures Aside(Calls(cs), id)
  {
    if cs != [] {
      assert cs[0].id != id;
      forall i | 0 <= i < |cs[1..]| ensures cs[1..][i].id != id { assert cs[i + 1].id != id; }
      CallsAside(cs[1..], id);
    }
  }

  lemma ScriptsAside(scripts: seq<seq<Command>>, id: nat)
    requires !Named(scripts, id)
    ensures !Mentions(First(scripts), id) && !Named(Rest(scripts), id)
  {
    if scripts != [] {
      assert !Mentions(scripts[0], id);
      forall i | 0 <= i < |scripts[1..]|
        ensures !Mentions(scripts[1..][i], id)
      {
        assert !Mentions(scripts[i + 1], id);
      }
    }
  }

  lemma OneAside(w: Wheel, scripts: seq<seq<Command>>, id: nat)
    requires InClear(w) && w.slots[w.tick] != [] && !Named(scripts, id)
    ensures Aside(OneSteps(w, scripts), id) && !Named(ClearOne(w, scripts).1, id)
  {
    ScriptsAside(scripts, id);
    CallsAside(First(scripts), id);
  }

  lemma {:induction false} ClearAside(w: Wheel, scripts: seq<seq<Command>>, id: nat)
    requires InClear(w) && !Named(scripts, id)
    ensures Aside(ClearSteps(w, scripts), id)
    decreases |scripts|, |w.heap|, |w.slots[w.tick]|
  {
    if w.slots[w.tick] != [] {
      var (w1, rest) := ClearOne(w, scripts);
      ClearOneLess(w, scripts);
      OneAside(w, scripts, id);
      ClearAside(w1, rest, id);
    }
  }

  lemma {:induction false} AsideNotCancelled(w: Wheel, steps: seq<Step>, id: nat)
    requires Plays(w, steps) && Aside(steps, id)
    ensures !CancelledFirst(Events(w, steps), id)
    decreases |steps|
  {
    if steps != [] {
      assert Events(w, steps)[1..] == Events(Take(w, steps[0]), steps[1..]);
      forall i | 0 <= i < |steps[1..]| && steps[1..][i].Call? ensures steps[1..][i].command.id != id {
        assert steps[1..][i] == steps[i + 1];
      }
      AsideNotCancelled(Take(w, steps[0]), steps[1..], id);
    }
  }

  lemma {:induction false} NowTicks(w: Wheel, steps: seq<Step>)
    requires Plays(w, steps)
    ensures Play(w, steps).now == w.now + Ticks(Events(w, steps))
    decreases |steps|
  {
    if steps != [] {
      assert Events(w, steps)[1..] == Events(Take(w, steps[0]), steps[1..]);
      NowTicks(Take(w, steps[0]), steps[1..]);
    }
  }

  /** One Run, whatever allowed calls its callbacks make: the wheel stays in order, and is the plan after the events of
      the Run. */
  lemma RunRefines(w: Running, scripts: seq<seq<Command>>)
    requires Possible(w, Start) && Plays(w, RunSteps(w, scripts))
    ensures Inv(Run(w, scripts)) && Run(w, scripts).phase.Idle? && Run(w, scripts).now == w.now + 1
    ensures var es := Events(w, RunSteps(w, scripts));
      AdmitsAll(Abs(w), es) && Abs(Run(w, scripts)) == AfterAll(Abs(w), es) && Ticks(es) == 1
    ensures forall h :: h in Run(w, scripts).heap ==> h in Run(w, scripts).due && Run(w, scripts).due[h] > w.now + 1
  {
    RunPlayed(w, scripts);
    RunRefinesPlan(w, RunSteps(w, scripts));
    NowTicks(w, RunSteps(w, scripts));
  }

  /** One Run, for a timer that no callback of the Run names: it ends exactly when it is due, and then its callback is
      called exactly when it has not been cancelled; otherwise it is left as it is. */
  lemma RunSpec(w: Running, scripts: seq<seq<Command>>, id: nat)
    requires Possible(w, Start) && Plays(w, RunSteps(w, scripts)) && Live(w, id) && !Named(scripts, id)
    ensures var h, w' := w.index[id], Run(w, scripts);
      && h in w.due && (h in w'.heap <==> w.due[h] != w.now + 1) && (HasTimer(w', id) <==> h in w'.heap)
      && (h in w'.fired <==> w.due[h] == w.now + 1 && !w.heap[h].cancelled)
      && (h in w'.heap ==> w'.index[id] == h && w'.heap[h].cancelled == w.heap[h].cancelled)
  {
    var steps := RunSteps(w, scripts);
    RunRefines(w, scripts);
    RunPlayed(w, scripts);
    ClearAside(Take(w, Start), scripts, id);
    assert Aside(steps, id);
    AsideNotCancelled(w, steps, id);
    FiresUnlessCancelled(w, steps, id);
  }

  // ---------------------------------------------------------------- the object

  class Timers {
    var tick: nat
    var slots: seq<seq<nat>>
    var heap: map<nat, Task>
    var index: map<nat, nat>
    var made: nat
    ghost var now: nat
    ghost var due: map<nat, nat>
    ghost var fired: seq<nat>
    ghost var phase: Phase

    ghost function State(): Wheel
      reads this
    {
      Wheel(tick, slots, heap, index, made, now, due, fired, phase)
    }

    constructor ()
      ensures State() == EMPTY && Inv(State())
    {
      tick, slots, heap, index, made := 0, NoReferences(), map[], map[], 0;
      now, due, fired, phase := 0, map[], [], Idle;
      new;
      EmptyInv();
    }

    method Add(id: nat, timeout: nat)
      requires |slots| == CAPACITY && tick < CAPACITY
      modifies this
      ensures State() == TimerAdd(old(State()), id, timeout)
      ensures old(Inv(State()) && Allowed(State(), Command.Add(id, timeout))) ==> Inv(State())
    {
      ghost var w := State();
      AddInLoop(id, timeout);
      if Inv(w) && Allowed(w, Command.Add(id, timeout)) { AddKeeps(w, id, timeout); }
    }

    method AddInLoop(id: nat, timeout: nat)
      requires |slots| == CAPACITY && tick < CAPACITY
      modifies this
      ensures State() == TimerAdd(old(State()), id, timeout)
    {
      var pt := made;
      made := made + 1;
      heap := heap[pt := Task(id, timeout, false)];
      var i := SlotFor(tick, timeout);
      slots := slots[i := slots[i] + [pt]];
      index := index[id := pt];
      due := due[pt := now + Delay(tick, timeout)];
    }

    method Refresh(id: nat)
      requires |slots| == CAPACITY && tick < CAPACITY
      modifies this
      ensures State() == TimerRefresh(old(State()), id)
      ensures old(Inv(State()) && Allowed(State(), Command.Refresh(id))) ==> Inv(State())
    {
      ghost var w := State();
      RefreshInLoop(id);
      if Inv(w) && Allowed(w, Command.Refresh(id)) { RefreshKeeps(w, id); }
    }

    method RefreshInLoop(id: nat)
      requires |slots| == CAPACITY && tick < CAPACITY
      modifies this
      ensures State() == TimerRefresh(old(State()), id)
    {
      ghost var w := TimerRefresh(State(), id);
      if id !in index {
        return;
      }
      var pt := index[id];
      if pt !in heap {
        return;
      }
      var i := SlotFor(tick, heap[pt].timeout);
      slots := slots[i := slots[i] + [pt]];
      due := w.due;
    }

    method Cancel(id: nat)
      modifies this
      ensures State() == TimerCancel(old(State()), id)
      ensures old(Inv(State())) ==> Inv(State())
    {
      ghost var w := State();
      CancelInLoop(id);
      if Inv(w) { CancelKeeps(w, id); }
    }

    method CancelInLoop(id: nat)
      modifies this
      ensures State() == TimerCancel(old(State()), id)
    {
      if id in index {
        var pt := index[id];
        if pt in heap {
          heap := heap[pt := heap[pt].(cancelled := true)];
        }
      }
    }

    /** HasTimer: whether the plan holds the id, or its callback is running. */
    method Has(id: nat) returns (b: bool)
      requires Inv(State())
      ensures b <==> id in Abs(State()).timers || phase == Calling(id)
    {
      HasIff(State(), id);
      b := id in index;
    }

    /** What a callback does: its calls run at once, as it runs in the loop's thread. */
    method Callback(script: seq<Command>)
      requires |slots| == CAPACITY && tick < CAPACITY
      modifies this
      ensures State() == CallAll(old(State()), script)
    {
      ghost var end := CallAll(State(), script);
      for i := 0 to |script|
        invariant |slots| == CAPACITY && tick < CAPACITY
        invariant CallAll(State(), script[i..]) == end
      {
        assert script[i..][0] == script[i] && script[i..][1..] == script[i + 1..];
        match script[i]
        case Add(id, timeout) => AddInLoop(id, timeout);
        case Refresh(id) => RefreshInLoop(id);
        case Cancel(id) => CancelInLoop(id);
      }
    }

    /** One tick: move on and clear the slot, with what its callbacks do. */
    method RunOnce(scripts: seq<seq<Command>>)
      requires Possible(State(), Start)
      modifies this
      ensures State() == Run(old(State()), scripts)
      ensures old(Inv(State()) && Plays(State(), RunSteps(State(), scripts))) ==> Inv(State())
    {
      ghost var w := State();
      MoveOn(scripts);
      if Inv(w) && Plays(w, RunSteps(w, scripts)) { RunRefines(w, scripts); }
    }

    method MoveOn(scripts: seq<seq<Command>>)
      requires Possible(State(), Start)
      modifies this
      ensures State() == Run(old(State()), scripts)
    {
      tick := (tick + 1) % CAPACITY;
      now := now + 1;
      phase := Clearing;
      ClearSlot(scripts);
      phase := Idle;
    }

    method ClearSlot(scripts: seq<seq<Command>>)
      requires InClear(State())
      modifies this
      ensures State() == Clear(old(State()), scripts)
    {
      var rest := scripts;
      ghost var end := Clear(State(), scripts);
      while slots[tick] != []
        invariant InClear(State())
        invariant Clear(State(), rest) == end
        decreases |rest|, |heap|, |slots[tick]|
      {
        ClearOneLess(State(), rest);
        rest := Release(rest);
      }
    }

    /** The first reference of the slot goes, and the callback that this may set off runs. */
    method Release(scripts: seq<seq<Command>>) returns (rest: seq<seq<Command>>)
      requires InClear(State()) && slots[tick] != []
      modifies this
      ensures (State(), rest) == ClearOne(old(State()), scripts)
    {
      var called, id := DropReference();
      rest := scripts;
      if called {
        Callback(First(scripts));
        rest := Rest(scripts);
        index := index - {id};
        phase := Clearing;
      }
    }

    /** A shared reference is gone; with the last one the destructor calls the callback unless the task was cancelled,
        and otherwise RemoveTimer at once. */
    method DropReference() returns (called: bool, id: nat)
      requires tick < |slots| && slots[tick] != [] && phase.Clearing?
      modifies this
      ensures State() == DropFirst(old(State())) && (if called then phase == Calling(id) else phase.Clearing?)
    {
      ghost var w := State();
      var pt := slots[tick][0];
      slots := slots[tick := slots[tick][1..]];
      called, id := false, 0;
      if pt in heap && !Referenced(slots, pt) {
        var t := heap[pt];
        heap := heap - {pt};
        id := t.id;
        if t.cancelled {
          index := index - {id};
        } else {
          called := true;
          fired, phase := fired + [pt], Calling(id);
        }
      }
    }
  }
}
