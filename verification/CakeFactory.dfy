/** The cake factory: three chefs and two waiters around one queue and two counters, with six
    semaphores and four mutexes.  Each thread loops over numbered statements; a step of the
    system is one statement of one thread. */
module CakeFactory {

  const CAPACITY: int := 5

  datatype Flavour = Vanilla | Chocolate

  datatype Thread = Chef(f: Flavour) | Carrier | Waiter(f: Flavour)

  datatype Mutex = Free | By(t: Thread)

  /** One flavour's shop counter: cakes on it, its two semaphores, its mutex; cakes of the
      flavour made and sold so far; and the program counters of its chef and waiter. */
  datatype Stage = Stage(n: int, empty: int, full: int, lock: Mutex, made: int, sold: int, chef: nat, waiter: nat)

  /** looked is the cake the carrier saw at the front of the queue, popped the one it took. */
  datatype State = State(
    q1: seq<Flavour>, q1Empty: int, q1Full: int, q1Lock: Mutex, console: Mutex,
    vanilla: Stage, chocolate: Stage, carrier: nat, looked: Flavour, popped: Flavour)

  function Of(s: State, f: Flavour): Stage {
    if f == Vanilla then s.vanilla else s.chocolate
  }

  function With(s: State, f: Flavour, g: Stage): State {
    if f == Vanilla then s.(vanilla := g) else s.(chocolate := g)
  }

  /** Statements 0 to last form the loop; last + 1 and last + 2 come before it. */
  function Next(pc: nat, last: nat): nat {
    if pc == last || pc == last + 2 then 0 else pc + 1
  }

  /** Chef of flavour f: print; P(q1_empty); print; putInQ1.  Statements 11 and 12 print its
      start message. */
  predicate ChefCanStep(s: State, f: Flavour) {
    match Of(s, f).chef
    case 0 => s.console == Free
    case 2 => s.q1Empty > 0
    case 3 => s.console == Free
    case 5 => s.q1Lock == Free
    case 8 => s.console == Free
    case 11 => s.console == Free
    case _ => true
  }

  function ChefStep(s: State, f: Flavour): State {
    var me := Chef(f);
    var g := Of(s, f);
    var t := With(s, f, g.(chef := Next(g.chef, 10)));
    match g.chef
    case 0 => t.(console := By(me))
    case 1 => t.(console := Free)
    case 2 => t.(q1Empty := s.q1Empty - 1)
    case 3 => t.(console := By(me))
    case 4 => t.(console := Free)
    case 5 => t.(q1Lock := By(me))
    case 6 => With(t, f, Of(t, f).(made := g.made + 1)).(q1 := s.q1 + [f])
    case 7 => t.(q1Full := s.q1Full + 1)
    case 8 => t.(console := By(me))
    case 9 => t.(q1Lock := Free)
    case 11 => t.(console := By(me))
    case _ => t.(console := Free)
  }

  /** carrierChef: print; P(q1_full); print; lookIntoQ1; print; P(empty); print; popFromQ1; put. */
  predicate CarrierCanStep(s: State) {
    match s.carrier
    case 0 => s.console == Free
    case 2 => s.q1Full > 0
    case 3 => s.console == Free
    case 5 => s.q1Lock == Free
    case 8 => s.console == Free
    case 10 => s.console == Free
    case 12 => Of(s, s.looked).empty > 0
    case 13 => s.console == Free
    case 15 => s.q1Lock == Free
    case 18 => s.console == Free
    case 21 => Of(s, s.looked).lock == Free
    case 24 => s.console == Free
    case 27 => s.console == Free
    case _ => true
  }

  /** Looking at or popping an empty queue is undefined in the program; here it changes nothing,
      and Safety shows that it does not arise. */
  function CarrierStep(s: State): State {
    var f := s.looked;
    var g := Of(s, f);
    var t := s.(carrier := Next(s.carrier, 26));
    match s.carrier
    case 0 => t.(console := By(Carrier))
    case 1 => t.(console := Free)
    case 2 => t.(q1Full := s.q1Full - 1)
    case 3 => t.(console := By(Carrier))
    case 4 => t.(console := Free)
    case 5 => t.(q1Lock := By(Carrier))
    case 6 => if s.q1 != [] then t.(looked := s.q1[0]) else t
    case 7 => t.(q1Lock := Free)
    case 8 => t.(console := By(Carrier))
    case 9 => t.(console := Free)
    case 10 => t.(console := By(Carrier))
    case 11 => t.(console := Free)
    case 12 => With(t, f, g.(empty := g.empty - 1))
    case 13 => t.(console := By(Carrier))
    case 14 => t.(console := Free)
    case 15 => t.(q1Lock := By(Carrier))
    case 16 => if s.q1 != [] then t.(popped := s.q1[0], q1 := s.q1[1..]) else t
    case 17 => t.(q1Empty := s.q1Empty + 1)
    case 18 => t.(console := By(Carrier))
    case 19 => t.(q1Lock := Free)
    case 20 => t.(console := Free)
    case 21 => With(t, f, g.(lock := By(Carrier)))
    case 22 => With(t, f, g.(n := g.n + 1))
    case 23 => With(t, f, g.(lock := Free))
    case 24 => t.(console := By(Carrier))
    case 25 => With(t, f, g.(full := g.full + 1))
    case 27 => t.(console := By(Carrier))
    case _ => t.(console := Free)
  }

  /** Waiter of flavour f: print; P(full); print; take one and sell it. */
  predicate WaiterCanStep(s: State, f: Flavour) {
    match Of(s, f).waiter
    case 0 => s.console == Free
    case 2 => Of(s, f).full > 0
    case 3 => s.console == Free
    case 5 => Of(s, f).lock == Free
    case 8 => s.console == Free
    case 11 => s.console == Free
    case _ => true
  }

  function WaiterStep(s: State, f: Flavour): State {
    var me := Waiter(f);
    var g := Of(s, f);
    var h := g.(waiter := Next(g.waiter, 10));
    var t := With(s, f, h);
    match g.waiter
    case 0 => t.(console := By(me))
    case 1 => t.(console := Free)
    case 2 => With(s, f, h.(full := g.full - 1))
    case 3 => t.(console := By(me))
    case 4 => t.(console := Free)
    case 5 => With(s, f, h.(lock := By(me)))
    case 6 => With(s, f, h.(n := g.n - 1, sold := g.sold + 1))
    case 7 => With(s, f, h.(empty := g.empty + 1))
    case 8 => t.(console := By(me))
    case 9 => With(s, f, h.(lock := Free))
    case 11 => t.(console := By(me))
    case _ => t.(console := Free)
  }

  predicate CanStep(s: State, t: Thread) {
    match t
    case Chef(f) => ChefCanStep(s, f)
    case Carrier => CarrierCanStep(s)
    case Waiter(f) => WaiterCanStep(s, f)
  }

  function Step(s: State, t: Thread): State
    requires CanStep(s, t)
  {
    match t
    case Chef(f) => ChefStep(s, f)
    case Carrier => CarrierStep(s)
    case Waiter(f) => WaiterStep(s, f)
  }

  const OPENING := Stage(0, CAPACITY, 0, Free, 0, 0, 11, 11)

  /** initLocks. */
  ghost predicate Initial(s: State) {
    && s.q1 == [] && s.q1Empty == CAPACITY && s.q1Full == 0 && s.q1Lock == Free && s.console == Free
    && s.vanilla == OPENING && s.chocolate == OPENING && s.carrier == 27
  }

  ghost predicate Reaches(s: State, schedule: seq<Thread>, t: State)
    decreases |schedule|
  {
    if schedule == [] then s == t
    else CanStep(s, schedule[0]) && Reaches(Step(s, schedule[0]), schedule[1..], t)
  }

  // ----- the invariant -----

  function B(b: bool): int { if b then 1 else 0 }

  /** A chef or a waiter has the console. */
  predicate WorkerHasConsole(pc: nat) { pc == 1 || pc == 4 || pc == 9 || pc == 10 || pc == 12 }

  predicate CarrierHasConsole(pc: nat) {
    pc == 1 || pc == 4 || pc == 9 || pc == 11 || pc == 14 || pc == 19 || pc == 20 || pc == 25 || pc == 26 || pc == 28
  }

  predicate CarrierHasQ1(pc: nat) { pc == 6 || pc == 7 || 16 <= pc <= 19 }

  predicate InProgram(s: State, f: Flavour) {
    Of(s, f).chef <= 12 && Of(s, f).waiter <= 12 && s.carrier <= 28
  }

  /** Program counters say who holds the console. */
  predicate ConsoleHolder(s: State, f: Flavour) {
    && (WorkerHasConsole(Of(s, f).chef) <==> s.console == By(Chef(f)))
    && (WorkerHasConsole(Of(s, f).waiter) <==> s.console == By(Waiter(f)))
    && (CarrierHasConsole(s.carrier) <==> s.console == By(Carrier))
  }

  /** Program counters say who holds the queue. */
  predicate QueueHolder(s: State, f: Flavour) {
    && (6 <= Of(s, f).chef <= 9 <==> s.q1Lock == By(Chef(f)))
    && (CarrierHasQ1(s.carrier) <==> s.q1Lock == By(Carrier))
    && s.q1Lock != By(Waiter(f))
  }

  /** Program counters say who holds a flavour's counter. */
  predicate StageHolder(s: State, f: Flavour) {
    var g := Of(s, f);
    && (6 <= g.waiter <= 9 <==> g.lock == By(Waiter(f)))
    && (22 <= s.carrier <= 23 && s.looked == f <==> g.lock == By(Carrier))
    && (g.lock.By? ==> g.lock.t == Waiter(f) || g.lock.t == Carrier)
  }

  predicate Mutexes(s: State, f: Flavour) {
    InProgram(s, f) && ConsoleHolder(s, f) && QueueHolder(s, f) && StageHolder(s, f)
  }

  /** Tokens of the queue's semaphores are conserved. */
  predicate QueueTokens(s: State) {
    && s.q1Empty >= 0 && s.q1Full >= 0
    && s.q1Empty + B(3 <= s.vanilla.chef <= 6) + B(3 <= s.chocolate.chef <= 6) + |s.q1| + B(s.carrier == 17) == CAPACITY
    && s.q1Full + B(3 <= s.carrier <= 16) + B(s.vanilla.chef == 7) + B(s.chocolate.chef == 7) == |s.q1|
  }

  /** Tokens of a flavour's semaphores are conserved. */
  predicate StageTokens(s: State, f: Flavour) {
    var g := Of(s, f);
    && g.empty >= 0 && g.full >= 0 && g.n >= 0
    && g.empty + B(13 <= s.carrier <= 22 && s.looked == f) + g.n + B(g.waiter == 7) == CAPACITY
    && g.full + B(3 <= g.waiter <= 6) + B(23 <= s.carrier <= 25 && s.looked == f) == g.n
  }

  /** The cake at the front stays the one the carrier looked at until it takes it. */
  predicate Front(s: State) {
    && (7 <= s.carrier <= 16 ==> s.q1 != [] && s.q1[0] == s.looked)
    && (17 <= s.carrier <= 26 ==> s.popped == s.looked)
  }

  function Count(q: seq<Flavour>, f: Flavour): nat {
    if q == [] then 0 else B(q[0] == f) + Count(q[1..], f)
  }

  /** Every cake made is in the queue, in the carrier's hands, on a counter, or sold. */
  predicate Conserved(s: State, f: Flavour) {
    var g := Of(s, f);
    g.made == Count(s.q1, f) + B(17 <= s.carrier <= 22 && s.looked == f) + g.n + g.sold
  }

  predicate Inv(s: State) {
    && Mutexes(s, Vanilla) && Mutexes(s, Chocolate)
    && QueueTokens(s) && StageTokens(s, Vanilla) && StageTokens(s, Chocolate)
    && Front(s) && Conserved(s, Vanilla) && Conserved(s, Chocolate)
  }

  lemma {:induction false} CountSnoc(q: seq<Flavour>, c: Flavour, f: Flavour)
    ensures Count(q + [c], f) == Count(q, f) + B(c == f)
  {
    if q != [] {
      CountSnoc(q[1..], c, f);
      assert (q + [c])[1..] == q[1..] + [c];
    }
  }

  // ----- every step keeps the invariant, part by part -----

  lemma ChefConsoleHolder(s: State, f: Flavour, g: Flavour)
    requires InProgram(s, f) && InProgram(s, g) && ConsoleHolder(s, f) && ConsoleHolder(s, g) && ChefCanStep(s, f)
    ensures InProgram(ChefStep(s, f), g) && ConsoleHolder(ChefStep(s, f), g)
  { }

  lemma ChefQueueHolder(s: State, f: Flavour, g: Flavour)
    requires QueueHolder(s, f) && QueueHolder(s, g) && ChefCanStep(s, f)
    ensures QueueHolder(ChefStep(s, f), g)
  { }

  lemma ChefStageHolder(s: State, f: Flavour, g: Flavour)
    requires StageHolder(s, f) && StageHolder(s, g) && ChefCanStep(s, f)
    ensures StageHolder(ChefStep(s, f), g)
  { }

  lemma ChefTokens(s: State, f: Flavour)
    requires QueueTokens(s) && ChefCanStep(s, f)
    ensures QueueTokens(ChefStep(s, f))
  { }

  lemma ChefStage(s: State, f: Flavour, g: Flavour)
    requires StageTokens(s, g) && Conserved(s, g)
    ensures StageTokens(ChefStep(s, f), g) && Conserved(ChefStep(s, f), g)
  {
    CountSnoc(s.q1, f, g);
    hide Count;
  }

  lemma ChefFront(s: State, f: Flavour)
    requires Front(s)
    ensures Front(ChefStep(s, f))
  { }

  lemma CarrierConsoleHolder(s: State, g: Flavour)
    requires InProgram(s, g) && ConsoleHolder(s, g) && CarrierCanStep(s)
    ensures InProgram(CarrierStep(s), g) && ConsoleHolder(CarrierStep(s), g)
  { }

  lemma CarrierQueueHolder(s: State, g: Flavour)
    requires QueueHolder(s, g) && CarrierCanStep(s)
    ensures QueueHolder(CarrierStep(s), g)
  { }

  lemma CarrierStageHolder(s: State, g: Flavour)
    requires StageHolder(s, g) && CarrierCanStep(s)
    ensures StageHolder(CarrierStep(s), g)
  { }

  lemma CarrierTokens(s: State)
    requires QueueTokens(s) && CarrierCanStep(s)
    ensures QueueTokens(CarrierStep(s))
  { }

  lemma CarrierStage(s: State, g: Flavour)
    requires StageTokens(s, g) && CarrierCanStep(s)
    ensures StageTokens(CarrierStep(s), g)
  { }

  lemma CarrierConserved(s: State, g: Flavour)
    requires Conserved(s, g) && Front(s)
    ensures Conserved(CarrierStep(s), g)
  {
    if s.q1 != [] {
      assert Count(s.q1, g) == B(s.q1[0] == g) + Count(s.q1[1..], g);
    }
    hide Count;
  }

  lemma CarrierFront(s: State)
    requires Front(s) && QueueTokens(s)
    ensures Front(CarrierStep(s))
  { }

  lemma WaiterConsoleHolder(s: State, f: Flavour, g: Flavour)
    requires InProgram(s, f) && InProgram(s, g) && ConsoleHolder(s, f) && ConsoleHolder(s, g) && WaiterCanStep(s, f)
    ensures InProgram(WaiterStep(s, f), g) && ConsoleHolder(WaiterStep(s, f), g)
  { }

  lemma WaiterQueueHolder(s: State, f: Flavour, g: Flavour)
    requires QueueHolder(s, f) && QueueHolder(s, g) && WaiterCanStep(s, f)
    ensures QueueHolder(WaiterStep(s, f), g)
  { }

  lemma WaiterStageHolder(s: State, f: Flavour, g: Flavour)
    requires StageHolder(s, f) && StageHolder(s, g) && WaiterCanStep(s, f)
    ensures StageHolder(WaiterStep(s, f), g)
  { }

  lemma WaiterStage(s: State, f: Flavour, g: Flavour)
    requires StageTokens(s, g) && WaiterCanStep(s, f)
    ensures StageTokens(WaiterStep(s, f), g)
  { }

  lemma WaiterConserved(s: State, f: Flavour, g: Flavour)
    requires Conserved(s, g)
    ensures Conserved(WaiterStep(s, f), g)
  {
    hide Count;
  }

  lemma WaiterQueue(s: State, f: Flavour)
    requires QueueTokens(s) && Front(s)
    ensures QueueTokens(WaiterStep(s, f)) && Front(WaiterStep(s, f))
  { }

  lemma InvOf(s: State, f: Flavour)
    requires Inv(s)
    ensures Mutexes(s, f) && StageTokens(s, f) && Conserved(s, f)
  {
    hide Mutexes, StageTokens, Conserved;
    assert f == Vanilla || f == Chocolate;
  }

  lemma InvStep(s: State, t: Thread)
    requires Inv(s) && CanStep(s, t)
    ensures Inv(Step(s, t))
  {
    hide ChefCanStep, CarrierCanStep, WaiterCanStep, ChefStep, CarrierStep, WaiterStep,
         InProgram, ConsoleHolder, QueueHolder, StageHolder, QueueTokens, StageTokens, Front, Conserved;
    match t
    case Chef(f) =>
      InvOf(s, f);
      ChefConsoleHolder(s, f, Vanilla); ChefConsoleHolder(s, f, Chocolate);
      ChefQueueHolder(s, f, Vanilla); ChefQueueHolder(s, f, Chocolate);
      ChefStageHolder(s, f, Vanilla); ChefStageHolder(s, f, Chocolate);
      ChefStage(s, f, Vanilla); ChefStage(s, f, Chocolate);
      ChefTokens(s, f); ChefFront(s, f);
    case Carrier =>
      CarrierConsoleHolder(s, Vanilla); CarrierConsoleHolder(s, Chocolate);
      CarrierQueueHolder(s, Vanilla); CarrierQueueHolder(s, Chocolate);
      CarrierStageHolder(s, Vanilla); CarrierStageHolder(s, Chocolate);
      CarrierStage(s, Vanilla); CarrierStage(s, Chocolate);
      CarrierConserved(s, Vanilla); CarrierConserved(s, Chocolate);
      CarrierTokens(s); CarrierFront(s);
    case Waiter(f) =>
      InvOf(s, f);
      WaiterConsoleHolder(s, f, Vanilla); WaiterConsoleHolder(s, f, Chocolate);
      WaiterQueueHolder(s, f, Vanilla); WaiterQueueHolder(s, f, Chocolate);
      WaiterStageHolder(s, f, Vanilla); WaiterStageHolder(s, f, Chocolate);
      WaiterStage(s, f, Vanilla); WaiterStage(s, f, Chocolate);
      WaiterConserved(s, f, Vanilla); WaiterConserved(s, f, Chocolate);
      WaiterQueue(s, f);
  }

  lemma {:induction false} InvRun(s: State, schedule: seq<Thread>, t: State)
    requires Inv(s) && Reaches(s, schedule, t)
    ensures Inv(t)
    decreases |schedule|
  {
    hide Inv, CanStep, Step;
    if schedule != [] {
      InvStep(s, schedule[0]);
      InvRun(Step(s, schedule[0]), schedule[1..], t);
    }
  }

  // ----- what holds in every reachable state -----

  /** Nothing overflows or underflows, the carrier never looks at or pops an empty queue, it
      takes the cake it looked at, and every cake made is queued, carried, on show or sold. */
  lemma Safety(s: State, schedule: seq<Thread>, t: State, f: Flavour)
    requires Initial(s) && Reaches(s, schedule, t)
    ensures |t.q1| <= CAPACITY && 0 <= Of(t, f).n <= CAPACITY
    ensures 0 <= t.q1Empty <= CAPACITY && 0 <= t.q1Full <= CAPACITY
    ensures 0 <= Of(t, f).empty <= CAPACITY && 0 <= Of(t, f).full <= CAPACITY
    ensures t.carrier == 6 || t.carrier == 16 ==> t.q1 != []
    ensures Of(t, f).waiter == 6 ==> Of(t, f).n > 0
    ensures 17 <= t.carrier <= 26 ==> t.popped == t.looked
    ensures Of(t, f).made == Count(t.q1, f) + B(17 <= t.carrier <= 22 && t.popped == f) + Of(t, f).n + Of(t, f).sold
  {
    InvRun(s, schedule, t);
  }

  /** At most one thread is inside each critical section. */
  lemma Exclusion(s: State, schedule: seq<Thread>, t: State, f: Flavour)
    requires Initial(s) && Reaches(s, schedule, t)
    ensures !(6 <= t.vanilla.chef <= 9 && 6 <= t.chocolate.chef <= 9)
    ensures !(6 <= Of(t, f).chef <= 9 && CarrierHasQ1(t.carrier))
    ensures !(6 <= Of(t, f).waiter <= 9 && 22 <= t.carrier <= 23 && t.looked == f)
  {
    InvRun(s, schedule, t);
  }

  /** The holder of the console can move. */
  lemma ConsoleHolderMoves(s: State)
    requires Mutexes(s, Vanilla) && Mutexes(s, Chocolate) && s.console.By?
    ensures CanStep(s, s.console.t)
  {
    match s.console.t
    case Chef(f) => assert Mutexes(s, f);
    case Carrier =>
    case Waiter(f) => assert Mutexes(s, f);
  }

  /** With the console free, so can the holder of the queue. */
  lemma QueueHolderMoves(s: State)
    requires Mutexes(s, Vanilla) && Mutexes(s, Chocolate) && s.console == Free && s.q1Lock.By?
    ensures CanStep(s, s.q1Lock.t)
  {
    if s.q1Lock.t.Chef? { assert Mutexes(s, s.q1Lock.t.f); }
  }

  lemma StageHolderMoves(s: State, f: Flavour)
    requires Mutexes(s, f) && s.console == Free && Of(s, f).lock.By?
    ensures CanStep(s, Of(s, f).lock.t)
  { }

  /** With all mutexes free, some semaphore a thread waits for has a token. */
  lemma SomeTokenLeft(s: State)
    requires Mutexes(s, Vanilla) && Mutexes(s, Chocolate) && QueueTokens(s)
    requires StageTokens(s, Vanilla) && StageTokens(s, Chocolate)
    requires s.console == Free && s.q1Lock == Free && s.vanilla.lock == Free && s.chocolate.lock == Free
    ensures exists t :: CanStep(s, t)
  {
    assert CanStep(s, Chef(Vanilla)) || CanStep(s, Carrier) || CanStep(s, Waiter(s.looked));
  }

  /** Some thread can always move. */
  lemma DeadlockFree(s: State, schedule: seq<Thread>, t: State)
    requires Initial(s) && Reaches(s, schedule, t)
    ensures exists who :: CanStep(t, who)
  {
    InvRun(s, schedule, t);
    if t.console.By? { ConsoleHolderMoves(t); }
    else if t.q1Lock.By? { QueueHolderMoves(t); }
    else if t.vanilla.lock.By? { StageHolderMoves(t, Vanilla); }
    else if t.chocolate.lock.By? { StageHolderMoves(t, Chocolate); }
    else { SomeTokenLeft(t); }
  }
}
