/** From every reachable state of the cake factory there is a schedule that sells another cake of
    each flavour: no thread is ever stuck for good. */
module CakeProgress {
  import opened CakeFactory

  // ----- schedules -----

  lemma {:induction false} ReachTwice(s: State, a: seq<Thread>, t: State, b: seq<Thread>, u: State)
    requires Reaches(s, a, t) && Reaches(t, b, u)
    ensures Reaches(s, a + b, u)
    decreases |a|
  {
    hide CanStep, Step;
    if a == [] {
      assert a + b == b;
    } else {
      assert (a + b)[0] == a[0] && (a + b)[1..] == a[1..] + b;
      ReachTwice(Step(s, a[0]), a[1..], t, b, u);
    }
  }

  lemma ReachOne(s: State, x: Thread)
    requires CanStep(s, x)
    ensures Reaches(s, [x], Step(s, x))
  {
    hide CanStep, Step;
    assert Reaches(Step(s, x), [], Step(s, x));
  }

  /** A chef's step moves only the chef. */
  lemma ChefFrame(s: State, f: Flavour, g: Flavour)
    ensures var t := ChefStep(s, f);
      && t.carrier == s.carrier && Of(t, g).waiter == Of(s, g).waiter && Of(t, g).sold == Of(s, g).sold
      && Of(t, g).chef == if g == f then Next(Of(s, g).chef, 10) else Of(s, g).chef
  { }

  lemma CarrierFrame(s: State, g: Flavour)
    ensures var t := CarrierStep(s);
      && t.carrier == Next(s.carrier, 26) && Of(t, g).waiter == Of(s, g).waiter
      && Of(t, g).sold == Of(s, g).sold && Of(t, g).chef == Of(s, g).chef
  { }

  lemma WaiterFrame(s: State, f: Flavour, g: Flavour)
    ensures var t := WaiterStep(s, f);
      && t.carrier == s.carrier && Of(t, g).chef == Of(s, g).chef && Of(t, g).sold >= Of(s, g).sold
      && Of(t, g).waiter == if g == f then Next(Of(s, g).waiter, 10) else Of(s, g).waiter
  { }

  lemma Frames(s: State, x: Thread, g: Flavour)
    requires CanStep(s, x)
    ensures var t := Step(s, x);
      && t.carrier == (if x.Carrier? then Next(s.carrier, 26) else s.carrier) && Of(t, g).sold >= Of(s, g).sold
      && Of(t, g).chef == (if x == Chef(g) then Next(Of(s, g).chef, 10) else Of(s, g).chef)
      && Of(t, g).waiter == (if x == Waiter(g) then Next(Of(s, g).waiter, 10) else Of(s, g).waiter)
  {
    hide ChefStep, CarrierStep, WaiterStep, ChefCanStep, CarrierCanStep, WaiterCanStep, Next;
    match x
    case Chef(f) => ChefFrame(s, f, g);
    case Carrier => CarrierFrame(s, g);
    case Waiter(f) => WaiterFrame(s, f, g);
  }

  lemma {:induction false} SoldRun(s: State, schedule: seq<Thread>, t: State, f: Flavour)
    requires Reaches(s, schedule, t)
    ensures Of(t, f).sold >= Of(s, f).sold
    decreases |schedule|
  {
    hide CanStep, Step;
    if schedule != [] {
      Frames(s, schedule[0], f);
      SoldRun(Step(s, schedule[0]), schedule[1..], t, f);
    }
  }

  // ----- leaving all critical sections -----

  /** Statements left in a thread's critical section. */
  function WorkerWeight(pc: nat): nat {
    if pc == 1 || pc == 4 || pc == 12 then 1 else if 6 <= pc <= 10 then 11 - pc else 0
  }

  function CarrierWeight(pc: nat): nat {
    if pc == 1 || pc == 4 || pc == 9 || pc == 11 || pc == 14 || pc == 28 then 1
    else if 6 <= pc <= 7 then 8 - pc
    else if 16 <= pc <= 20 then 21 - pc
    else if 22 <= pc <= 23 then 24 - pc
    else if 25 <= pc <= 26 then 27 - pc
    else 0
  }

  function Weight(s: State, x: Thread): nat {
    match x
    case Chef(f) => WorkerWeight(Of(s, f).chef)
    case Carrier => CarrierWeight(s.carrier)
    case Waiter(f) => WorkerWeight(Of(s, f).waiter)
  }

  function Total(s: State): nat {
    Weight(s, Chef(Vanilla)) + Weight(s, Chef(Chocolate)) + Weight(s, Carrier)
    + Weight(s, Waiter(Vanilla)) + Weight(s, Waiter(Chocolate))
  }

  lemma WeightStep(s: State, x: Thread)
    requires Inv(s) && CanStep(s, x) && Weight(s, x) > 0
    ensures Total(Step(s, x)) < Total(s)
  {
    hide CanStep, Step, ConsoleHolder, QueueHolder, StageHolder, QueueTokens, StageTokens, Front, Conserved;
    Frames(s, x, Vanilla);
    Frames(s, x, Chocolate);
  }

  predicate Settled(s: State) {
    s.console == Free && s.q1Lock == Free && s.vanilla.lock == Free && s.chocolate.lock == Free
  }

  /** The holder of a mutex can step, and is in a critical section. */
  lemma HolderMoves(s: State) returns (x: Thread)
    requires Inv(s) && !Settled(s)
    ensures CanStep(s, x) && Weight(s, x) > 0
  {
    if s.console.By? {
      x := s.console.t;
      ConsoleHolderMoves(s);
      HolderWeighs(s, x);
    } else if s.q1Lock.By? {
      x := s.q1Lock.t;
      QueueHolderMoves(s);
      HolderWeighs(s, x);
    } else {
      var f := if s.vanilla.lock.By? then Vanilla else Chocolate;
      x := Of(s, f).lock.t;
      StageHolderMoves(s, f);
      HolderWeighs(s, x);
    }
  }

  lemma HolderWeighs(s: State, x: Thread)
    requires Inv(s)
    requires s.console == By(x) || s.q1Lock == By(x) || s.vanilla.lock == By(x) || s.chocolate.lock == By(x)
    ensures Weight(s, x) > 0
  {
    if x.Chef? || x.Waiter? { InvOf(s, x.f); }
    InvOf(s, s.looked);
  }

  lemma {:induction false} Settle(s: State) returns (schedule: seq<Thread>, t: State)
    requires Inv(s)
    ensures Reaches(s, schedule, t) && Inv(t) && Settled(t)
    decreases Total(s)
  {
    hide Inv, CanStep, Step, Total, Weight;
    if Settled(s) {
      schedule, t := [], s;
    } else {
      var x := HolderMoves(s);
      WeightStep(s, x);
      InvStep(s, x);
      ReachOne(s, x);
      var rest, u := Settle(Step(s, x));
      ReachTwice(s, [x], Step(s, x), rest, u);
      schedule, t := [x] + rest, u;
    }
  }

  // ----- from one settled state to the next -----

  /** What a thread does, from a state with all mutexes free to the next, in one go. */
  function ChefGoes(s: State, f: Flavour): State {
    var g := Of(s, f);
    match g.chef
    case 0 => With(s, f, g.(chef := 2))
    case 2 => With(s, f, g.(chef := 3)).(q1Empty := s.q1Empty - 1)
    case 3 => With(s, f, g.(chef := 5))
    case 5 => With(s, f, g.(chef := 0, made := g.made + 1)).(q1 := s.q1 + [f], q1Full := s.q1Full + 1)
    case _ => With(s, f, g.(chef := 0))
  }

  function CarrierGoes(s: State): State {
    var f := s.looked;
    var g := Of(s, f);
    match s.carrier
    case 0 => s.(carrier := 2)
    case 2 => s.(carrier := 3, q1Full := s.q1Full - 1)
    case 3 => s.(carrier := 5)
    case 5 => s.(carrier := 8, looked := if s.q1 != [] then s.q1[0] else s.looked)
    case 8 => s.(carrier := 10)
    case 10 => s.(carrier := 12)
    case 12 => With(s, f, g.(empty := g.empty - 1)).(carrier := 13)
    case 13 => s.(carrier := 15)
    case 15 =>
      if s.q1 != [] then s.(carrier := 21, popped := s.q1[0], q1 := s.q1[1..], q1Empty := s.q1Empty + 1)
      else s.(carrier := 21, q1Empty := s.q1Empty + 1)
    case 21 => With(s, f, g.(n := g.n + 1)).(carrier := 24)
    case 24 => With(s, f, g.(full := g.full + 1)).(carrier := 0)
    case _ => s.(carrier := 0)
  }

  function WaiterGoes(s: State, f: Flavour): State {
    var g := Of(s, f);
    match g.waiter
    case 0 => With(s, f, g.(waiter := 2))
    case 2 => With(s, f, g.(waiter := 3, full := g.full - 1))
    case 3 => With(s, f, g.(waiter := 5))
    case 5 => With(s, f, g.(waiter := 0, n := g.n - 1, sold := g.sold + 1, empty := g.empty + 1))
    case _ => With(s, f, g.(waiter := 0))
  }

  predicate WorkerRests(pc: nat) { pc == 0 || pc == 2 || pc == 3 || pc == 5 || pc == 11 }

  predicate CarrierRests(pc: nat) {
    pc == 0 || pc == 2 || pc == 3 || pc == 5 || pc == 8 || pc == 10 || pc == 12 || pc == 13 || pc == 15 ||
    pc == 21 || pc == 24 || pc == 27
  }

  lemma SettledRests(s: State, f: Flavour)
    requires Inv(s) && Settled(s)
    ensures WorkerRests(Of(s, f).chef) && WorkerRests(Of(s, f).waiter) && CarrierRests(s.carrier)
  {
    InvOf(s, f);
    InvOf(s, s.looked);
  }

  lemma Two(s: State, x: Thread)
    requires CanStep(s, x) && CanStep(Step(s, x), x)
    ensures Reaches(s, [x, x], Step(Step(s, x), x))
  {
    hide CanStep, Step;
    ReachOne(s, x);
    ReachOne(Step(s, x), x);
    ReachTwice(s, [x], Step(s, x), [x], Step(Step(s, x), x));
    assert [x] + [x] == [x, x];
  }

  lemma Three(s: State, x: Thread)
    requires CanStep(s, x) && CanStep(Step(s, x), x) && CanStep(Step(Step(s, x), x), x)
    ensures Reaches(s, [x, x, x], Step(Step(Step(s, x), x), x))
  {
    hide CanStep, Step;
    Two(s, x);
    ReachOne(Step(Step(s, x), x), x);
    ReachTwice(s, [x, x], Step(Step(s, x), x), [x], Step(Step(Step(s, x), x), x));
    assert [x, x] + [x] == [x, x, x];
  }

  lemma ChefRuns(s: State, f: Flavour) returns (schedule: seq<Thread>)
    requires Settled(s) && WorkerRests(Of(s, f).chef) && ChefCanStep(s, f)
    ensures Reaches(s, schedule, ChefGoes(s, f))
  {
    var x, pc := Chef(f), Of(s, f).chef;
    if pc == 2 {
      schedule := [x];
      ReachOne(s, x);
    } else if pc == 5 {
      var t := Step(Step(Step(s, x), x), x);
      schedule := [x, x, x] + [x, x, x];
      Three(s, x);
      Three(t, x);
      ReachTwice(s, [x, x, x], t, [x, x, x], ChefGoes(s, f));
    } else {
      schedule := [x, x];
      Two(s, x);
    }
  }

  lemma WaiterRuns(s: State, f: Flavour) returns (schedule: seq<Thread>)
    requires Settled(s) && WorkerRests(Of(s, f).waiter) && WaiterCanStep(s, f)
    ensures Reaches(s, schedule, WaiterGoes(s, f))
  {
    var x, pc := Waiter(f), Of(s, f).waiter;
    if pc == 2 {
      schedule := [x];
      ReachOne(s, x);
    } else if pc == 5 {
      var t := Step(Step(Step(s, x), x), x);
      schedule := [x, x, x] + [x, x, x];
      Three(s, x);
      Three(t, x);
      ReachTwice(s, [x, x, x], t, [x, x, x], WaiterGoes(s, f));
    } else {
      schedule := [x, x];
      Two(s, x);
    }
  }

  lemma CarrierPops(s: State)
    requires Settled(s) && s.carrier == 15
    ensures Reaches(s, [Carrier, Carrier, Carrier] + [Carrier, Carrier, Carrier], CarrierGoes(s))
  {
    var x := Carrier;
    var t := Step(Step(Step(s, x), x), x);
    Three(s, x);
    Three(t, x);
    ReachTwice(s, [x, x, x], t, [x, x, x], CarrierGoes(s));
  }

  lemma CarrierTwo(s: State)
    requires Settled(s) && CarrierRests(s.carrier)
    requires s.carrier != 2 && s.carrier != 12 && s.carrier != 15 && s.carrier != 5 && s.carrier != 21
    requires s.carrier != 24
    ensures Reaches(s, [Carrier, Carrier], CarrierGoes(s))
  {
    Two(s, Carrier);
  }

  lemma CarrierLooks(s: State)
    requires Settled(s) && s.carrier == 5
    ensures Reaches(s, [Carrier, Carrier, Carrier], CarrierGoes(s))
  {
    Three(s, Carrier);
  }

  lemma CarrierPuts(s: State)
    requires Settled(s) && s.carrier == 21
    ensures Reaches(s, [Carrier, Carrier, Carrier], CarrierGoes(s))
  {
    hide Reaches;
    var f, g := s.looked, Of(s, s.looked);
    var s1 := Step(s, Carrier);
    assert s1 == With(s, f, g.(lock := By(Carrier))).(carrier := 22);
    var s2 := Step(s1, Carrier);
    assert s2 == With(s, f, g.(lock := By(Carrier), n := g.n + 1)).(carrier := 23);
    assert Step(s2, Carrier) == CarrierGoes(s);
    Three(s, Carrier);
  }

  lemma CarrierTells(s: State)
    requires Settled(s) && s.carrier == 24
    ensures Reaches(s, [Carrier, Carrier, Carrier], CarrierGoes(s))
  {
    Three(s, Carrier);
  }

  lemma CarrierRuns(s: State) returns (schedule: seq<Thread>)
    requires Settled(s) && CarrierRests(s.carrier) && CarrierCanStep(s)
    ensures Reaches(s, schedule, CarrierGoes(s))
  {
    if s.carrier == 2 || s.carrier == 12 {
      schedule := [Carrier];
      ReachOne(s, Carrier);
    } else {
      hide CarrierGoes, CarrierStep, CarrierCanStep;
      if s.carrier == 15 {
        schedule := [Carrier, Carrier, Carrier] + [Carrier, Carrier, Carrier];
        CarrierPops(s);
      } else if s.carrier == 5 || s.carrier == 21 || s.carrier == 24 {
        schedule := [Carrier, Carrier, Carrier];
        if s.carrier == 5 { CarrierLooks(s); } else if s.carrier == 21 { CarrierPuts(s); } else { CarrierTells(s); }
      } else {
        schedule := [Carrier, Carrier];
        CarrierTwo(s);
      }
    }
  }

  // ----- selling a cake -----

  function Goes(s: State, x: Thread): State {
    match x
    case Chef(f) => ChefGoes(s, f)
    case Carrier => CarrierGoes(s)
    case Waiter(f) => WaiterGoes(s, f)
  }

  lemma Runs(s: State, x: Thread) returns (schedule: seq<Thread>)
    requires Inv(s) && Settled(s) && CanStep(s, x)
    ensures Reaches(s, schedule, Goes(s, x)) && Inv(Goes(s, x)) && Settled(Goes(s, x))
  {
    hide Inv, ChefGoes, CarrierGoes, WaiterGoes, ChefCanStep, CarrierCanStep, WaiterCanStep, WorkerRests,
         CarrierRests;
    SettledRests(s, if x.Carrier? then Vanilla else x.f);
    match x {
      case Chef(f) => schedule := ChefRuns(s, f);
      case Carrier => schedule := CarrierRuns(s);
      case Waiter(f) => schedule := WaiterRuns(s, f);
    }
    InvRun(s, schedule, Goes(s, x));
    StaysSettled(s, x);
  }

  lemma StaysSettled(s: State, x: Thread)
    requires Settled(s)
    ensures Settled(Goes(s, x))
  { }

  /** How far a worker is from the end of its round, and the carrier from the end of its trip. */
  function WorkerLeft(pc: nat): nat {
    if pc == 5 then 1 else if pc == 3 then 2 else if pc == 2 then 3 else if pc == 0 then 4 else 5
  }

  function CarrierLeft(pc: nat): nat {
    if pc == 24 then 1 else if pc == 21 then 2 else if pc == 15 then 3 else if pc == 13 then 4
    else if pc == 12 then 5 else if pc == 10 then 6 else if pc == 8 then 7 else if pc == 5 then 8
    else if pc == 3 then 9 else if pc == 2 then 10 else if pc == 0 then 11 else 12
  }

  predicate Carrying(s: State) { s.carrier == 21 || s.carrier == 24 }

  /** 0 when the waiter of f has a cake to sell; else 1. */
  function Unserved(s: State, f: Flavour): nat {
    B(Of(s, f).full == 0 && Of(s, f).waiter != 3 && Of(s, f).waiter != 5)
  }

  /** 0 when a cake of f is in the queue or in the carrier's hands; else 1. */
  function Unmade(s: State, f: Flavour): nat {
    B(f !in s.q1 && !(Carrying(s) && s.looked == f))
  }

  /** Trips the carrier has before it. */
  function Trips(s: State): nat { |s.q1| + B(Carrying(s)) }

  function Stuck(s: State): nat { B(s.carrier == 12 && Of(s, s.looked).empty == 0) }

  function Other(f: Flavour): Flavour { if f == Vanilla then Chocolate else Vanilla }

  /** Whom to run, in a settled state, to get a cake of f sold. */
  function Choice(s: State, f: Flavour): Thread {
    if Of(s, f).waiter != 2 || Of(s, f).full > 0 then Waiter(f)
    else if s.carrier == 2 && s.q1Full == 0 then Chef(f)
    else if s.carrier == 12 && Of(s, s.looked).empty == 0 then Waiter(Other(f))
    else Carrier
  }

  lemma ChoiceCan(s: State, f: Flavour)
    requires Inv(s) && Settled(s)
    ensures CanStep(s, Choice(s, f))
    ensures Choice(s, f) == Waiter(Other(f)) ==> s.looked == Other(f)
    ensures Choice(s, f) == Chef(f) ==> s.q1 == []
  {
    SettledRests(s, f);
    SettledRests(s, Other(f));
    InvOf(s, f);
    InvOf(s, Other(f));
  }

  lemma ChefNearer(s: State, f: Flavour)
    requires Inv(s) && Settled(s) && Choice(s, f) == Chef(f)
    ensures var t := ChefGoes(s, f);
      && Unserved(t, f) == Unserved(s, f) && Of(t, f).waiter == Of(s, f).waiter
      && (Unmade(t, f) < Unmade(s, f)
          || (t.q1 == s.q1 && t.carrier == s.carrier && t.looked == s.looked && Stuck(t) == Stuck(s)
              && WorkerLeft(Of(t, f).chef) < WorkerLeft(Of(s, f).chef)))
  {
    ChoiceCan(s, f);
    SettledRests(s, f);
  }

  lemma CarrierNearer(s: State, f: Flavour)
    requires Inv(s) && Settled(s) && Choice(s, f) == Carrier
    ensures var t := CarrierGoes(s);
      || Unserved(t, f) < Unserved(s, f)
      || (Unserved(t, f) == Unserved(s, f) && Unmade(t, f) == Unmade(s, f)
          && (Trips(t) < Trips(s) || (Trips(t) == Trips(s) && CarrierLeft(t.carrier) < CarrierLeft(s.carrier))))
  {
    ChoiceCan(s, f);
    SettledRests(s, f);
    if s.carrier == 15 { PopKeeps(s.q1, f); }
  }

  lemma PopKeeps(q: seq<Flavour>, f: Flavour)
    ensures q != [] ==> (f in q <==> q[0] == f || f in q[1..])
  { }

  lemma OtherNearer(s: State, f: Flavour)
    requires Inv(s) && Settled(s) && Choice(s, f) == Waiter(Other(f))
    ensures var t := WaiterGoes(s, Other(f));
      && Of(t, f) == Of(s, f) && t.q1 == s.q1 && t.carrier == s.carrier && t.looked == s.looked
      && (Stuck(t) < Stuck(s)
          || (Stuck(t) == Stuck(s) && WorkerLeft(Of(t, Other(f)).waiter) < WorkerLeft(Of(s, Other(f)).waiter)))
  {
    ChoiceCan(s, f);
    SettledRests(s, Other(f));
  }

  lemma WaiterElsewhere(s: State, f: Flavour)
    ensures var t := WaiterGoes(s, f);
      && Of(t, Other(f)) == Of(s, Other(f)) && t.q1 == s.q1 && t.carrier == s.carrier && t.looked == s.looked
      && Of(t, f).chef == Of(s, f).chef
  { }

  lemma WaiterNearer(s: State, f: Flavour)
    requires WorkerRests(Of(s, f).waiter) && Choice(s, f) == Waiter(f)
    ensures var t := WaiterGoes(s, f);
      || Of(t, f).sold > Of(s, f).sold
      || (Of(t, f).sold == Of(s, f).sold && Of(t, f).empty == Of(s, f).empty && Unserved(t, f) <= Unserved(s, f)
          && WorkerLeft(Of(t, f).waiter) < WorkerLeft(Of(s, f).waiter))
  { }

  /** A schedule that sells another cake of f. */
  lemma {:induction false} Serve(s: State, f: Flavour) returns (schedule: seq<Thread>, t: State)
    requires Inv(s) && Settled(s)
    ensures Reaches(s, schedule, t) && Inv(t) && Settled(t) && Of(t, f).sold > Of(s, f).sold
    decreases Unserved(s, f), Unmade(s, f), Trips(s), CarrierLeft(s.carrier), Stuck(s), WorkerLeft(Of(s, f).chef),
              WorkerLeft(Of(s, Other(f)).waiter), WorkerLeft(Of(s, f).waiter)
  {
    hide Inv, ChefGoes, CarrierGoes, WaiterGoes, ChefCanStep, CarrierCanStep, WaiterCanStep, WorkerLeft,
         CarrierLeft;
    var x := Choice(s, f);
    ChoiceCan(s, f);
    schedule := Runs(s, x);
    t := Goes(s, x);
    SoldRun(s, schedule, t, f);
    match x {
      case Chef(_) => ChefNearer(s, f);
      case Carrier => CarrierNearer(s, f);
      case Waiter(g) =>
        if g == f {
          SettledRests(s, f);
          WaiterElsewhere(s, f);
          WaiterNearer(s, f);
        } else {
          OtherNearer(s, f);
        }
    }
    if Of(t, f).sold == Of(s, f).sold {
      var rest, u := Serve(t, f);
      ReachTwice(s, schedule, t, rest, u);
      schedule, t := schedule + rest, u;
    }
  }

  /** From every reachable state the factory can go on to sell another cake of each flavour. */
  lemma Progress(s: State, schedule: seq<Thread>, t: State) returns (more: seq<Thread>, u: State)
    requires Initial(s) && Reaches(s, schedule, t)
    ensures Reaches(t, more, u) && forall f :: Of(u, f).sold > Of(t, f).sold
  {
    hide CanStep, Step;
    InvRun(s, schedule, t);
    var a, t1 := Settle(t);
    var b, t2 := Serve(t1, Vanilla);
    var c, t3 := Serve(t2, Chocolate);
    ReachTwice(t, a, t1, b, t2);
    ReachTwice(t, a + b, t2, c, t3);
    more, u := a + b + c, t3;
    SoldRun(t, a, t1, Vanilla);
    SoldRun(t2, c, t3, Vanilla);
    SoldRun(t, a + b, t2, Chocolate);
    forall f ensures Of(u, f).sold > Of(t, f).sold { assert f == Vanilla || f == Chocolate; }
  }
}
