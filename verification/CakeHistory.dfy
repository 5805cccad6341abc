/** How many cakes have been made and sold, told from the schedule alone: a chef or waiter says hello in
    two steps and then goes round a loop of eleven, in the seventh of which the cake changes hands. */
module CakeHistory {
  import opened CakeFactory

  /** How often x has taken a step. */
  function Turns(schedule: seq<Thread>, x: Thread): nat {
    if schedule == [] then 0 else (if schedule[0] == x then 1 else 0) + Turns(schedule[1..], x)
  }

  /** Where a chef or waiter is after c steps, and how many cakes it has then handled. */
  function Where(c: nat): nat { if c < 2 then 11 + c else (c - 2) % 11 }

  function Handled(c: nat): int { if c < 9 then 0 else (c - 9) / 11 + 1 }

  predicate Told(s: State, f: Flavour, c: nat, w: nat) {
    && Of(s, f).chef == Where(c) && Of(s, f).made == Handled(c)
    && Of(s, f).waiter == Where(w) && Of(s, f).sold == Handled(w)
  }

  lemma OneMore(c: nat)
    ensures Where(c + 1) == Next(Where(c), 10) && Where(c) <= 12
    ensures Handled(c + 1) == Handled(c) + B(Where(c) == 6)
  {
    if c >= 2 {
      var q, r := (c - 2) / 11, (c - 2) % 11;
      assert c - 2 == 11 * q + r;
      assert (c - 1) % 11 == if r == 10 then 0 else r + 1;
    }
  }

  lemma ChefHandles(s: State, f: Flavour)
    requires ChefCanStep(s, f) && Of(s, f).chef <= 12
    ensures var x, y := Of(s, f), Of(ChefStep(s, f), f);
      && y.waiter == x.waiter && y.sold == x.sold
      && y.chef == Next(x.chef, 10) && y.made == x.made + B(x.chef == 6)
  { }

  lemma WaiterHandles(s: State, f: Flavour)
    requires WaiterCanStep(s, f) && Of(s, f).waiter <= 12
    ensures var x, y := Of(s, f), Of(WaiterStep(s, f), f);
      && y.chef == x.chef && y.made == x.made
      && y.waiter == Next(x.waiter, 10) && y.sold == x.sold + B(x.waiter == 6)
  { }

  lemma CarrierHandles(s: State, f: Flavour)
    requires CarrierCanStep(s)
    ensures var x, y := Of(s, f), Of(CarrierStep(s), f);
      y.chef == x.chef && y.made == x.made && y.waiter == x.waiter && y.sold == x.sold
  { }

  lemma ToldStep(s: State, x: Thread, f: Flavour, c: nat, w: nat)
    requires CanStep(s, x) && Told(s, f, c, w)
    ensures Told(Step(s, x), f, c + B(x == Chef(f)), w + B(x == Waiter(f)))
  {
    hide Where, Handled, Of, ChefStep, WaiterStep, CarrierStep, ChefCanStep, WaiterCanStep, CarrierCanStep, Next;
    OneMore(c);
    OneMore(w);
    match x
    case Chef(g) => if g == f { ChefHandles(s, f); } else { OtherChef(s, g, f); }
    case Carrier => CarrierHandles(s, f);
    case Waiter(g) => if g == f { WaiterHandles(s, f); } else { OtherWaiter(s, g, f); }
  }

  lemma OtherChef(s: State, g: Flavour, f: Flavour)
    requires ChefCanStep(s, g) && g != f
    ensures Of(ChefStep(s, g), f) == Of(s, f)
  { }

  lemma OtherWaiter(s: State, g: Flavour, f: Flavour)
    requires WaiterCanStep(s, g) && g != f
    ensures Of(WaiterStep(s, g), f) == Of(s, f)
  { }

  lemma {:induction false} ToldRun(s: State, schedule: seq<Thread>, t: State, f: Flavour, c: nat, w: nat)
    requires Reaches(s, schedule, t) && Told(s, f, c, w)
    ensures Told(t, f, c + Turns(schedule, Chef(f)), w + Turns(schedule, Waiter(f)))
    decreases |schedule|
  {
    hide CanStep, Step, Told;
    if schedule != [] {
      var x := schedule[0];
      ToldStep(s, x, f, c, w);
      ToldRun(Step(s, x), schedule[1..], t, f, c + B(x == Chef(f)), w + B(x == Waiter(f)));
    }
  }

  /** In every reachable state, the cakes made and sold of each flavour. */
  lemma MadeAndSold(s: State, schedule: seq<Thread>, t: State, f: Flavour)
    requires Initial(s) && Reaches(s, schedule, t)
    ensures Of(t, f).made == Handled(Turns(schedule, Chef(f)))
    ensures Of(t, f).sold == Handled(Turns(schedule, Waiter(f)))
  {
    ToldRun(s, schedule, t, f, 0, 0);
  }
}
