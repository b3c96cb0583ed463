/**
  Admission of embedding requests (src/embedding_admission.rs) as a protocol of atomic steps:
  a request looks up or replaces the gate of its model, waits, is granted a permit or times
  out, and releases it. Any interleaving of the steps of any number of requests is a run.
 */
module Admission {
  import opened Prelude

  /** An entry of the map of gates: the concurrency it was made for, and its semaphore. */
  datatype Gate = Gate(limit: nat, semaphore: nat)

  datatype Semaphore = Semaphore(model: string, capacity: nat, available: nat)

  /** What a request keeps: its clone of the semaphore, waiting for or holding one permit of it. */
  datatype Ticket = Ticket(model: string, semaphore: nat)

  datatype State = State(
    gates: map<string, Gate>,
    semaphores: seq<Semaphore>,
    waiting: map<nat, Ticket>,
    holding: map<nat, Ticket>,
    depth: map<string, int>)

  datatype Step =
    | Enter(task: nat, model: string, concurrency: nat)
    | Grant(task: nat)
    | TimeOut(task: nat)
    | Drop(task: nat)
    | Release(task: nat)

  const START := State(map[], [], map[], map[], map[])

  function Limit(concurrency: nat): nat {
    Max(concurrency, 1)
  }

  // ----- The steps -----------------------------------------------------------

  predicate KnownTickets(s: State, tickets: map<nat, Ticket>) {
    forall t <- tickets ::
      && tickets[t].semaphore < |s.semaphores|
      && s.semaphores[tickets[t].semaphore].model == tickets[t].model
  }

  /** Every reference leads to a semaphore of the right model, and a gate knows its capacity. */
  predicate Formed(s: State) {
    && KnownTickets(s, s.waiting)
    && KnownTickets(s, s.holding)
    && s.waiting.Keys !! s.holding.Keys
    && forall m <- s.gates ::
         && s.gates[m].semaphore < |s.semaphores|
         && s.semaphores[s.gates[m].semaphore].model == m
         && s.semaphores[s.gates[m].semaphore].capacity == s.gates[m].limit
  }

  /** `available_permits()` of the gate equals its limit. */
  predicate Idle(s: State, model: string)
    requires Formed(s) && model in s.gates
  {
    s.semaphores[s.gates[model].semaphore].available == s.gates[model].limit
  }

  /** `or_insert_with`, then replace an idle gate of another limit. */
  function LookUp(s: State, model: string, concurrency: nat): (r: State)
    requires Formed(s)
    ensures Formed(r) && model in r.gates
  {
    if model in s.gates && (s.gates[model].limit == Limit(concurrency) || !Idle(s, model)) then s
    else
      s.(gates := s.gates[model := Gate(Limit(concurrency), |s.semaphores|)],
         semaphores := s.semaphores + [Semaphore(model, Limit(concurrency), Limit(concurrency))])
  }

  function Depth(s: State, model: string): int {
    if model in s.depth then s.depth[model] else 0
  }

  predicate Enabled(s: State, step: Step)
    requires Formed(s)
  {
    match step
    case Enter(t, _, _) => t !in s.waiting && t !in s.holding
    case Grant(t) => t in s.waiting && s.semaphores[s.waiting[t].semaphore].available > 0
    case TimeOut(t) => t in s.waiting
    case Drop(t) => t in s.waiting
    case Release(t) => t in s.holding
  }

  /** The gauge is decremented when the wait ends, but not when the waiting request is dropped. */
  function Next(s: State, step: Step): (r: State)
    requires Formed(s) && Enabled(s, step)
    ensures Formed(r)
  {
    match step
    case Enter(t, m, c) =>
      var looked := LookUp(s, m, c);
      looked.(waiting := s.waiting[t := Ticket(m, looked.gates[m].semaphore)], depth := s.depth[m := Depth(s, m) + 1])
    case Grant(t) =>
      var ticket := s.waiting[t];
      var semaphore := s.semaphores[ticket.semaphore];
      s.(waiting := s.waiting - {t},
         holding := s.holding[t := ticket],
         semaphores := s.semaphores[ticket.semaphore := semaphore.(available := semaphore.available - 1)],
         depth := s.depth[ticket.model := Depth(s, ticket.model) - 1])
    case TimeOut(t) =>
      var ticket := s.waiting[t];
      s.(waiting := s.waiting - {t}, depth := s.depth[ticket.model := Depth(s, ticket.model) - 1])
    case Drop(t) => s.(waiting := s.waiting - {t})
    case Release(t) =>
      var ticket := s.holding[t];
      var semaphore := s.semaphores[ticket.semaphore];
      s.(holding := s.holding - {t},
         semaphores := s.semaphores[ticket.semaphore := semaphore.(available := semaphore.available + 1)])
  }

  /** A run: the steps of all requests in the order they happened; a step that is not enabled changes nothing. */
  function Run(s: State, steps: seq<Step>): (r: State)
    requires Formed(s)
    ensures Formed(r)
  {
    if steps == [] then s
    else
      var before, last := Run(s, steps[..|steps| - 1]), steps[|steps| - 1];
      if Enabled(before, last) then Next(before, last) else before
  }

  // ----- Conservation of permits ---------------------------------------------

  function TasksOn(tickets: map<nat, Ticket>, semaphore: nat): set<nat> {
    set t <- tickets | tickets[t].semaphore == semaphore
  }

  function TasksOf(tickets: map<nat, Ticket>, model: string): set<nat> {
    set t <- tickets | tickets[t].model == model
  }

  lemma TasksOnInsert(tickets: map<nat, Ticket>, t: nat, ticket: Ticket, semaphore: nat)
    requires t !in tickets
    ensures |TasksOn(tickets[t := ticket], semaphore)|
            == |TasksOn(tickets, semaphore)| + if ticket.semaphore == semaphore then 1 else 0
  {
    assert TasksOn(tickets[t := ticket], semaphore)
        == TasksOn(tickets, semaphore) + if ticket.semaphore == semaphore then {t} else {};
  }

  lemma TasksOnRemove(tickets: map<nat, Ticket>, t: nat, semaphore: nat)
    requires t in tickets
    ensures |TasksOn(tickets - {t}, semaphore)|
            == |TasksOn(tickets, semaphore)| - if tickets[t].semaphore == semaphore then 1 else 0
  {
    assert TasksOn(tickets, semaphore)
        == TasksOn(tickets - {t}, semaphore) + if tickets[t].semaphore == semaphore then {t} else {};
  }

  ghost predicate Conserves(s: State, k: nat)
    requires k < |s.semaphores|
  {
    |TasksOn(s.holding, k)| + s.semaphores[k].available == s.semaphores[k].capacity
  }

  /** Of every semaphore, the permits out and the permits available make its capacity. */
  ghost predicate Conserved(s: State) {
    forall k: nat | k < |s.semaphores| :: Conserves(s, k)
  }

  lemma NothingHeldYet(s: State, k: nat)
    requires Formed(s) && k >= |s.semaphores|
    ensures TasksOn(s.holding, k) == {}
  {
  }

  lemma StepConserves(s: State, step: Step, k: nat)
    requires Formed(s) && Conserved(s) && Enabled(s, step) && k < |Next(s, step).semaphores|
    ensures Conserves(Next(s, step), k)
  {
    if k < |s.semaphores| {
      assert Conserves(s, k);
    } else {
      NothingHeldYet(s, k);
    }
    match step {
      case Grant(t) => TasksOnInsert(s.holding, t, s.waiting[t], k);
      case Release(t) => TasksOnRemove(s.holding, t, k);
      case _ =>
    }
  }

  lemma StepConservesAll(s: State, step: Step)
    requires Formed(s) && Conserved(s) && Enabled(s, step)
    ensures Conserved(Next(s, step))
  {
    forall k: nat | k < |Next(s, step).semaphores|
      ensures Conserves(Next(s, step), k)
    {
      StepConserves(s, step, k);
    }
  }

  /** Along every run, no permit is lost and none is made. */
  lemma {:induction false} RunConserves(s: State, steps: seq<Step>)
    requires Formed(s) && Conserved(s)
    ensures Conserved(Run(s, steps))
  {
    if steps == [] {
    } else {
      var init, last := steps[..|steps| - 1], steps[|steps| - 1];
      RunConserves(s, init);
      var before := Run(s, init);
      if Enabled(before, last) {
        StepConservesAll(before, last);
      }
    }
  }

  // ----- Replacing a gate ----------------------------------------------------

  /** A concurrency of zero counts as one. */
  function AtLeastOne(concurrency: nat): nat {
    if concurrency == 0 then 1 else concurrency
  }

  /** Entering replaces a gate exactly when its limit differs and none of its permits is out. */
  lemma ReplacedOnlyWhenIdle(s: State, t: nat, model: string, concurrency: nat)
    requires Formed(s) && Conserved(s) && Enabled(s, Enter(t, model, concurrency)) && model in s.gates
    ensures var r := Next(s, Enter(t, model, concurrency));
            r.gates[model] != s.gates[model]
            <==> s.gates[model].limit != AtLeastOne(concurrency) && TasksOn(s.holding, s.gates[model].semaphore) == {}
  {
    assert Conserves(s, s.gates[model].semaphore);
  }

  /** No other step and no other model's request touches a gate. */
  lemma OtherStepsKeepGates(s: State, step: Step, model: string)
    requires Formed(s) && Enabled(s, step) && model in s.gates
    requires !(step.Enter? && step.model == model)
    ensures model in Next(s, step).gates && Next(s, step).gates[model] == s.gates[model]
  {
  }

  /** The permits out on the current gate stay within its limit. */
  lemma CurrentGateWithinLimit(steps: seq<Step>, model: string)
    ensures var s := Run(START, steps);
            model in s.gates ==> |TasksOn(s.holding, s.gates[model].semaphore)| <= s.gates[model].limit
  {
    var s := Run(START, steps);
    RunConserves(START, steps);
    if model in s.gates {
      assert Conserves(s, s.gates[model].semaphore);
    }
  }

  /** Requests that still wait for, or hold, a permit of a semaphore. */
  function Using(s: State, k: nat): nat {
    |TasksOn(s.waiting, k)| + |TasksOn(s.holding, k)|
  }

  ghost predicate Retired(s: State, k: nat) {
    k < |s.semaphores| && forall m <- s.gates :: s.gates[m].semaphore != k
  }

  lemma GrantKeepsUsers(s: State, t: nat, k: nat)
    requires Formed(s) && Enabled(s, Grant(t))
    ensures Using(Next(s, Grant(t)), k) == Using(s, k)
  {
    TasksOnRemove(s.waiting, t, k);
    TasksOnInsert(s.holding, t, s.waiting[t], k);
  }

  lemma EnterKeepsUsers(s: State, t: nat, m: string, c: nat, k: nat)
    requires Formed(s) && Enabled(s, Enter(t, m, c)) && Retired(s, k)
    ensures Using(Next(s, Enter(t, m, c)), k) == Using(s, k)
  {
    TasksOnInsert(s.waiting, t, Ticket(m, LookUp(s, m, c).gates[m].semaphore), k);
  }

  lemma StepKeepsRetired(s: State, step: Step, k: nat)
    requires Formed(s) && Enabled(s, step) && Retired(s, k)
    ensures Retired(Next(s, step), k)
  {
  }

  lemma StepDrains(s: State, step: Step, k: nat)
    requires Formed(s) && Enabled(s, step) && Retired(s, k)
    ensures Retired(Next(s, step), k) && Using(Next(s, step), k) <= Using(s, k)
  {
    StepKeepsRetired(s, step, k);
    match step {
      case Enter(t, m, c) => EnterKeepsUsers(s, t, m, c, k);
      case Grant(t) => GrantKeepsUsers(s, t, k);
      case TimeOut(t) => TasksOnRemove(s.waiting, t, k);
      case Drop(t) => TasksOnRemove(s.waiting, t, k);
      case Release(t) => TasksOnRemove(s.holding, t, k);
    }
  }

  /** A replaced semaphore never comes back, and only the requests that cloned it before can still use it. */
  lemma {:induction false} RetiredOnlyDrains(s: State, steps: seq<Step>, k: nat)
    requires Formed(s) && Retired(s, k)
    ensures Retired(Run(s, steps), k) && Using(Run(s, steps), k) <= Using(s, k)
  {
    if steps == [] {
    } else {
      var init, last := steps[..|steps| - 1], steps[|steps| - 1];
      RetiredOnlyDrains(s, init, k);
      var before := Run(s, init);
      if Enabled(before, last) {
        StepDrains(before, last, k);
      }
    }
  }

  // ----- When the limit of a model holds -------------------------------------

  /** Every request for the model asks for one of these two concurrencies. */
  predicate Asks(steps: seq<Step>, model: string, a: nat, b: nat) {
    forall step <- steps :: step.Enter? && step.model == model ==> step.concurrency == a || step.concurrency == b
  }

  function Held(s: State, model: string): nat {
    |TasksOf(s.holding, model)|
  }

  /** In every run, at most the larger of the two limits is out. */
  ghost predicate LimitAlwaysHolds(model: string, a: nat, b: nat) {
    forall steps :: Asks(steps, model, a, b) ==> Held(Run(START, steps), model) <= AtLeastOne(Max(a, b))
  }

  /** All semaphores ever made for the model are the one of its gate, with this limit. */
  ghost predicate OneGate(s: State, model: string, limit: nat) {
    forall k: nat | k < |s.semaphores| && s.semaphores[k].model == model ::
      model in s.gates && s.gates[model] == Gate(limit, k)
  }

  lemma LookUpKeepsOneGate(s: State, other: string, concurrency: nat, model: string, limit: nat)
    requires Formed(s) && OneGate(s, model, limit)
    requires other == model ==> Limit(concurrency) == limit
    ensures OneGate(LookUp(s, other, concurrency), model, limit)
  {
    if other in s.gates {
      assert s.semaphores[s.gates[other].semaphore].model == other;
    }
  }

  lemma StepKeepsOneGate(s: State, step: Step, model: string, limit: nat)
    requires Formed(s) && Enabled(s, step) && OneGate(s, model, limit)
    requires step.Enter? && step.model == model ==> Limit(step.concurrency) == limit
    ensures OneGate(Next(s, step), model, limit)
  {
    var r := Next(s, step);
    if step.Enter? {
      LookUpKeepsOneGate(s, step.model, step.concurrency, model, limit);
      var looked := LookUp(s, step.model, step.concurrency);
      assert r.gates == looked.gates && r.semaphores == looked.semaphores;
    } else {
      assert r.gates == s.gates && |r.semaphores| == |s.semaphores|;
      assert forall k: nat | k < |s.semaphores| :: r.semaphores[k].model == s.semaphores[k].model;
    }
  }

  lemma {:induction false} RunKeepsOneGate(steps: seq<Step>, model: string, a: nat, b: nat)
    requires Asks(steps, model, a, b) && Limit(a) == Limit(b)
    ensures OneGate(Run(START, steps), model, Limit(a))
  {
    if steps == [] {
    } else {
      var init, last := steps[..|steps| - 1], steps[|steps| - 1];
      assert last in steps;
      assert forall step <- init :: step in steps;
      RunKeepsOneGate(init, model, a, b);
      var before := Run(START, init);
      if Enabled(before, last) {
        StepKeepsOneGate(before, last, model, Limit(a));
      }
    }
  }

  lemma OneGateHolds(steps: seq<Step>, model: string, a: nat, b: nat)
    requires Asks(steps, model, a, b) && Limit(a) == Limit(b)
    ensures Held(Run(START, steps), model) <= Limit(a)
  {
    var s := Run(START, steps);
    RunKeepsOneGate(steps, model, a, b);
    CurrentGateWithinLimit(steps, model);
    if TasksOf(s.holding, model) != {} {
      var t :| t in TasksOf(s.holding, model);
      assert model in s.gates;
      assert TasksOf(s.holding, model) == TasksOn(s.holding, s.gates[model].semaphore);
    }
  }

  lemma RunSnoc(s: State, steps: seq<Step>, last: Step)
    requires Formed(s)
    ensures var before := Run(s, steps);
            Run(s, steps + [last]) == if Enabled(before, last) then Next(before, last) else before
  {
    assert (steps + [last])[..|steps|] == steps;
  }

  lemma AsksSnoc(steps: seq<Step>, last: Step, model: string, a: nat, b: nat)
    requires Asks(steps, model, a, b)
    requires last.Enter? && last.model == model ==> last.concurrency == a || last.concurrency == b
    ensures Asks(steps + [last], model, a, b)
  {
  }

  /** A request looks up the gate made for `a`; then `n` requests for `b` enter and are granted, one after the other. */
  function Overrun(model: string, a: nat, b: nat, n: nat): seq<Step> {
    if n == 0 then [Enter(0, model, a)]
    else Overrun(model, a, b, n - 1) + [Enter(n, model, b)] + [Grant(n)]
  }

  function Granted(model: string, n: nat): (r: map<nat, Ticket>)
    ensures |r| == n && forall t: nat :: t in r <==> 1 <= t <= n
    ensures forall t <- r :: r[t] == Ticket(model, 1)
  {
    if n == 0 then map[] else Granted(model, n - 1)[n := Ticket(model, 1)]
  }

  /** The gate has been replaced, `n` permits of the new one are out, and request 0 still waits on the old one. */
  function Overrunning(model: string, a: nat, b: nat, n: nat): (s: State)
    requires n <= b
    ensures Formed(s)
  {
    State(map[model := Gate(b, 1)], [Semaphore(model, a, a), Semaphore(model, b, b - n)],
          map[0 := Ticket(model, 0)], Granted(model, n), map[model := 1])
  }

  /** Then request `n + 1` has entered too. */
  function Entered(model: string, a: nat, b: nat, n: nat): (s: State)
    requires n <= b
    ensures Formed(s)
  {
    State(map[model := Gate(b, 1)], [Semaphore(model, a, a), Semaphore(model, b, b - n)],
          map[0 := Ticket(model, 0), n + 1 := Ticket(model, 1)], Granted(model, n), map[model := 2])
  }

  /** After the first request entered. */
  function Opened(model: string, a: nat): (s: State)
    ensures Formed(s)
  {
    State(map[model := Gate(a, 0)], [Semaphore(model, a, a)], map[0 := Ticket(model, 0)], map[], map[model := 1])
  }

  lemma OverrunOpens(model: string, a: nat)
    ensures Run(START, [Enter(0, model, a)]) == Opened(model, Limit(a))
  {
    RunSnoc(START, [], Enter(0, model, a));
    assert [] + [Enter(0, model, a)] == [Enter(0, model, a)];
  }

  lemma OpenedIsReplaced(model: string, a: nat, b: nat)
    requires a != Limit(b)
    ensures Enabled(Opened(model, a), Enter(1, model, b))
    ensures Next(Opened(model, a), Enter(1, model, b)) == Entered(model, a, Limit(b), 0)
  {
    var r := Next(Opened(model, a), Enter(1, model, b));
    assert r.gates == map[model := Gate(Limit(b), 1)];
    assert r.semaphores == [Semaphore(model, a, a), Semaphore(model, Limit(b), Limit(b))];
  }

  lemma OverrunGrants(model: string, a: nat, b: nat, n: nat)
    requires n < b
    ensures Enabled(Entered(model, a, b, n), Grant(n + 1))
    ensures Next(Entered(model, a, b, n), Grant(n + 1)) == Overrunning(model, a, b, n + 1)
  {
    var r, goal := Next(Entered(model, a, b, n), Grant(n + 1)), Overrunning(model, a, b, n + 1);
    assert r.waiting == goal.waiting;
    assert r.semaphores == goal.semaphores;
  }

  lemma OverrunEnters(model: string, a: nat, b: nat, n: nat)
    requires n <= Limit(b)
    ensures Enabled(Overrunning(model, a, Limit(b), n), Enter(n + 1, model, b))
    ensures Next(Overrunning(model, a, Limit(b), n), Enter(n + 1, model, b)) == Entered(model, a, Limit(b), n)
  {
    var s := Overrunning(model, a, Limit(b), n);
    OverrunLooksUp(model, a, b, n);
    EnterOpen(s, n + 1, model, b);
    OneMoreWaits(model, n + 1);
  }

  lemma OverrunLooksUp(model: string, a: nat, b: nat, n: nat)
    requires n <= Limit(b)
    ensures var s := Overrunning(model, a, Limit(b), n);
            LookUp(s, model, b) == s && Enabled(s, Enter(n + 1, model, b)) && Depth(s, model) == 1
  {
  }

  lemma OneMoreWaits(model: string, t: nat)
    requires t > 0
    ensures map[0 := Ticket(model, 0)][t := Ticket(model, 1)] == map[0 := Ticket(model, 0), t := Ticket(model, 1)]
    ensures map[model := 1][model := 2] == map[model := 2]
  {
  }

  /** Entering where the gate stays. */
  lemma EnterOpen(s: State, t: nat, model: string, b: nat)
    requires Formed(s) && Enabled(s, Enter(t, model, b)) && model in s.gates && LookUp(s, model, b) == s
    ensures Next(s, Enter(t, model, b))
            == s.(waiting := s.waiting[t := Ticket(model, s.gates[model].semaphore)],
                  depth := s.depth[model := Depth(s, model) + 1])
  {
  }

  lemma RunTwo(s: State, steps: seq<Step>, first: Step, second: Step)
    requires Formed(s) && Enabled(Run(s, steps), first) && Enabled(Next(Run(s, steps), first), second)
    ensures Run(s, steps + [first] + [second]) == Next(Next(Run(s, steps), first), second)
  {
    RunSnoc(s, steps, first);
    RunSnoc(s, steps + [first], second);
  }

  lemma OverrunRound(steps: seq<Step>, model: string, a: nat, b: nat, n: nat)
    requires n < Limit(b)
    requires Enabled(Run(START, steps), Enter(n + 1, model, b))
    requires Next(Run(START, steps), Enter(n + 1, model, b)) == Entered(model, a, Limit(b), n)
    ensures Run(START, steps + [Enter(n + 1, model, b)] + [Grant(n + 1)]) == Overrunning(model, a, Limit(b), n + 1)
  {
    OverrunGrants(model, a, Limit(b), n);
    RunTwo(START, steps, Enter(n + 1, model, b), Grant(n + 1));
  }

  lemma FirstRound(model: string, a: nat, b: nat)
    requires Limit(a) != Limit(b)
    ensures Run(START, [Enter(0, model, a)] + [Enter(1, model, b)] + [Grant(1)])
            == Overrunning(model, Limit(a), Limit(b), 1)
  {
    OverrunOpens(model, a);
    OpenedIsReplaced(model, Limit(a), b);
    OverrunRound([Enter(0, model, a)], model, Limit(a), b, 0);
  }

  lemma NextRound(steps: seq<Step>, model: string, a: nat, b: nat, n: nat)
    requires 1 <= n < Limit(b) && Run(START, steps) == Overrunning(model, a, Limit(b), n)
    ensures Run(START, steps + [Enter(n + 1, model, b)] + [Grant(n + 1)]) == Overrunning(model, a, Limit(b), n + 1)
  {
    OverrunEnters(model, a, b, n);
    OverrunRound(steps, model, a, b, n);
  }

  ghost predicate OverrunLeads(model: string, a: nat, b: nat, n: nat)
    requires n <= Limit(b)
  {
    Run(START, Overrun(model, a, b, n)) == Overrunning(model, Limit(a), Limit(b), n)
  }

  lemma {:induction false} OverrunRuns(model: string, a: nat, b: nat, n: nat)
    requires Limit(a) != Limit(b) && 1 <= n <= Limit(b)
    ensures OverrunLeads(model, a, b, n)
  {
    if n == 1 {
      assert Overrun(model, a, b, 0) == [Enter(0, model, a)];
      FirstRound(model, a, b);
    } else {
      OverrunRuns(model, a, b, n - 1);
      NextRound(Overrun(model, a, b, n - 1), model, Limit(a), b, n - 1);
    }
  }

  lemma {:induction false} OverrunAsks(model: string, a: nat, b: nat, n: nat)
    ensures Asks(Overrun(model, a, b, n), model, a, b)
  {
    if n == 0 {
    } else {
      OverrunAsks(model, a, b, n - 1);
      AsksSnoc(Overrun(model, a, b, n - 1), Enter(n, model, b), model, a, b);
      AsksSnoc(Overrun(model, a, b, n - 1) + [Enter(n, model, b)], Grant(n), model, a, b);
    }
  }

  lemma OverrunOneMore(model: string, a: nat, b: nat)
    requires a >= 1
    ensures Enabled(Overrunning(model, a, b, b), Grant(0))
    ensures Held(Next(Overrunning(model, a, b, b), Grant(0)), model) == b + 1
  {
    var holding := Next(Overrunning(model, a, b, b), Grant(0)).holding;
    assert holding == Granted(model, b)[0 := Ticket(model, 0)];
    assert TasksOf(holding, model) == Granted(model, b).Keys + {0};
    assert |Granted(model, b).Keys| == |Granted(model, b)|;
  }

  /** A request that looked up the gate before it was replaced is admitted beside a full new gate. */
  lemma OverrunExceeds(model: string, a: nat, b: nat)
    requires Limit(a) < Limit(b)
    ensures var steps := Overrun(model, a, b, Limit(b)) + [Grant(0)];
            Asks(steps, model, a, b) && Held(Run(START, steps), model) == AtLeastOne(b) + 1
  {
    OverrunRuns(model, a, b, Limit(b));
    OverrunAsks(model, a, b, Limit(b));
    AsksSnoc(Overrun(model, a, b, Limit(b)), Grant(0), model, a, b);
    OverrunOneMore(model, Limit(a), Limit(b));
    RunSnoc(START, Overrun(model, a, b, Limit(b)), Grant(0));
  }

  lemma AsksSwapped(steps: seq<Step>, model: string, a: nat, b: nat)
    requires Asks(steps, model, a, b)
    ensures Asks(steps, model, b, a)
  {
  }

  /** The limit of a model holds in every run exactly when its concurrency argument never changes. */
  lemma LimitHoldsExactly(model: string, a: nat, b: nat)
    ensures LimitAlwaysHolds(model, a, b) <==> AtLeastOne(a) == AtLeastOne(b)
  {
    if Limit(a) == Limit(b) {
      forall steps | Asks(steps, model, a, b)
        ensures Held(Run(START, steps), model) <= AtLeastOne(Max(a, b))
      {
        OneGateHolds(steps, model, a, b);
      }
    } else if Limit(a) < Limit(b) {
      OverrunExceeds(model, a, b);
    } else {
      OverrunExceeds(model, b, a);
      AsksSwapped(Overrun(model, b, a, Limit(a)) + [Grant(0)], model, b, a);
    }
  }

  // ----- The cap is reached --------------------------------------------------

  /** `n` requests enter and are granted, one after the other. */
  function Fill(model: string, a: nat, n: nat): seq<Step> {
    if n == 0 then [] else Fill(model, a, n - 1) + [Enter(n - 1, model, a)] + [Grant(n - 1)]
  }

  /** The tickets of requests 0 to n - 1 for the one semaphore. */
  function Given(model: string, n: nat): (r: map<nat, Ticket>)
    ensures |r| == n && forall t: nat :: t in r <==> t < n
    ensures forall t <- r :: r[t] == Ticket(model, 0)
  {
    if n == 0 then map[] else Given(model, n - 1)[n - 1 := Ticket(model, 0)]
  }

  /** `n` permits are out, and nobody waits. */
  function Filled(model: string, limit: nat, n: nat): (s: State)
    requires n <= limit
    ensures Formed(s)
  {
    if n == 0 then START
    else
      State(map[model := Gate(limit, 0)], [Semaphore(model, limit, limit - n)], map[], Given(model, n),
            map[model := 0])
  }

  /** Then request `n` has entered. */
  function Filling(model: string, limit: nat, n: nat): (s: State)
    requires n <= limit
    ensures Formed(s)
  {
    State(map[model := Gate(limit, 0)], [Semaphore(model, limit, limit - n)], map[n := Ticket(model, 0)],
          Given(model, n), map[model := 1])
  }

  lemma FillLooksUp(model: string, a: nat, n: nat)
    requires 1 <= n <= Limit(a)
    ensures var s := Filled(model, Limit(a), n);
            LookUp(s, model, a) == s && Enabled(s, Enter(n, model, a)) && Depth(s, model) == 0
  {
  }

  lemma OneWaits(model: string, t: nat)
    ensures map[][t := Ticket(model, 0)] == map[t := Ticket(model, 0)]
    ensures map[model := 0][model := 1] == map[model := 1]
    ensures map[model := 1][model := 0] == map[model := 0]
    ensures map[t := Ticket(model, 0)] - {t} == map[]
  {
  }

  lemma FillEnters(model: string, a: nat, n: nat)
    requires n < Limit(a)
    ensures Enabled(Filled(model, Limit(a), n), Enter(n, model, a))
    ensures Next(Filled(model, Limit(a), n), Enter(n, model, a)) == Filling(model, Limit(a), n)
  {
    if n == 0 {
      OverrunOpens(model, a);
      RunSnoc(START, [], Enter(0, model, a));
      assert [] + [Enter(0, model, a)] == [Enter(0, model, a)];
    } else {
      FillLooksUp(model, a, n);
      EnterOpen(Filled(model, Limit(a), n), n, model, a);
      OneWaits(model, n);
    }
  }

  lemma FillGrants(model: string, limit: nat, n: nat)
    requires n < limit
    ensures Enabled(Filling(model, limit, n), Grant(n))
    ensures Next(Filling(model, limit, n), Grant(n)) == Filled(model, limit, n + 1)
  {
    var r, goal := Next(Filling(model, limit, n), Grant(n)), Filled(model, limit, n + 1);
    OneWaits(model, n);
    assert r.waiting == goal.waiting;
    assert r.semaphores == goal.semaphores;
  }

  ghost predicate FillLeads(model: string, a: nat, n: nat)
    requires n <= Limit(a)
  {
    Run(START, Fill(model, a, n)) == Filled(model, Limit(a), n)
  }

  lemma {:induction false} FillAsks(model: string, a: nat, n: nat)
    ensures Asks(Fill(model, a, n), model, a, a)
  {
    if n == 0 {
    } else {
      var steps := Fill(model, a, n - 1);
      FillAsks(model, a, n - 1);
      AsksSnoc(steps, Enter(n - 1, model, a), model, a, a);
      AsksSnoc(steps + [Enter(n - 1, model, a)], Grant(n - 1), model, a, a);
    }
  }

  lemma FillOneMore(steps: seq<Step>, model: string, a: nat, n: nat)
    requires n < Limit(a) && Run(START, steps) == Filled(model, Limit(a), n)
    ensures Run(START, steps + [Enter(n, model, a)] + [Grant(n)]) == Filled(model, Limit(a), n + 1)
  {
    FillEnters(model, a, n);
    FillGrants(model, Limit(a), n);
    RunTwo(START, steps, Enter(n, model, a), Grant(n));
  }

  lemma FillNext(model: string, a: nat, n: nat)
    requires n < Limit(a) && FillLeads(model, a, n)
    ensures FillLeads(model, a, n + 1)
  {
    FillOneMore(Fill(model, a, n), model, a, n);
    FillUnfolds(model, a, n);
  }

  lemma FillUnfolds(model: string, a: nat, n: nat)
    ensures Fill(model, a, n + 1) == Fill(model, a, n) + [Enter(n, model, a)] + [Grant(n)]
  {
  }

  lemma {:induction false} FillRuns(model: string, a: nat, n: nat)
    requires n <= Limit(a)
    ensures FillLeads(model, a, n)
  {
    if n == 0 {
    } else {
      FillRuns(model, a, n - 1);
      FillNext(model, a, n - 1);
    }
  }

  lemma FilledHolds(model: string, limit: nat)
    ensures Held(Filled(model, limit, limit), model) == limit
  {
    var holding := Filled(model, limit, limit).holding;
    assert TasksOf(holding, model) == holding.Keys;
    assert |holding.Keys| == |holding|;
  }

  /** If every request for the model asks for `a`, at most `a` permits (one for zero) are out, and so many can be. */
  lemma CapIsReached(model: string, a: nat)
    ensures forall steps :: Asks(steps, model, a, a) ==> Held(Run(START, steps), model) <= if a == 0 then 1 else a
    ensures exists steps :: Asks(steps, model, a, a) && Held(Run(START, steps), model) == if a == 0 then 1 else a
  {
    forall steps | Asks(steps, model, a, a)
      ensures Held(Run(START, steps), model) <= if a == 0 then 1 else a
    {
      OneGateHolds(steps, model, a, a);
    }
    FillRuns(model, a, Limit(a));
    FillAsks(model, a, Limit(a));
    var steps := Fill(model, a, Limit(a));
    FilledHolds(model, Limit(a));
    assert Asks(steps, model, a, a) && Held(Run(START, steps), model) == if a == 0 then 1 else a;
  }

  // ----- The queue-depth gauge -----------------------------------------------

  /** How far the gauge is above the number of requests really waiting. */
  function Excess(s: State, model: string): int {
    Depth(s, model) - |TasksOf(s.waiting, model)|
  }

  /** How many requests for the model were dropped while they waited. */
  function Dropped(s: State, steps: seq<Step>, model: string): nat
    requires Formed(s)
  {
    if steps == [] then 0
    else
      var init, last := steps[..|steps| - 1], steps[|steps| - 1];
      Dropped(s, init, model) + if DropsOne(Run(s, init), last, model) then 1 else 0
  }

  predicate DropsOne(s: State, step: Step, model: string) {
    step.Drop? && step.task in s.waiting && s.waiting[step.task].model == model
  }

  lemma TasksOfInsert(tickets: map<nat, Ticket>, t: nat, ticket: Ticket, model: string)
    requires t !in tickets
    ensures |TasksOf(tickets[t := ticket], model)| == |TasksOf(tickets, model)| + if ticket.model == model then 1 else 0
  {
    assert TasksOf(tickets[t := ticket], model) == TasksOf(tickets, model) + if ticket.model == model then {t} else {};
  }

  lemma TasksOfRemove(tickets: map<nat, Ticket>, t: nat, model: string)
    requires t in tickets
    ensures |TasksOf(tickets - {t}, model)| == |TasksOf(tickets, model)| - if tickets[t].model == model then 1 else 0
  {
    assert TasksOf(tickets, model) == TasksOf(tickets - {t}, model) + if tickets[t].model == model then {t} else {};
  }

  lemma StepExcess(s: State, step: Step, model: string)
    requires Formed(s) && Enabled(s, step)
    ensures Excess(Next(s, step), model) == Excess(s, model) + if DropsOne(s, step, model) then 1 else 0
  {
    match step {
      case Enter(t, m, c) => TasksOfInsert(s.waiting, t, Ticket(m, LookUp(s, m, c).gates[m].semaphore), model);
      case Grant(t) => TasksOfRemove(s.waiting, t, model);
      case TimeOut(t) => TasksOfRemove(s.waiting, t, model);
      case Drop(t) => TasksOfRemove(s.waiting, t, model);
      case Release(t) =>
    }
  }

  /** The gauge is the number waiting plus, for good, one for every request dropped while it waited. */
  lemma {:induction false} GaugeExactly(steps: seq<Step>, model: string)
    ensures var s := Run(START, steps);
            Depth(s, model) == |TasksOf(s.waiting, model)| + Dropped(START, steps, model)
  {
    if steps == [] {
    } else {
      var init, last := steps[..|steps| - 1], steps[|steps| - 1];
      GaugeExactly(init, model);
      var before := Run(START, init);
      if Enabled(before, last) {
        StepExcess(before, last, model);
      }
    }
  }

  // ----- The object ----------------------------------------------------------

  /** The admission object; each method is one atomic step of `acquire`, or the drop of what it returned. */
  class EmbeddingAdmission {
    var gates: map<string, Gate>
    var semaphores: seq<Semaphore>
    var waiting: map<nat, Ticket>
    var holding: map<nat, Ticket>
    var depth: map<string, int>
    const timeoutSecs: nat

    function Contents(): State
      reads this
    {
      State(gates, semaphores, waiting, holding, depth)
    }

    ghost predicate Valid()
      reads this
    {
      Formed(Contents()) && Conserved(Contents())
    }

    constructor (timeoutSecs: nat)
      ensures Valid() && Contents() == START && this.timeoutSecs == timeoutSecs
    {
      this.timeoutSecs := timeoutSecs;
      gates, semaphores, waiting, holding, depth := map[], [], map[], map[], map[];
    }

    /** With the map of gates locked: find, make or replace the gate. */
    method OpenGate(model: string, concurrency: nat)
      requires Formed(Contents())
      modifies this`gates, this`semaphores
      ensures Contents() == LookUp(old(Contents()), model, concurrency)
    {
      var limit := if concurrency < 1 then 1 else concurrency;
      if model !in gates {
        gates := gates[model := Gate(limit, |semaphores|)];
        semaphores := semaphores + [Semaphore(model, limit, limit)];
      } else if gates[model].limit != limit && semaphores[gates[model].semaphore].available == gates[model].limit {
        gates := gates[model := Gate(limit, |semaphores|)];
        semaphores := semaphores + [Semaphore(model, limit, limit)];
      }
    }

    /** Clone the semaphore of the gate and start to wait. */
    method Enter(task: nat, model: string, concurrency: nat)
      requires Valid() && task !in waiting && task !in holding
      modifies this
      ensures Valid() && Contents() == Next(old(Contents()), Step.Enter(task, model, concurrency))
    {
      StepConservesAll(Contents(), Step.Enter(task, model, concurrency));
      OpenGate(model, concurrency);
      waiting := waiting[task := Ticket(model, gates[model].semaphore)];
      depth := depth[model := if model in depth then depth[model] + 1 else 1];
    }

    method EndWait(task: nat) returns (ticket: Ticket)
      requires task in waiting
      modifies this`waiting, this`depth
      ensures ticket == old(waiting)[task] && waiting == old(waiting) - {task}
      ensures depth == old(depth)[ticket.model := old(Depth(Contents(), ticket.model)) - 1]
    {
      ticket := waiting[task];
      waiting := waiting - {task};
      depth := depth[ticket.model := (if ticket.model in depth then depth[ticket.model] else 0) - 1];
    }

    method Grant(task: nat)
      requires Valid() && Enabled(Contents(), Step.Grant(task))
      modifies this
      ensures Valid() && Contents() == Next(old(Contents()), Step.Grant(task))
    {
      StepConservesAll(Contents(), Step.Grant(task));
      var ticket := EndWait(task);
      var k := ticket.semaphore;
      semaphores := semaphores[k := semaphores[k].(available := semaphores[k].available - 1)];
      holding := holding[task := ticket];
    }

    /** The error names a retry delay of at least a second. */
    method TimeOut(task: nat) returns (retryAfterSecs: nat)
      requires Valid() && task in waiting
      modifies this
      ensures Valid() && Contents() == Next(old(Contents()), Step.TimeOut(task))
      ensures retryAfterSecs >= 1 && (timeoutSecs >= 1 ==> retryAfterSecs == timeoutSecs)
    {
      StepConservesAll(Contents(), Step.TimeOut(task));
      var _ := EndWait(task);
      retryAfterSecs := Max(timeoutSecs, 1);
    }

    /** The request is cancelled while it waits: nothing after the wait is executed. */
    method Drop(task: nat)
      requires Valid() && task in waiting
      modifies this
      ensures Valid() && Contents() == Next(old(Contents()), Step.Drop(task))
    {
      StepConservesAll(Contents(), Step.Drop(task));
      waiting := waiting - {task};
    }

    method Release(task: nat)
      requires Valid() && task in holding
      modifies this
      ensures Valid() && Contents() == Next(old(Contents()), Step.Release(task))
    {
      StepConservesAll(Contents(), Step.Release(task));
      var k := holding[task].semaphore;
      semaphores := semaphores[k := semaphores[k].(available := semaphores[k].available + 1)];
      holding := holding - {task};
    }
  }
}
