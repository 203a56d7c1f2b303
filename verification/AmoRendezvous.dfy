/** The atomic rendezvous: every hart adds one to a window of counters again and again,
    then spins until its own counter shows the expected value. */
module AmoRendezvous {
  import opened Arith

  /** How many harts and counters there are, how many adds each hart makes, which is also
      the value it waits for, and the counter that add number `q` of hart `h` goes to. */
  datatype Plan = Plan(harts: nat, counters: nat, adds: nat, target: (nat, nat) -> nat)

  predicate Valid(p: Plan) {
    && p.harts <= p.counters && p.adds < TWO32
    && forall h, q :: 0 <= h < p.harts && 0 <= q < p.adds ==> p.target(h, q) < p.counters
  }

  /** The counters, how many adds each hart has made, and which harts have left the spin. */
  datatype State = State(counters: seq<nat>, made: seq<nat>, left: seq<bool>)

  predicate Shaped(p: Plan, s: State) {
    |s.counters| == p.counters && |s.made| == |s.left| == p.harts
  }

  predicate Init(p: Plan, s: State) {
    && Shaped(p, s)
    && (forall t :: 0 <= t < p.counters ==> s.counters[t] == 0)
    && (forall h :: 0 <= h < p.harts ==> s.made[h] == 0 && !s.left[h])
  }

  /** Adding one in 32 bits. */
  function Bump(x: nat): nat {
    (x + 1) % TWO32
  }

  /** Hart `h` can make its next add, or leave its spin; a read that finds another value
      is not a step. */
  predicate Can(p: Plan, s: State, h: nat)
    requires Valid(p) && Shaped(p, s)
  {
    h < p.harts && (s.made[h] < p.adds || (!s.left[h] && s.counters[h] == p.adds))
  }

  function Next(p: Plan, s: State, h: nat): State
    requires Valid(p) && Shaped(p, s) && Can(p, s, h)
  {
    if s.made[h] < p.adds then
      var t := p.target(h, s.made[h]);
      s.(counters := s.counters[t := Bump(s.counters[t])], made := s.made[h := s.made[h] + 1])
    else
      s.(left := s.left[h := true])
  }

  predicate Possible(p: Plan, s: State, run: seq<nat>)
    requires Valid(p) && Shaped(p, s)
    decreases |run|
  {
    run != [] ==> Can(p, s, run[0]) && Possible(p, Next(p, s, run[0]), run[1..])
  }

  /** The state after a run, named by the hart that moves at each step. */
  function After(p: Plan, s: State, run: seq<nat>): State
    requires Valid(p) && Shaped(p, s) && Possible(p, s, run)
    decreases |run|
  {
    if run == [] then s else After(p, Next(p, s, run[0]), run[1..])
  }

  // ---------------------------------------------------------------- counting the adds

  /** Of the first `k` adds of hart `h`, how many go to counter `t`. */
  function AddsTo(p: Plan, h: nat, k: nat, t: nat): nat {
    if k == 0 then 0 else AddsTo(p, h, k - 1, t) + if p.target(h, k - 1) == t then 1 else 0
  }

  /** All adds made so far to counter `t` by the first `n` harts. */
  function Total(p: Plan, made: seq<nat>, n: nat, t: nat): nat
    requires n <= |made|
  {
    if n == 0 then 0 else Total(p, made, n - 1, t) + AddsTo(p, n - 1, made[n - 1], t)
  }

  /** The same if every hart has made `k`. */
  function TotalAt(p: Plan, k: nat, n: nat, t: nat): nat {
    if n == 0 then 0 else TotalAt(p, k, n - 1, t) + AddsTo(p, n - 1, k, t)
  }

  /** Of the first `n` harts, how many send add number `q` to counter `t`. */
  function Senders(p: Plan, q: nat, n: nat, t: nat): nat {
    if n == 0 then 0 else Senders(p, q, n - 1, t) + if p.target(n - 1, q) == t then 1 else 0
  }

  /** The adds aimed at every hart's counter are as many as the hart waits for. */
  predicate Balanced(p: Plan) {
    forall t :: 0 <= t < p.harts ==> TotalAt(p, p.adds, p.harts, t) == p.adds
  }

  /** One more add by every hart: the double sum taken the other way. */
  lemma {:induction false} OneMoreEach(p: Plan, k: nat, n: nat, t: nat)
    ensures TotalAt(p, k + 1, n, t) == TotalAt(p, k, n, t) + Senders(p, k, n, t)
  {
    if n > 0 {
      OneMoreEach(p, k, n - 1, t);
    }
  }

  lemma {:induction false} NoneYet(p: Plan, n: nat, t: nat)
    ensures TotalAt(p, 0, n, t) == 0
  {
    if n > 0 {
      NoneYet(p, n - 1, t);
    }
  }

  lemma {:induction false} AddsGrow(p: Plan, h: nat, k: nat, r: nat, t: nat)
    requires k <= r
    ensures AddsTo(p, h, k, t) <= AddsTo(p, h, r, t)
    decreases r
  {
    if k < r {
      AddsGrow(p, h, k, r - 1, t);
    }
  }

  /** What has been added is at most what will be, and all of it only when every hart has
      made all its adds to that counter. */
  lemma {:induction false} TotalAtMost(p: Plan, made: seq<nat>, n: nat, t: nat, k: nat)
    requires n <= |made| && forall h :: 0 <= h < n ==> made[h] <= k
    ensures Total(p, made, n, t) <= TotalAt(p, k, n, t)
    ensures Total(p, made, n, t) == TotalAt(p, k, n, t)
            ==> forall h :: 0 <= h < n ==> AddsTo(p, h, made[h], t) == AddsTo(p, h, k, t)
  {
    if n > 0 {
      TotalAtMost(p, made, n - 1, t, k);
      AddsGrow(p, n - 1, made[n - 1], k, t);
    }
  }

  lemma {:induction false} TotalWhenAll(p: Plan, made: seq<nat>, n: nat, t: nat, k: nat)
    requires n <= |made| && forall h :: 0 <= h < n ==> made[h] == k
    ensures Total(p, made, n, t) == TotalAt(p, k, n, t)
  {
    if n > 0 {
      TotalWhenAll(p, made, n - 1, t, k);
    }
  }

  lemma {:induction false} TotalOneMore(p: Plan, made: seq<nat>, n: nat, t: nat, h: nat)
    requires n <= |made| && h < |made|
    ensures Total(p, made[h := made[h] + 1], n, t)
         == Total(p, made, n, t) + if h < n && p.target(h, made[h]) == t then 1 else 0
  {
    if n > 0 {
      TotalOneMore(p, made, n - 1, t, h);
    }
  }

  // ---------------------------------------------------------------- every run

  /** Every counter is the number of adds made to it, in 32 bits. */
  predicate CounterIs(p: Plan, s: State, t: nat)
    requires Shaped(p, s) && t < p.counters
  {
    s.counters[t] == Total(p, s.made, p.harts, t) % TWO32
  }

  /** Hart `h` has made all its adds and its counter has all it waits for. */
  predicate Met(p: Plan, s: State, h: nat)
    requires Shaped(p, s) && h < p.harts
  {
    s.made[h] == p.adds && Total(p, s.made, p.harts, h) == p.adds
  }

  predicate Inv(p: Plan, s: State) {
    && Valid(p) && Shaped(p, s)
    && (forall h :: 0 <= h < p.harts ==> s.made[h] <= p.adds)
    && (forall t :: 0 <= t < p.counters ==> CounterIs(p, s, t))
    && (Balanced(p) ==> forall h :: 0 <= h < p.harts && s.left[h] ==> Met(p, s, h))
  }

  lemma {:induction false} InitInv(p: Plan, s: State)
    requires Valid(p) && Init(p, s)
    ensures Inv(p, s)
  {
    forall t | 0 <= t < p.counters ensures CounterIs(p, s, t) {
      TotalWhenAll(p, s.made, p.harts, t, 0);
      NoneYet(p, p.harts, t);
    }
  }

  lemma {:induction false} BumpWraps(x: nat)
    ensures Bump(x % TWO32) == (x + 1) % TWO32
  {
  }

  lemma {:induction false} AddKeepsCounter(p: Plan, s: State, h: nat, t: nat)
    requires Inv(p, s) && h < p.harts && s.made[h] < p.adds && t < p.counters
    ensures CounterIs(p, Next(p, s, h), t)
  {
    assert CounterIs(p, s, t);
    TotalOneMore(p, s.made, p.harts, t, h);
    BumpWraps(Total(p, s.made, p.harts, t));
  }

  /** A hart that has met its expected value stays so: no add is left that could come. */
  lemma {:induction false} AddKeepsMet(p: Plan, s: State, h: nat, g: nat)
    requires Inv(p, s) && h < p.harts && s.made[h] < p.adds
    requires Balanced(p) && g < p.harts && Met(p, s, g)
    ensures Met(p, Next(p, s, h), g)
  {
    TotalOneMore(p, s.made, p.harts, g, h);
    TotalAtMost(p, Next(p, s, h).made, p.harts, g, p.adds);
  }

  lemma {:induction false} AddKeepsInv(p: Plan, s: State, h: nat)
    requires Inv(p, s) && h < p.harts && s.made[h] < p.adds
    ensures Inv(p, Next(p, s, h))
  {
    var n := Next(p, s, h);
    forall t | 0 <= t < p.counters ensures CounterIs(p, n, t) {
      AddKeepsCounter(p, s, h, t);
    }
    if Balanced(p) {
      forall g | 0 <= g < p.harts && n.left[g] ensures Met(p, n, g) {
        AddKeepsMet(p, s, h, g);
      }
    }
  }

  lemma {:induction false} LeaveKeepsInv(p: Plan, s: State, h: nat)
    requires Inv(p, s) && h < p.harts && s.made[h] == p.adds && s.counters[h] == p.adds
    ensures Inv(p, s.(left := s.left[h := true]))
  {
    var n := s.(left := s.left[h := true]);
    forall t | 0 <= t < p.counters ensures CounterIs(p, n, t) {
      assert CounterIs(p, s, t);
    }
    if Balanced(p) {
      forall g | 0 <= g < p.harts && n.left[g] ensures Met(p, n, g) {
        if g == h {
          assert CounterIs(p, s, g);
          TotalAtMost(p, s.made, p.harts, g, p.adds);
        } else {
          assert Met(p, s, g);
        }
      }
    }
  }

  lemma {:induction false} StepKeepsInv(p: Plan, s: State, h: nat)
    requires Inv(p, s) && Can(p, s, h)
    ensures Inv(p, Next(p, s, h))
  {
    if s.made[h] < p.adds {
      AddKeepsInv(p, s, h);
    } else {
      LeaveKeepsInv(p, s, h);
    }
  }

  lemma {:induction false} RunKeepsInv(p: Plan, s: State, run: seq<nat>)
    requires Inv(p, s) && Possible(p, s, run)
    ensures Inv(p, After(p, s, run))
    decreases |run|
  {
    if run != [] {
      StepKeepsInv(p, s, run[0]);
      RunKeepsInv(p, Next(p, s, run[0]), run[1..]);
    }
  }

  /** In every run every counter is exactly the number of adds made to it so far, and never
      goes beyond the value its hart waits for. */
  lemma {:induction false} CountersAreExact(p: Plan, s: State, run: seq<nat>, t: nat)
    requires Valid(p) && Balanced(p) && Init(p, s) && Possible(p, s, run) && t < p.harts
    ensures var n := After(p, s, run);
            Shaped(p, n) && n.counters[t] == Total(p, n.made, p.harts, t) <= p.adds
  {
    InitInv(p, s);
    RunKeepsInv(p, s, run);
    var n := After(p, s, run);
    assert CounterIs(p, n, t);
    TotalAtMost(p, n.made, p.harts, t, p.adds);
  }

  /** In every run a hart has left its spin only once every hart has made every one of its
      adds to that hart's counter. */
  lemma {:induction false} LeavesAfterEveryAdd(p: Plan, s: State, run: seq<nat>, h: nat, sender: nat)
    requires Valid(p) && Balanced(p) && Init(p, s) && Possible(p, s, run) && h < p.harts && sender < p.harts
    ensures var n := After(p, s, run);
            Shaped(p, n) && (n.left[h] ==> AddsTo(p, sender, n.made[sender], h) == AddsTo(p, sender, p.adds, h))
  {
    InitInv(p, s);
    RunKeepsInv(p, s, run);
    var n := After(p, s, run);
    if n.left[h] {
      assert Met(p, n, h);
      TotalAtMost(p, n.made, p.harts, h, p.adds);
    }
  }

  predicate Stuck(p: Plan, s: State)
    requires Valid(p) && Shaped(p, s)
  {
    forall h :: 0 <= h < p.harts ==> !Can(p, s, h)
  }

  /** No hart waits for ever: a run can stop only when every hart has left, with every
      counter at the expected value. */
  lemma {:induction false} StopsOnlyWhenAllLeft(p: Plan, s: State, run: seq<nat>, h: nat)
    requires Valid(p) && Balanced(p) && Init(p, s) && Possible(p, s, run) && h < p.harts
    ensures var n := After(p, s, run);
            Shaped(p, n) && (Stuck(p, n) ==> n.left[h] && n.counters[h] == p.adds)
  {
    InitInv(p, s);
    RunKeepsInv(p, s, run);
    var n := After(p, s, run);
    if Stuck(p, n) {
      forall g | 0 <= g < p.harts ensures n.made[g] == p.adds {
        assert !Can(p, n, g);
      }
      TotalWhenAll(p, n.made, p.harts, h, p.adds);
      assert CounterIs(p, n, h);
      assert !Can(p, n, h);
    }
  }

  /** A hart at whose counter too few adds are aimed never leaves its spin in any run. */
  lemma {:induction false} StarvedNeverLeaves(p: Plan, s: State, run: seq<nat>, t: nat)
    requires Inv(p, s) && Possible(p, s, run) && t < p.harts
    requires TotalAt(p, p.adds, p.harts, t) < p.adds && !s.left[t]
    ensures Shaped(p, After(p, s, run)) && !After(p, s, run).left[t]
    decreases |run|
  {
    if run != [] {
      assert CounterIs(p, s, t);
      TotalAtMost(p, s.made, p.harts, t, p.adds);
      StepKeepsInv(p, s, run[0]);
      StarvedNeverLeaves(p, Next(p, s, run[0]), run[1..], t);
    }
  }

  /** The moves made so far. */
  function Moves(s: State, n: nat): nat
    requires n <= |s.made| && n <= |s.left|
  {
    if n == 0 then 0 else Moves(s, n - 1) + s.made[n - 1] + if s.left[n - 1] then 1 else 0
  }

  lemma {:induction false} OneMove(p: Plan, s: State, h: nat, n: nat)
    requires Valid(p) && Shaped(p, s) && Can(p, s, h) && n <= p.harts
    ensures Shaped(p, Next(p, s, h))
    ensures Moves(Next(p, s, h), n) == Moves(s, n) + if h < n then 1 else 0
  {
    if n > 0 {
      OneMove(p, s, h, n - 1);
    }
  }

  lemma {:induction false} MovesBounded(p: Plan, s: State, n: nat)
    requires Inv(p, s) && n <= p.harts
    ensures Moves(s, n) <= n * (p.adds + 1)
  {
    if n > 0 {
      MovesBounded(p, s, n - 1);
      assert n * (p.adds + 1) == (n - 1) * (p.adds + 1) + (p.adds + 1);
    }
  }

  lemma {:induction false} RunMoves(p: Plan, s: State, run: seq<nat>)
    requires Inv(p, s) && Possible(p, s, run)
    ensures Shaped(p, After(p, s, run))
    ensures Moves(After(p, s, run), p.harts) == Moves(s, p.harts) + |run|
    decreases |run|
  {
    if run != [] {
      OneMove(p, s, run[0], p.harts);
      StepKeepsInv(p, s, run[0]);
      RunMoves(p, Next(p, s, run[0]), run[1..]);
    }
  }

  /** However the harts interleave, no run is longer than this: a run that is not cut short
      reaches the state of StopsOnlyWhenAllLeft. */
  lemma {:induction false} RunsAreFinite(p: Plan, s: State, run: seq<nat>)
    requires Valid(p) && Init(p, s) && Possible(p, s, run)
    ensures |run| <= p.harts * (p.adds + 1)
  {
    InitInv(p, s);
    RunMoves(p, s, run);
    RunKeepsInv(p, s, run);
    MovesBounded(p, After(p, s, run), p.harts);
  }

  // ---------------------------------------------------------------- the windows

  /** Add number `q` of hart `h`: `targets` counters from its own on, again and again. */
  function WindowTarget(modulus: nat, targets: nat, h: nat, q: nat): nat
    requires modulus > 0 && targets > 0
  {
    (h + q % targets) % modulus
  }

  /** `harts` harts, each adding to a window of `targets` counters that wraps at `modulus`,
      `iterations` times over. */
  function WindowPlan(harts: nat, modulus: nat, targets: nat, iterations: nat): Plan
    requires modulus > 0 && targets > 0
  {
    Plan(harts, harts + modulus, iterations * targets, (h, q) => WindowTarget(modulus, targets, h, q))
  }

  lemma {:induction false} WindowPlanValid(harts: nat, modulus: nat, targets: nat, iterations: nat)
    requires modulus > 0 && targets > 0 && iterations * targets < TWO32
    ensures Valid(WindowPlan(harts, modulus, targets, iterations))
  {
  }

  /** The one hart below the modulus whose window reaches counter `t` at distance `i`. */
  function Sender(modulus: nat, i: nat, t: nat): nat
    requires modulus > 0
  {
    (t - i) % modulus
  }

  lemma {:induction false} SenderIsUnique(m: nat, h: nat, i: nat, t: nat)
    requires m > 0 && h < m && t < m
    ensures (h + i) % m == t <==> h == Sender(m, i, t)
  {
    if (h + i) % m == t {
      var k := (h + i) / m;
      assert t - i == h + (-k) * m;
      DivModUnique(t - i, m, -k, h);
    }
    if h == Sender(m, i, t) {
      var k := (t - i) / m;
      assert h + i == t + (-k) * m;
      DivModUnique(h + i, m, -k, t);
    }
  }

  /** Among harts that fit the modulus, an add reaches a counter from one hart or none. */
  lemma {:induction false} SendersAre(p: Plan, m: nat, targets: nat, q: nat, i: nat, n: nat, t: nat)
    requires m > 0 && targets > 0 && i == q % targets && n <= m && t < m
    requires forall h: nat :: p.target(h, q) == WindowTarget(m, targets, h, q)
    ensures Senders(p, q, n, t) == if Sender(m, i, t) < n then 1 else 0
  {
    if n > 0 {
      SendersAre(p, m, targets, q, i, n - 1, t);
      assert p.target(n - 1, q) == WindowTarget(m, targets, n - 1, q);
      SenderIsUnique(m, n - 1, i, t);
    }
  }

  /** When the windows wrap at the number of harts, every counter gets one add from every
      round of adds. */
  lemma {:induction false} EveryCounterEqually(p: Plan, targets: nat, k: nat, t: nat)
    requires p.harts > 0 && targets > 0 && t < p.harts
    requires forall h: nat, q: nat :: p.target(h, q) == WindowTarget(p.harts, targets, h, q)
    ensures TotalAt(p, k, p.harts, t) == k
  {
    if k == 0 {
      NoneYet(p, p.harts, t);
    } else {
      EveryCounterEqually(p, targets, k - 1, t);
      OneMoreEach(p, k - 1, p.harts, t);
      SendersAre(p, p.harts, targets, k - 1, (k - 1) % targets, p.harts, t);
    }
  }

  lemma {:induction false} AtMostOneSender(p: Plan, m: nat, targets: nat, q: nat)
    requires 0 < p.harts < m && targets > 0
    requires forall h: nat, q: nat :: p.target(h, q) == WindowTarget(m, targets, h, q)
    ensures Senders(p, q, p.harts, 0) <= 1
  {
    SendersAre(p, m, targets, q, q % targets, p.harts, 0);
  }

  /** With fewer harts than the modulus, the second add of no hart reaches counter 0. */
  lemma {:induction false} NoSecondSender(p: Plan, m: nat, targets: nat)
    requires 0 < p.harts < m && targets >= 2
    requires forall h: nat, q: nat :: p.target(h, q) == WindowTarget(m, targets, h, q)
    ensures Senders(p, 1, p.harts, 0) == 0
  {
    SendersAre(p, m, targets, 1, 1, p.harts, 0);
    DivModUnique(m - 1 + 1, m, 1, 0);
    SenderIsUnique(m, m - 1, 1, 0);
  }

  lemma {:induction false} TooFewHarts(p: Plan, m: nat, targets: nat, k: nat)
    requires 0 < p.harts < m && targets >= 2
    requires forall h: nat, q: nat :: p.target(h, q) == WindowTarget(m, targets, h, q)
    ensures TotalAt(p, k, p.harts, 0) <= k
    ensures k >= 2 ==> TotalAt(p, k, p.harts, 0) < k
  {
    if k == 0 {
      NoneYet(p, p.harts, 0);
    } else {
      TooFewHarts(p, m, targets, k - 1);
      OneMoreEach(p, k - 1, p.harts, 0);
      AtMostOneSender(p, m, targets, k - 1);
      NoSecondSender(p, m, targets);
    }
  }

  /** No add reaches a counter at the modulus. */
  lemma {:induction false} BeyondModulus(p: Plan, m: nat, targets: nat, k: nat, h: nat)
    requires m > 0 && targets > 0
    requires forall h: nat, q: nat :: p.target(h, q) == WindowTarget(m, targets, h, q)
    ensures AddsTo(p, h, k, m) == 0
  {
    if k > 0 {
      BeyondModulus(p, m, targets, k - 1, h);
      assert p.target(h, k - 1) == WindowTarget(m, targets, h, k - 1) < m;
    }
  }

  lemma {:induction false} TooManyHarts(p: Plan, m: nat, targets: nat, k: nat, n: nat)
    requires m > 0 && targets > 0
    requires forall h: nat, q: nat :: p.target(h, q) == WindowTarget(m, targets, h, q)
    ensures TotalAt(p, k, n, m) == 0
  {
    if n > 0 {
      TooManyHarts(p, m, targets, k, n - 1);
      BeyondModulus(p, m, targets, k, n - 1);
    }
  }

  lemma {:induction false} OnlyOwnSender(p: Plan, m: nat, q: nat, t: nat)
    requires t < p.harts < m
    requires forall h: nat, q: nat :: p.target(h, q) == WindowTarget(m, 1, h, q)
    ensures Senders(p, q, p.harts, t) == 1
  {
    SendersAre(p, m, 1, q, 0, p.harts, t);
    DivModUnique(t, m, 0, t);
  }

  /** One-counter windows that do not wrap: every hart adds to its own counter only. */
  lemma {:induction false} OwnCounters(p: Plan, m: nat, k: nat, t: nat)
    requires t < p.harts < m
    requires forall h: nat, q: nat :: p.target(h, q) == WindowTarget(m, 1, h, q)
    ensures TotalAt(p, k, p.harts, t) == k
  {
    if k == 0 {
      NoneYet(p, p.harts, t);
    } else {
      OwnCounters(p, m, k - 1, t);
      OneMoreEach(p, k - 1, p.harts, t);
      OnlyOwnSender(p, m, k - 1, t);
    }
  }

  /** What a caller can check: the windows wrap at the number of harts, or nothing is added,
      or every hart adds to its own counter only. */
  predicate Fits(harts: nat, modulus: nat, targets: nat, iterations: nat) {
    harts == modulus || iterations == 0 || (targets == 1 && harts < modulus)
  }

  /** Windows are balanced exactly then; otherwise the counter of the hart given back gets
      too few adds. */
  lemma {:induction false} BalancedIff(harts: nat, modulus: nat, targets: nat, iterations: nat) returns (t: nat)
    requires harts > 0 && modulus > 0 && targets > 0
    ensures var p := WindowPlan(harts, modulus, targets, iterations);
            && (Balanced(p) <==> Fits(harts, modulus, targets, iterations))
            && (!Fits(harts, modulus, targets, iterations) ==>
                  t < harts && TotalAt(p, p.adds, p.harts, t) < p.adds)
  {
    var p := WindowPlan(harts, modulus, targets, iterations);
    t := if harts < modulus then 0 else modulus;
    if Fits(harts, modulus, targets, iterations) {
      forall u | 0 <= u < p.harts ensures TotalAt(p, p.adds, p.harts, u) == p.adds {
        if harts == modulus {
          EveryCounterEqually(p, targets, p.adds, u);
        } else if iterations == 0 {
          NoneYet(p, p.harts, u);
        } else {
          OwnCounters(p, modulus, p.adds, u);
        }
      }
    } else {
      MulMonotone(1, iterations, targets);
      if harts < modulus {
        TooFewHarts(p, modulus, targets, p.adds);
      } else {
        TooManyHarts(p, modulus, targets, p.adds, harts);
      }
    }
  }

  // ---------------------------------------------------------------- the programs

  /** Any state can be run on until nothing can move. */
  lemma {:induction false} RunOn(p: Plan, s: State) returns (run: seq<nat>)
    requires Inv(p, s)
    ensures Possible(p, s, run) && Shaped(p, After(p, s, run)) && Stuck(p, After(p, s, run))
    decreases p.harts * (p.adds + 1) - Moves(s, p.harts)
  {
    if Stuck(p, s) {
      run := [];
    } else {
      var h :| 0 <= h < p.harts && Can(p, s, h);
      StepKeepsInv(p, s, h);
      OneMove(p, s, h, p.harts);
      MovesBounded(p, Next(p, s, h), p.harts);
      var rest := RunOn(p, Next(p, s, h));
      run := [h] + rest;
      assert run[1..] == rest;
    }
  }

  /** If the run has come to its end, every hart has left with the expected value in its
      counter. */
  predicate EndsWell(p: Plan, s: State, run: seq<nat>)
    requires Inv(p, s)
  {
    Possible(p, s, run) ==>
      var n := After(p, s, run);
      Shaped(p, n) && (Stuck(p, n) ==> forall h :: 0 <= h < p.harts ==> n.left[h] && n.counters[h] == p.adds)
  }

  lemma {:induction false} BalancedEndsWell(p: Plan, s: State, run: seq<nat>)
    requires Balanced(p) && Init(p, s) && Inv(p, s)
    ensures EndsWell(p, s, run)
  {
    if Possible(p, s, run) {
      RunKeepsInv(p, s, run);
      forall h | 0 <= h < p.harts && Stuck(p, After(p, s, run))
        ensures After(p, s, run).left[h] && After(p, s, run).counters[h] == p.adds {
        StopsOnlyWhenAllLeft(p, s, run, h);
      }
    }
  }

  /** The rendezvous works, in that every run that has come to its end has every hart past
      its spin, if and only if the windows fit; otherwise one hart never leaves in any run. */
  lemma {:induction false} RendezvousIff(harts: nat, modulus: nat, targets: nat, iterations: nat, s: State) returns (t: nat)
    requires harts > 0 && modulus > 0 && targets > 0 && iterations * targets < TWO32
    requires Init(WindowPlan(harts, modulus, targets, iterations), s)
    ensures var p := WindowPlan(harts, modulus, targets, iterations);
            && Inv(p, s)
            && ((forall run :: EndsWell(p, s, run)) <==> Fits(harts, modulus, targets, iterations))
            && (!Fits(harts, modulus, targets, iterations) ==>
                  t < harts && forall run :: NeverLeaves(p, s, run, t))
  {
    var p := WindowPlan(harts, modulus, targets, iterations);
    WindowPlanValid(harts, modulus, targets, iterations);
    InitInv(p, s);
    t := BalancedIff(harts, modulus, targets, iterations);
    if Fits(harts, modulus, targets, iterations) {
      forall run ensures EndsWell(p, s, run) {
        BalancedEndsWell(p, s, run);
      }
    } else {
      forall run ensures NeverLeaves(p, s, run, t) {
        if Possible(p, s, run) {
          StarvedNeverLeaves(p, s, run, t);
        }
      }
      var run := RunOn(p, s);
      assert NeverLeaves(p, s, run, t);
      assert !EndsWell(p, s, run);
    }
  }

  predicate NeverLeaves(p: Plan, s: State, run: seq<nat>, t: nat)
    requires Inv(p, s) && t < p.harts
  {
    Possible(p, s, run) ==> Shaped(p, After(p, s, run)) && !After(p, s, run).left[t]
  }

  /** The iterations of the program whose windows are all counters, and the iterations,
      window and modulus of the one for the vector cores. */
  const TEST_ITERATIONS := 1000
  const TASK_ITERATIONS := 2
  const TASK_TARGETS := 3
  const TASK_MODULUS := 16

  /** In the program whose windows are all counters, for any number of harts whose expected
      value fits 32 bits: at every moment of every run every counter is the number of adds
      made to it, a hart past its spin has had every add aimed at it, and at the end every
      counter has the expected value and every hart is past its spin. */
  lemma {:induction false} AllToAll(harts: nat, s: State, run: seq<nat>, h: nat, sender: nat)
    requires h < harts && sender < harts && TEST_ITERATIONS * harts < TWO32
    requires Init(WindowPlan(harts, harts, harts, TEST_ITERATIONS), s)
    requires Valid(WindowPlan(harts, harts, harts, TEST_ITERATIONS))
    requires Possible(WindowPlan(harts, harts, harts, TEST_ITERATIONS), s, run)
    ensures var p := WindowPlan(harts, harts, harts, TEST_ITERATIONS);
            var n := After(p, s, run);
            && Shaped(p, n) && n.counters[h] == Total(p, n.made, harts, h) <= TEST_ITERATIONS * harts
            && (n.left[h] ==> AddsTo(p, sender, n.made[sender], h) == AddsTo(p, sender, TEST_ITERATIONS * harts, h))
            && (Stuck(p, n) ==> n.left[h] && n.counters[h] == TEST_ITERATIONS * harts)
  {
    var p := WindowPlan(harts, harts, harts, TEST_ITERATIONS);
    var t := BalancedIff(harts, harts, harts, TEST_ITERATIONS);
    CountersAreExact(p, s, run, h);
    LeavesAfterEveryAdd(p, s, run, h, sender);
    StopsOnlyWhenAllLeft(p, s, run, h);
  }

  /** The task of the vector cores works on a mesh of 16 harts and on no other: elsewhere the
      hart given back never leaves its spin in any run. */
  lemma {:induction false} AtomicTaskIff(harts: nat, s: State) returns (t: nat)
    requires harts > 0 && Init(WindowPlan(harts, TASK_MODULUS, TASK_TARGETS, TASK_ITERATIONS), s)
    ensures var p := WindowPlan(harts, TASK_MODULUS, TASK_TARGETS, TASK_ITERATIONS);
            && Inv(p, s)
            && ((forall run :: EndsWell(p, s, run)) <==> harts == 16)
            && (harts != 16 ==> t < harts && forall run :: NeverLeaves(p, s, run, t))
  {
    t := RendezvousIff(harts, TASK_MODULUS, TASK_TARGETS, TASK_ITERATIONS, s);
  }
}
