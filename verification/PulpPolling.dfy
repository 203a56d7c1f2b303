/** Dispatch to the PULP cluster when some of the waits poll. A polling wait gives up when its
    timeout is over, and its caller goes on to the next round as if the cluster had finished. */
module PulpPolling {
  import opened PulpDispatch

  /** A step as before, or a polling wait that ends on its timeout: it has just looked and
      found no event. */
  datatype Move = Step(who: Label) | GiveUp

  /** `polls` are the rounds that wait by polling. */
  predicate CanMove(program: seq<Round>, polls: set<nat>, s: State, m: Move) {
    match m
    case Step(l) => Can(program, s, l)
    case GiveUp => s.host == Wait && s.round < |program| && s.round in polls && !HostCan(program, s)
  }

  function Moved(program: seq<Round>, polls: set<nat>, s: State, m: Move): State
    requires CanMove(program, polls, s, m)
  {
    match m
    case Step(l) => Next(program, s, l)
    case GiveUp => s.(host := ArmMask, round := s.round + 1)
  }

  /** The moves can be made one after another. */
  predicate Runs(program: seq<Round>, polls: set<nat>, s: State, moves: seq<Move>)
    decreases |moves|
  {
    moves == [] || (CanMove(program, polls, s, moves[0])
                    && Runs(program, polls, Moved(program, polls, s, moves[0]), moves[1..]))
  }

  function End(program: seq<Round>, polls: set<nat>, s: State, moves: seq<Move>): State
    requires Runs(program, polls, s, moves)
    decreases |moves|
  {
    if moves == [] then s else End(program, polls, Moved(program, polls, s, moves[0]), moves[1..])
  }

  // ---------------------------------------------------------------- what timeouts do not break

  /** The calls a core has made, with the one it is making. */
  function Due(core: Core): seq<Call> {
    core.log + if core.phase == Running then [Call(core.func, core.arg)] else []
  }

  /** In its handler, before the acknowledgement. */
  predicate Taking(phase: Phase) {
    phase == Entry || phase == HasData || phase == HasTask
  }

  predicate Waiting(h: History, c: nat) {
    c in h.selected && c !in h.acked
  }

  /** A core that has yet to acknowledge dispatch `count` may still be busy with an earlier one;
      any other core has made, or is making, its last call. */
  predicate CoreFair(program: seq<Round>, count: nat, waiting: bool, core: Core, c: nat)
    requires count <= |program|
  {
    if waiting then
      && count > 0
      && Due(core) == Asked(program, count - 1, c)
      && core.pending == !Taking(core.phase)
      && (core.phase == HasData || core.phase == HasTask ==> core.arg == ArgAfter(program, count))
      && (core.phase == HasTask ==> core.func == program[count - 1].func)
    else
      !core.pending && !Taking(core.phase) && Due(core) == Asked(program, count, c)
  }

  predicate CoresFair(program: seq<Round>, s: State)
    requires s.history.count <= |program|
  {
    forall c :: 0 <= c < |s.cores| ==> CoreFair(program, s.history.count, Waiting(s.history, c), s.cores[c], c)
  }

  /** The acknowledgements are exact. */
  predicate AcksFair(program: seq<Round>, n: nat, regs: Regs, h: History) {
    && h.count <= |program|
    && h.selected == (if h.count == 0 then {} else program[h.count - 1].cores)
    && (forall c :: c in h.selected ==> c < n)
    && h.acked <= h.selected
    && regs.acks == (if h.acked == h.selected then 0 else |h.acked|)
    && regs.start == (if h.acked == h.selected then {} else h.selected)
    && (h.acked != h.selected ==> regs.data == ArgAfter(program, h.count) && regs.func == program[h.count - 1].func)
  }

  /** Neither taking nor making a call. */
  predicate Resting(core: Core) {
    core.phase == Leaving || core.phase == Idle
  }

  /** The selected cores that have reported the completion of their call of this round. */
  function Through(cores: seq<Core>, acked: set<nat>): set<nat> {
    set c | c in acked && c < |cores| && Resting(cores[c])
  }

  /** Completions of earlier rounds may have been counted too, so the quorum may fire early,
      but it does fire. */
  predicate DonesFair(s: State) {
    && s.regs.quorum == |s.history.selected| && s.regs.dones < |s.history.selected|
    && Ahead(s, 0)
  }

  /** The quorum has fired, or it counts at least `extra` completions of earlier rounds. */
  predicate Ahead(s: State, extra: nat) {
    s.events.pulse || s.events.done || |Through(s.cores, s.history.acked)| + extra <= s.regs.dones
  }

  predicate HostFair(program: seq<Round>, s: State) {
    var h, e := s.history, s.events;
    && s.round <= |program|
    && (s.round == |program| ==> s.host == ArmMask)
    && h.count == s.round + (if Before(s.host) then 0 else 1)
    && (s.host != Spin ==> h.acked == h.selected)
    && (!s.host.ArmMask? ==> !e.otherOn)
    && (!s.host.ArmMask? && !s.host.ArmClear? && !s.host.ArmEnable? ==> e.doneOn)
    && s.round + (if Passed(s.host) then 1 else 0) <= |program|
    && s.regs.data == ArgAfter(program, s.round + if Passed(s.host) then 1 else 0)
    && (s.host == SetTask || s.host == Start ==> s.regs.quorum == program[s.round].quorum)
    && (s.host == Start ==> s.regs.func == program[s.round].func)
  }

  predicate Fair(program: seq<Round>, n: nat, s: State) {
    && |s.cores| == n
    && AcksFair(program, n, s.regs, s.history)
    && CoresFair(program, s)
    && HostFair(program, s)
    && (!Before(s.host) ==> DonesFair(s))
  }

  lemma {:induction false} InitFair(program: seq<Round>, n: nat, s: State)
    requires Valid(program, n) && Init(n, s)
    ensures Fair(program, n, s)
  {
  }

  /** The START write asks one more call of the selected cores. */
  lemma {:induction false} AskedOneMore(program: seq<Round>, count: nat, core: Core, c: nat)
    requires count < |program| && CoreFair(program, count, false, core, c)
    ensures c in program[count].cores ==> CoreFair(program, count + 1, true, core.(pending := true), c)
    ensures c !in program[count].cores ==> CoreFair(program, count + 1, false, core, c)
  {
  }

  lemma {:induction false} DispatchCores(program: seq<Round>, s: State, t: State)
    requires s.history.count < |program| && CoresFair(program, s) && |t.cores| == |s.cores|
    requires s.history.acked == s.history.selected
    requires t.history.count == s.history.count + 1
    requires t.history.selected == program[s.history.count].cores && t.history.acked == {}
    requires forall c :: 0 <= c < |s.cores| ==>
      t.cores[c] == if c in t.history.selected then s.cores[c].(pending := true) else s.cores[c]
    ensures CoresFair(program, t)
  {
    forall c | 0 <= c < |t.cores| ensures CoreFair(program, t.history.count, Waiting(t.history, c), t.cores[c], c) {
      assert CoreFair(program, s.history.count, Waiting(s.history, c), s.cores[c], c);
      AskedOneMore(program, s.history.count, s.cores[c], c);
    }
  }

  lemma {:induction false} StartedFair(program: seq<Round>, n: nat, s: State, t: State)
    requires Fair(program, n, s) && s.host == Start && JustStarted(program, s, t) && ValidRound(program[s.round], n)
    ensures Fair(program, n, t)
  {
    FewerUnlessAll({}, program[s.round].cores);
    DispatchCores(program, s, t);
    assert Through(t.cores, {}) == {};
  }

  lemma {:induction false} DispatchKeepsFair(program: seq<Round>, n: nat, s: State)
    requires Valid(program, n) && Fair(program, n, s) && HostCan(program, s) && s.host == Start
    ensures Fair(program, n, HostStep(program, s))
  {
    assert ValidRound(program[s.round], n);
    FewerUnlessAll({}, program[s.round].cores);
    StartWrite(program, s);
    StartedFair(program, n, s, HostStep(program, s));
  }

  /** The steps up to the START write. */
  lemma {:induction false} EarlyHostFair(program: seq<Round>, n: nat, s: State)
    requires Valid(program, n) && HostFair(program, s) && HostCan(program, s) && Before(s.host) && s.host != Start
    requires AcksFair(program, n, s.regs, s.history)
    ensures var t := HostStep(program, s);
            && HostFair(program, t) && Before(t.host)
            && t.cores == s.cores && t.history == s.history.(fired := t.history.fired)
            && AcksFair(program, n, t.regs, t.history)
  {
    assert s.host == SetQuorum ==> ValidRound(program[s.round], n);
  }

  /** The steps after it. */
  lemma {:induction false} LateHostFair(program: seq<Round>, n: nat, s: State)
    requires HostFair(program, s) && HostCan(program, s) && !Before(s.host) && DonesFair(s)
    requires AcksFair(program, n, s.regs, s.history)
    ensures var t := HostStep(program, s);
            && HostFair(program, t) && (!Before(t.host) ==> DonesFair(t))
            && t.cores == s.cores && t.history == s.history && t.regs == s.regs
  {
    FewerUnlessAll(s.history.acked, s.history.selected);
  }

  lemma {:induction false} HostKeepsFair(program: seq<Round>, n: nat, s: State)
    requires Valid(program, n) && Fair(program, n, s) && HostCan(program, s)
    ensures Fair(program, n, HostStep(program, s))
  {
    if s.host == Start {
      DispatchKeepsFair(program, n, s);
    } else {
      if Before(s.host) {
        EarlyHostFair(program, n, s);
      } else {
        LateHostFair(program, n, s);
      }
      SameCores(program, s, HostStep(program, s));
    }
  }

  /** A step of a core or a pulse leaves alone what the host relies on. */
  lemma {:induction false} SameHost(program: seq<Round>, s: State, t: State)
    requires HostFair(program, s)
    requires t.host == s.host && t.round == s.round && t.history.count == s.history.count
    requires t.events == s.events.(pulse := t.events.pulse, done := t.events.done, other := t.events.other)
    requires t.regs == s.regs.(acks := t.regs.acks, start := t.regs.start, dones := t.regs.dones)
    requires s.host != Spin ==> t.history.acked == t.history.selected
    ensures HostFair(program, t)
  {
  }

  lemma {:induction false} SameCores(program: seq<Round>, s: State, t: State)
    requires s.history.count <= |program| && CoresFair(program, s)
    requires t.cores == s.cores && t.history == s.history.(fired := t.history.fired)
    ensures CoresFair(program, t)
  {
    forall c | 0 <= c < |t.cores|
      ensures CoreFair(program, t.history.count, Waiting(t.history, c), t.cores[c], c) {
      assert CoreFair(program, s.history.count, Waiting(s.history, c), s.cores[c], c);
    }
  }

  /** One core has changed, and whether it still has to acknowledge. */
  lemma {:induction false} OneCore(program: seq<Round>, s: State, t: State, c: nat)
    requires s.history.count == t.history.count <= |program| && CoresFair(program, s)
    requires c < |s.cores| == |t.cores| && t.cores == s.cores[c := t.cores[c]]
    requires forall d: nat :: d != c ==> Waiting(t.history, d) == Waiting(s.history, d)
    requires CoreFair(program, t.history.count, Waiting(t.history, c), t.cores[c], c)
    ensures CoresFair(program, t)
  {
    forall d | 0 <= d < |t.cores| && d != c
      ensures CoreFair(program, t.history.count, Waiting(t.history, d), t.cores[d], d) {
      assert t.cores[d] == s.cores[d];
      assert CoreFair(program, s.history.count, Waiting(s.history, d), s.cores[d], d);
    }
  }

  lemma {:induction false} ThroughSame(cores: seq<Core>, after: seq<Core>, acked: set<nat>, c: nat)
    requires c < |cores| == |after| && after == cores[c := after[c]]
    requires c in acked ==> Resting(cores[c]) == Resting(after[c])
    ensures Through(after, acked) == Through(cores, acked)
  {
  }

  lemma {:induction false} QuietCoreFair(program: seq<Round>, s: State, c: nat, count: nat, waiting: bool)
    requires CoreCan(s, c) && count <= |program| && CoreFair(program, count, waiting, s.cores[c], c)
    requires s.cores[c].phase != HasTask && s.cores[c].phase != Returned
    requires waiting ==> s.regs.data == ArgAfter(program, count) && s.regs.func == program[count - 1].func
    ensures CoreFair(program, count, waiting, CoreStep(s, c).cores[c], c)
  {
  }

  lemma {:induction false} QuietCoreKeepsFair(program: seq<Round>, n: nat, s: State, c: nat)
    requires Valid(program, n) && Fair(program, n, s) && CoreCan(s, c)
    requires s.cores[c].phase != HasTask && s.cores[c].phase != Returned
    ensures Fair(program, n, CoreStep(s, c))
  {
    var h, t := s.history, CoreStep(s, c);
    assert CoreFair(program, h.count, Waiting(h, c), s.cores[c], c);
    QuietCoreFair(program, s, c, h.count, Waiting(h, c));
    assert t == s.(cores := s.cores[c := t.cores[c]]);
    OneCore(program, s, t, c);
    ThroughSame(s.cores, t.cores, h.acked, c);
    SameHost(program, s, t);
  }

  lemma {:induction false} AckFair(program: seq<Round>, count: nat, core: Core, c: nat)
    requires 0 < count <= |program| && CoreFair(program, count, true, core, c) && core.phase == HasTask
    requires c in program[count - 1].cores
    ensures CoreFair(program, count, false, core.(phase := Running), c)
  {
  }

  /** An acknowledgement changes the START register and its counter only. */
  lemma {:induction false} AckWrite(program: seq<Round>, n: nat, regs: Regs, h: History, c: nat)
    requires AcksFair(program, n, regs, h) && Waiting(h, c)
    requires regs.quorum == |h.selected| && regs.dones < |h.selected|
    ensures var w := WriteStart(regs, {});
            && !w.1 && w.0 == regs.(acks := w.0.acks, start := w.0.start)
            && AcksFair(program, n, w.0, h.(acked := h.acked + {c}))
  {
    AddMember(h.acked, h.selected, c);
    FewerUnlessAll(h.acked, h.selected);
  }

  lemma {:induction false} AckKeepsFair(program: seq<Round>, n: nat, s: State, c: nat)
    requires Valid(program, n) && Fair(program, n, s) && CoreCan(s, c) && s.cores[c].phase == HasTask
    ensures Fair(program, n, CoreStep(s, c))
  {
    var h := s.history;
    assert CoreFair(program, h.count, Waiting(h, c), s.cores[c], c);
    AckWrite(program, n, s.regs, h, c);
    AckFair(program, h.count, s.cores[c], c);
    AckIs(s, c, WriteStart(s.regs, {}));
    AckParts(program, n, s, CoreStep(s, c), c, s.cores[c].(phase := Running));
  }

  lemma {:induction false} AckParts(program: seq<Round>, n: nat, s: State, t: State, c: nat, core: Core)
    requires Fair(program, n, s) && c < n && Waiting(s.history, c) && !Resting(core) && s.host == Spin
    requires AcksFair(program, n, t.regs, t.history) && CoreFair(program, s.history.count, false, core, c)
    requires t == s.(regs := t.regs, cores := s.cores[c := core], history := t.history)
    requires t.regs == s.regs.(acks := t.regs.acks, start := t.regs.start)
    requires t.history == s.history.(acked := s.history.acked + {c})
    ensures Fair(program, n, t)
  {
    OneCore(program, s, t, c);
    ThroughAck(s.cores, t.cores, s.history.acked, c);
    SameHost(program, s, t);
  }

  lemma {:induction false} ThroughAck(cores: seq<Core>, after: seq<Core>, acked: set<nat>, c: nat)
    requires c < |cores| == |after| && after == cores[c := after[c]] && !Resting(after[c]) && c !in acked
    ensures Through(after, acked + {c}) == Through(cores, acked)
  {
  }

  /** A completion changes its own counter only; if the quorum fires the counter restarts. */
  lemma {:induction false} DoneWrite(program: seq<Round>, n: nat, regs: Regs, h: History, after: History)
    requires AcksFair(program, n, regs, h) && after == h.(finished := after.finished, fired := after.fired)
    requires h.acked == h.selected || regs.quorum == |h.selected|
    ensures var w := WriteDone(regs);
            && w.0 == regs.(dones := w.0.dones) && AcksFair(program, n, w.0, after)
            && (regs.dones < regs.quorum ==> w.0.dones == (if w.1 then 0 else regs.dones + 1) < regs.quorum)
  {
    FewerUnlessAll(h.acked, h.selected);
  }

  lemma {:induction false} DoneKeepsFair(program: seq<Round>, n: nat, s: State, c: nat)
    requires Valid(program, n) && Fair(program, n, s) && CoreCan(s, c) && s.cores[c].phase == Returned
    ensures Fair(program, n, CoreStep(s, c))
  {
    var h, t := s.history, CoreStep(s, c);
    assert CoreFair(program, h.count, Waiting(h, c), s.cores[c], c);
    assert t.cores == s.cores[c := t.cores[c]];
    DoneWrite(program, n, s.regs, h, t.history);
    OneCore(program, s, t, c);
    OneThrough(s.cores, t.cores, h.acked, c);
    SameHost(program, s, t);
  }

  lemma {:induction false} OneThrough(cores: seq<Core>, after: seq<Core>, acked: set<nat>, c: nat)
    requires c < |cores| == |after| && after == cores[c := after[c]] && !Resting(cores[c]) && Resting(after[c])
    ensures |Through(after, acked)| <= |Through(cores, acked)| + 1
    ensures c !in acked ==> Through(after, acked) == Through(cores, acked)
  {
    var before := Through(cores, acked);
    assert Through(after, acked) == if c in acked then before + {c} else before;
  }

  lemma {:induction false} EventKeepsFair(program: seq<Round>, n: nat, s: State, l: Label)
    requires Fair(program, n, s) && Can(program, s, l) && (l.PulseArrives? || l.OtherEvent?)
    ensures Fair(program, n, Next(program, s, l))
  {
    var t := Next(program, s, l);
    SameCores(program, s, t);
    SameHost(program, s, t);
  }

  lemma {:induction false} CoreKeepsFair(program: seq<Round>, n: nat, s: State, c: nat)
    requires Valid(program, n) && Fair(program, n, s) && CoreCan(s, c)
    ensures Fair(program, n, CoreStep(s, c))
  {
    if s.cores[c].phase == HasTask {
      AckKeepsFair(program, n, s, c);
    } else if s.cores[c].phase == Returned {
      DoneKeepsFair(program, n, s, c);
    } else {
      QuietCoreKeepsFair(program, n, s, c);
    }
  }

  lemma {:induction false} GiveUpKeepsFair(program: seq<Round>, n: nat, s: State)
    requires Fair(program, n, s) && s.host == Wait && s.round < |program|
    ensures Fair(program, n, s.(host := ArmMask, round := s.round + 1))
  {
    SameCores(program, s, s.(host := ArmMask, round := s.round + 1));
  }

  lemma {:induction false} StepKeepsFair(program: seq<Round>, n: nat, s: State, l: Label)
    requires Valid(program, n) && Fair(program, n, s) && Can(program, s, l)
    ensures Fair(program, n, Next(program, s, l))
  {
    match l
    case HostMoves => HostKeepsFair(program, n, s);
    case CoreMoves(c) => CoreKeepsFair(program, n, s, c);
    case PulseArrives => EventKeepsFair(program, n, s, l);
    case OtherEvent => EventKeepsFair(program, n, s, l);
  }

  /** Every move keeps the invariant, whatever timed out before. */
  lemma {:induction false} MoveKeepsFair(program: seq<Round>, polls: set<nat>, n: nat, s: State, m: Move)
    requires Valid(program, n) && Fair(program, n, s) && CanMove(program, polls, s, m)
    ensures Fair(program, n, Moved(program, polls, s, m))
  {
    match m
    case GiveUp => GiveUpKeepsFair(program, n, s);
    case Step(l) => StepKeepsFair(program, n, s, l);
  }

  lemma {:induction false} RunKeepsFair(program: seq<Round>, polls: set<nat>, n: nat, s: State, moves: seq<Move>)
    requires Valid(program, n) && Fair(program, n, s) && Runs(program, polls, s, moves)
    ensures Fair(program, n, End(program, polls, s, moves))
    decreases |moves|
  {
    if moves != [] {
      MoveKeepsFair(program, polls, n, s, moves[0]);
      RunKeepsFair(program, polls, n, Moved(program, polls, s, moves[0]), moves[1..]);
    }
  }

  lemma {:induction false} SpinEnds(program: seq<Round>, n: nat, t: State)
    requires Valid(program, n) && Fair(program, n, t) && t.host == Spin && HostCan(program, t)
    ensures forall c :: 0 <= c < n ==> Due(t.cores[c]) == Asked(program, t.round + 1, c)
  {
    assert ValidRound(program[t.round], n);
    forall c | 0 <= c < n ensures Due(t.cores[c]) == Asked(program, t.round + 1, c) {
      assert CoreFair(program, t.history.count, Waiting(t.history, c), t.cores[c], c);
    }
  }

  /** In every run, whatever timed out before: when the host leaves its spin on START, every core
      has made or is making exactly the calls asked of it so far, in order. */
  lemma {:induction false} CallsSurviveTimeouts(program: seq<Round>, polls: set<nat>, n: nat, s: State, moves: seq<Move>,
                                                       t: State)
    requires Valid(program, n) && Init(n, s) && Runs(program, polls, s, moves) && t == End(program, polls, s, moves)
    requires t.host == Spin && HostCan(program, t)
    ensures |t.cores| == n && forall c :: 0 <= c < n ==> Due(t.cores[c]) == Asked(program, t.round + 1, c)
  {
    InitFair(program, n, s);
    RunKeepsFair(program, polls, n, s, moves);
    SpinEnds(program, n, t);
  }

  // ---------------------------------------------------------------- progress

  /** With nothing left to do for the cores, every call of the dispatch has been made and reported. */
  lemma {:induction false} AllIdle(program: seq<Round>, n: nat, s: State, c: nat)
    requires Fair(program, n, s) && c < n && !CoreCan(s, c)
    ensures s.cores[c].phase == Idle && s.cores[c].log == Asked(program, s.history.count, c) && !Waiting(s.history, c)
    ensures c in s.history.selected ==> c in Through(s.cores, s.history.acked)
  {
    assert CoreFair(program, s.history.count, Waiting(s.history, c), s.cores[c], c);
  }

  lemma {:induction false} HostNotStuck(program: seq<Round>, n: nat, s: State)
    requires Fair(program, n, s) && s.round < |program| && !s.events.pulse
    requires forall c :: 0 <= c < n ==> !CoreCan(s, c)
    ensures HostCan(program, s)
  {
    var h := s.history;
    forall c | c in h.selected ensures c in Through(s.cores, h.acked) && c in h.acked {
      AllIdle(program, n, s, c);
    }
    assert h.acked == h.selected == Through(s.cores, h.acked);
  }

  /** While rounds are left something can move. */
  lemma {:induction false} SomeMove(program: seq<Round>, n: nat, s: State) returns (l: Label)
    requires Fair(program, n, s) && s.round < |program|
    ensures Can(program, s, l) && !l.OtherEvent?
  {
    if c :| 0 <= c < n && CoreCan(s, c) {
      l := CoreMoves(c);
    } else if s.events.pulse {
      l := PulseArrives;
    } else {
      HostNotStuck(program, n, s);
      l := HostMoves;
    }
  }

  /** No host waits for ever: a run can stop only when every round is over, and then every core is
      asleep having made exactly the calls asked of it. */
  lemma {:induction false} StopsOnlyWhenOver(program: seq<Round>, polls: set<nat>, n: nat, s: State, moves: seq<Move>,
                                                    t: State)
    requires Valid(program, n) && Init(n, s) && Runs(program, polls, s, moves) && t == End(program, polls, s, moves)
    requires Stuck(program, t)
    ensures t.round == |program| && |t.cores| == n
    ensures forall c :: 0 <= c < n ==> t.cores[c].phase == Idle && t.cores[c].log == Asked(program, |program|, c)
  {
    InitFair(program, n, s);
    RunKeepsFair(program, polls, n, s, moves);
    if t.round < |program| {
      var l := SomeMove(program, n, t);
      assert false;
    }
    forall c | 0 <= c < n ensures t.cores[c].phase == Idle && t.cores[c].log == Asked(program, |program|, c) {
      AllIdle(program, n, t, c);
    }
  }

  /** The moves of a run, leaving out the other event sources. */
  function OwnMoves(moves: seq<Move>): nat {
    if moves == [] then 0 else OwnMoves(moves[1..]) + if moves[0] == Step(OtherEvent) then 0 else 1
  }

  lemma {:induction false} MoveWorks(program: seq<Round>, polls: set<nat>, s: State, m: Move)
    requires CanMove(program, polls, s, m)
    ensures |Moved(program, polls, s, m).cores| == |s.cores|
    ensures Work(program, Moved(program, polls, s, m)) <= Work(program, s) - if m == Step(OtherEvent) then 0 else 1
  {
    match m
    case Step(l) => EveryMoveWorks(program, s, l);
    case GiveUp =>
      var t := Moved(program, polls, s, m);
      OneStepLess(HostWork(program, t), HostWork(program, s), 9 * |s.cores| + 2);
  }

  lemma {:induction false} WorkRemains(program: seq<Round>, s: State)
    requires HostFair(program, s)
    ensures Work(program, s) >= 0
  {
    NonNegative(HostWork(program, s), 9 * |s.cores| + 2);
  }

  lemma {:induction false} MovesUseWork(program: seq<Round>, polls: set<nat>, s: State, moves: seq<Move>)
    requires Runs(program, polls, s, moves)
    ensures OwnMoves(moves) + Work(program, End(program, polls, s, moves)) <= Work(program, s)
    decreases |moves|
  {
    if moves != [] {
      MoveWorks(program, polls, s, moves[0]);
      MovesUseWork(program, polls, Moved(program, polls, s, moves[0]), moves[1..]);
    }
  }

  /** Runs with timeouts are as bounded as those without. */
  lemma {:induction false} RunsStayFinite(program: seq<Round>, polls: set<nat>, n: nat, s: State, moves: seq<Move>)
    requires Valid(program, n) && Init(n, s) && Runs(program, polls, s, moves)
    ensures OwnMoves(moves) <= 10 * |program| * (9 * n + 2)
  {
    InitFair(program, n, s);
    RunKeepsFair(program, polls, n, s, moves);
    MovesUseWork(program, polls, s, moves);
    FirstWork(program, n, s);
    WorkRemains(program, End(program, polls, s, moves));
  }

  // ---------------------------------------------------------------- when a wait can be relied on

  /** The host is about to leave the wait of round `r`. */
  predicate Leaves(program: seq<Round>, polls: set<nat>, s: State, r: nat) {
    s.host == Wait && s.round == r && r < |program| && (HostCan(program, s) || r in polls)
  }

  /** Every core has made exactly the calls asked of it up to round `r`. */
  predicate AllDone(program: seq<Round>, s: State, r: nat)
    requires r < |program|
  {
    forall c :: 0 <= c < |s.cores| ==> s.cores[c].log == Asked(program, r + 1, c)
  }

  predicate SoundRun(program: seq<Round>, polls: set<nat>, n: nat, r: nat, s: State, moves: seq<Move>)
    requires r < |program|
  {
    Init(n, s) && Runs(program, polls, s, moves) && Leaves(program, polls, End(program, polls, s, moves), r) ==>
      AllDone(program, End(program, polls, s, moves), r)
  }

  /** In every run the wait of round `r` ends only when its cores have finished. */
  ghost predicate WaitSound(program: seq<Round>, polls: set<nat>, n: nat, r: nat)
    requires r < |program|
  {
    forall s, moves :: SoundRun(program, polls, n, r, s, moves)
  }

  lemma {:induction false} RoundsGrow(program: seq<Round>, polls: set<nat>, s: State, moves: seq<Move>)
    requires Runs(program, polls, s, moves)
    ensures s.round <= End(program, polls, s, moves).round
    decreases |moves|
  {
    if moves != [] {
      RoundsGrow(program, polls, Moved(program, polls, s, moves[0]), moves[1..]);
    }
  }

  /** Before the first round that polls, nothing is given up. */
  lemma {:induction false} NothingGivenUp(program: seq<Round>, polls: set<nat>, n: nat, s: State, moves: seq<Move>, r: nat)
    requires Valid(program, n) && Inv(program, n, s) && Runs(program, polls, s, moves)
    requires End(program, polls, s, moves).round <= r && forall q :: 0 <= q <= r ==> q !in polls
    ensures Inv(program, n, End(program, polls, s, moves))
    decreases |moves|
  {
    if moves != [] {
      var t := Moved(program, polls, s, moves[0]);
      RoundsGrow(program, polls, s, moves);
      StepKeepsInv(program, n, s, moves[0].who);
      NothingGivenUp(program, polls, n, t, moves[1..], r);
    }
  }

  // ---------------------------------------------------------------- leading a run on

  /** Some moves lead from one state to another. */
  ghost predicate Leads(program: seq<Round>, polls: set<nat>, s: State, t: State) {
    exists moves :: Runs(program, polls, s, moves) && End(program, polls, s, moves) == t
  }

  /** One move goes from `s` to `t`. */
  ghost predicate Goes(program: seq<Round>, polls: set<nat>, s: State, t: State) {
    exists m :: CanMove(program, polls, s, m) && t == Moved(program, polls, s, m)
  }

  lemma {:induction false} LeadsOn(program: seq<Round>, polls: set<nat>, s: State, next: State, t: State)
    requires Goes(program, polls, s, next) && Leads(program, polls, next, t)
    ensures Leads(program, polls, s, t)
  {
    var m :| CanMove(program, polls, s, m) && next == Moved(program, polls, s, m);
    var rest :| Runs(program, polls, next, rest) && End(program, polls, next, rest) == t;
    var moves := [m] + rest;
    assert moves[1..] == rest;
    assert Runs(program, polls, s, moves);
  }

  lemma {:induction false} LeadsNowhere(program: seq<Round>, polls: set<nat>, s: State)
    ensures Leads(program, polls, s, s)
  {
    assert Runs(program, polls, s, []);
  }

  lemma {:induction false} LeadsThrough(program: seq<Round>, polls: set<nat>, s: State, moves: seq<Move>, t: State)
    requires Runs(program, polls, s, moves) && Leads(program, polls, End(program, polls, s, moves), t)
    ensures Leads(program, polls, s, t)
    decreases |moves|
  {
    if moves != [] {
      var next := Moved(program, polls, s, moves[0]);
      LeadsThrough(program, polls, next, moves[1..], t);
      LeadsOn(program, polls, s, next, t);
    }
  }

  lemma {:induction false} LeadsFurther(program: seq<Round>, polls: set<nat>, s: State, mid: State, t: State)
    requires Leads(program, polls, s, mid) && Leads(program, polls, mid, t)
    ensures Leads(program, polls, s, t)
  {
    var moves :| Runs(program, polls, s, moves) && End(program, polls, s, moves) == mid;
    LeadsThrough(program, polls, s, moves, t);
  }

  /** A move of the host, of a core or of the pulse. */
  ghost predicate Works(program: seq<Round>, polls: set<nat>, n: nat, s: State, t: State) {
    Goes(program, polls, s, t) && Fair(program, n, t) && 0 <= Work(program, t) < Work(program, s)
  }

  lemma {:induction false} OwnMove(program: seq<Round>, polls: set<nat>, n: nat, s: State, m: Move)
    requires Valid(program, n) && Fair(program, n, s) && CanMove(program, polls, s, m) && m != Step(OtherEvent)
    ensures Works(program, polls, n, s, Moved(program, polls, s, m))
  {
    MoveKeepsFair(program, polls, n, s, m);
    MoveWorks(program, polls, s, m);
    WorkRemains(program, Moved(program, polls, s, m));
  }

  /** Only leaving the wait ends a round. */
  lemma {:induction false} RoundEnds(program: seq<Round>, s: State, l: Label)
    requires Can(program, s, l)
    ensures var t := Next(program, s, l);
            if l.HostMoves? && s.host == Wait then t.round == s.round + 1 && t.host == ArmMask
            else t.round == s.round && (!Before(s.host) ==> !Before(t.host))
  {
  }

  lemma {:induction false} OneMoveCloser(program: seq<Round>, polls: set<nat>, n: nat, s: State, k: nat) returns (t: State)
    requires Valid(program, n) && Fair(program, n, s) && s.round < k <= |program|
    ensures Works(program, polls, n, s, t) && t.round <= k && (t.round == k ==> t.host == ArmMask)
  {
    var l := SomeMove(program, n, s);
    OwnMove(program, polls, n, s, Step(l));
    RoundEnds(program, s, l);
    t := Next(program, s, l);
  }

  /** From any state of the invariant the host gets to every later round. */
  lemma {:induction false} ReachRound(program: seq<Round>, polls: set<nat>, n: nat, s: State, k: nat) returns (t: State)
    requires Valid(program, n) && Fair(program, n, s) && s.round <= k <= |program| && (s.round == k ==> s.host == ArmMask)
    ensures Leads(program, polls, s, t) && Fair(program, n, t) && t.round == k && t.host == ArmMask
    decreases Work(program, s)
  {
    if s.round == k {
      t := s;
      LeadsNowhere(program, polls, s);
    } else {
      var next := OneMoveCloser(program, polls, n, s, k);
      t := ReachRound(program, polls, n, next, k);
      LeadsOn(program, polls, s, next, t);
    }
  }

  /** The host has just written START, with the cores as they were in `s`. */
  predicate Dispatched(program: seq<Round>, s: State, t: State) {
    && t.host == Spin && t.round == s.round < |program|
    && t.history.acked == {} && t.history.selected == program[t.round].cores
    && |t.cores| == |s.cores| && forall c :: 0 <= c < |s.cores| ==> t.cores[c].phase == s.cores[c].phase
  }

  lemma {:induction false} EarlyStep(program: seq<Round>, s: State)
    requires HostCan(program, s) && Before(s.host)
    ensures var t := HostStep(program, s);
            && t.round == s.round
            && (s.host == Start ==> Dispatched(program, s, t))
            && (s.host != Start ==> t.cores == s.cores && Before(t.host) && Place(t.host) == Place(s.host) + 1)
  {
  }

  lemma {:induction false} DispatchMove(program: seq<Round>, polls: set<nat>, n: nat, s: State) returns (t: State)
    requires Valid(program, n) && Fair(program, n, s) && Before(s.host) && s.round < |program|
    ensures Works(program, polls, n, s, t) && t.round == s.round
    ensures s.host == Start ==> Dispatched(program, s, t)
    ensures s.host != Start ==> t.cores == s.cores && Before(t.host) && Place(t.host) == Place(s.host) + 1
  {
    OwnMove(program, polls, n, s, Step(HostMoves));
    EarlyStep(program, s);
    t := HostStep(program, s);
  }

  /** The host dispatches while the cores stand still. */
  lemma {:induction false} DispatchAlone(program: seq<Round>, polls: set<nat>, n: nat, s: State) returns (t: State)
    requires Valid(program, n) && Fair(program, n, s) && Before(s.host) && s.round < |program|
    ensures Leads(program, polls, s, t) && Fair(program, n, t) && Dispatched(program, s, t)
    decreases 10 - Place(s.host)
  {
    var next := DispatchMove(program, polls, n, s);
    if s.host == Start {
      t := next;
      LeadsNowhere(program, polls, t);
    } else {
      t := DispatchAlone(program, polls, n, next);
    }
    LeadsOn(program, polls, s, next, t);
  }

  /** A core still busy with an earlier round reports it after the START write. */
  lemma {:induction false} ReportLate(program: seq<Round>, polls: set<nat>, n: nat, s: State, c: nat) returns (t: State)
    requires Valid(program, n) && Fair(program, n, s) && s.host == Spin && s.history.acked == {}
    requires c < n && s.cores[c].phase == Running
    ensures Leads(program, polls, s, t) && Fair(program, n, t) && Ahead(t, 1)
    ensures t.host == Spin && t.round == s.round && t.history.acked == {} && t.history.selected == s.history.selected
  {
    var mid := CoreStep(s, c);
    OwnMove(program, polls, n, s, Step(CoreMoves(c)));
    OwnMove(program, polls, n, mid, Step(CoreMoves(c)));
    t := CoreStep(mid, c);
    assert Through(t.cores, {}) == {};
    LeadsNowhere(program, polls, t);
    LeadsOn(program, polls, mid, t, t);
    LeadsOn(program, polls, s, mid, t);
  }

  lemma {:induction false} AheadKept(program: seq<Round>, n: nat, s: State, l: Label, extra: nat)
    requires Fair(program, n, s) && Can(program, s, l) && !Before(s.host) && Ahead(s, extra)
    requires l.HostMoves? ==> s.host != Wait
    ensures Ahead(Next(program, s, l), extra)
  {
    var t := Next(program, s, l);
    if l.CoreMoves? {
      var c, acked := l.core, s.history.acked;
      assert CoreFair(program, s.history.count, Waiting(s.history, c), s.cores[c], c);
      assert t.cores == s.cores[c := t.cores[c]];
      if s.cores[c].phase == HasTask {
        ThroughAck(s.cores, t.cores, acked, c);
      } else if s.cores[c].phase == Returned {
        OneThrough(s.cores, t.cores, acked, c);
      } else {
        ThroughSame(s.cores, t.cores, acked, c);
      }
    }
  }

  /** Core `d` of the round has not begun its call, or is held in it. */
  predicate Held(s: State, d: nat) {
    && d in s.history.selected && d < |s.cores|
    && (d in s.history.acked ==> s.cores[d].phase == Running)
  }

  /** A move that does not let core `d` end its call, unless the host has come to its wait and
      everybody else is asleep. */
  lemma {:induction false} HoldingMove(program: seq<Round>, n: nat, s: State, d: nat) returns (stop: bool, l: Label)
    requires Fair(program, n, s) && !Before(s.host) && Held(s, d)
    ensures !stop ==> Can(program, s, l) && !l.OtherEvent? && (l.HostMoves? ==> s.host != Wait)
    ensures !stop ==> Held(Next(program, s, l), d)
    ensures stop ==> s.host == Wait && !s.events.pulse && d in s.history.acked
    ensures stop ==> forall c :: 0 <= c < n && c != d ==> !CoreCan(s, c)
  {
    stop, l := false, HostMoves;
    assert CoreFair(program, s.history.count, Waiting(s.history, d), s.cores[d], d);
    if c :| 0 <= c < n && c != d && CoreCan(s, c) {
      l := CoreMoves(c);
    } else if d !in s.history.acked {
      l := CoreMoves(d);
    } else if s.events.pulse {
      l := PulseArrives;
    } else if s.host == Wait {
      stop := true;
    } else {
      forall c | c in s.history.selected ensures c in s.history.acked {
        if c != d {
          AllIdle(program, n, s, c);
        }
      }
    }
  }

  /** With everybody but `d` asleep, the completions counted too often make up for it. */
  lemma {:induction false} QuorumWithout(program: seq<Round>, n: nat, s: State, d: nat)
    requires Fair(program, n, s) && s.host == Wait && !s.events.pulse && Held(s, d) && d in s.history.acked
    requires forall c :: 0 <= c < n && c != d ==> !CoreCan(s, c)
    requires Ahead(s, 1)
    ensures HostCan(program, s)
  {
    var h := s.history;
    forall c | c in h.selected - {d} ensures c in Through(s.cores, h.acked) {
      AllIdle(program, n, s, c);
    }
    var others := h.selected - {d};
    assert Through(s.cores, h.acked) == others;
    assert h.selected == others + {d};
  }

  lemma {:induction false} HoldOn(program: seq<Round>, polls: set<nat>, n: nat, s: State, d: nat, extra: nat)
    returns (stop: bool, t: State)
    requires Valid(program, n) && Fair(program, n, s) && !Before(s.host) && Held(s, d) && Ahead(s, extra)
    ensures stop ==> t == s && s.host == Wait && d in s.history.acked && (extra > 0 ==> HostCan(program, s))
    ensures !stop ==> Works(program, polls, n, s, t) && t.round == s.round
    ensures !stop ==> !Before(t.host) && Held(t, d) && Ahead(t, extra)
  {
    var l;
    stop, l := HoldingMove(program, n, s, d);
    if stop {
      t := s;
      if extra > 0 {
        QuorumWithout(program, n, s, d);
      }
    } else {
      OwnMove(program, polls, n, s, Step(l));
      AheadKept(program, n, s, l, extra);
      RoundEnds(program, s, l);
      t := Next(program, s, l);
    }
  }

  /** The run in which core `d` is held in its call of this round: the host comes to its wait, and
      leaves it if a completion has been counted too often. */
  lemma {:induction false} HoldCore(program: seq<Round>, polls: set<nat>, n: nat, s: State, d: nat, extra: nat)
    returns (t: State)
    requires Valid(program, n) && Fair(program, n, s) && !Before(s.host) && Held(s, d) && Ahead(s, extra)
    ensures Leads(program, polls, s, t) && Fair(program, n, t)
    ensures t.host == Wait && t.round == s.round && Held(t, d) && d in t.history.acked
    ensures extra > 0 ==> HostCan(program, t)
    decreases Work(program, s)
  {
    var stop, next := HoldOn(program, polls, n, s, d, extra);
    if stop {
      t := s;
      LeadsNowhere(program, polls, s);
    } else {
      t := HoldCore(program, polls, n, next, d, extra);
      LeadsOn(program, polls, s, next, t);
    }
  }

  lemma {:induction false} HeldIsShort(program: seq<Round>, n: nat, s: State, d: nat)
    requires Fair(program, n, s) && !Before(s.host) && s.round < |program| && Held(s, d) && d in s.history.acked
    ensures !AllDone(program, s, s.round)
  {
    assert CoreFair(program, s.history.count, Waiting(s.history, d), s.cores[d], d);
    assert |Due(s.cores[d])| == |s.cores[d].log| + 1;
  }

  /** One round, up to its wait, with core `d` held in its call of it: it can be left if it polls or
      a core was late. */
  lemma {:induction false} HoldRound(program: seq<Round>, polls: set<nat>, n: nat, s: State, late: bool, c: nat, d: nat)
    returns (t: State)
    requires Valid(program, n) && Fair(program, n, s) && s.host == ArmMask && s.round < |program|
    requires late ==> c < n && s.cores[c].phase == Running
    requires d in program[s.round].cores
    ensures Leads(program, polls, s, t) && Fair(program, n, t)
    ensures t.host == Wait && t.round == s.round && Held(t, d) && d in t.history.acked
    ensures late ==> HostCan(program, t)
  {
    assert ValidRound(program[s.round], n);
    var begun := DispatchAlone(program, polls, n, s);
    var extra := if late then 1 else 0;
    if late {
      var told := ReportLate(program, polls, n, begun, c);
      LeadsFurther(program, polls, s, begun, told);
      begun := told;
    }
    t := HoldCore(program, polls, n, begun, d, extra);
    LeadsFurther(program, polls, s, begun, t);
  }

  lemma {:induction false} LeaveWait(program: seq<Round>, polls: set<nat>, n: nat, s: State) returns (t: State)
    requires Valid(program, n) && Fair(program, n, s) && Leaves(program, polls, s, s.round)
    ensures Works(program, polls, n, s, t)
    ensures t.host == ArmMask && t.round == s.round + 1 && t.cores == s.cores
  {
    var m := if HostCan(program, s) then Step(HostMoves) else GiveUp;
    OwnMove(program, polls, n, s, m);
    t := Moved(program, polls, s, m);
  }

  /** A round that starts with a late core, or polls, can be left with a core still in its call,
      and so can every round after it. */
  lemma {:induction false} LeavesEarly(program: seq<Round>, polls: set<nat>, n: nat, s: State, r: nat, late: bool, c: nat)
    returns (t: State)
    requires Valid(program, n) && Fair(program, n, s) && s.host == ArmMask && s.round <= r < |program|
    requires if late then c < n && s.cores[c].phase == Running else s.round in polls
    ensures Leads(program, polls, s, t) && Leaves(program, polls, t, r) && !AllDone(program, t, r)
    decreases r - s.round
  {
    assert ValidRound(program[s.round], n);
    var d :| d in program[s.round].cores;
    var held := HoldRound(program, polls, n, s, late, c, d);
    if s.round == r {
      t := held;
      HeldIsShort(program, n, held, d);
    } else {
      var next := LeaveWait(program, polls, n, held);
      t := LeavesEarly(program, polls, n, next, r, true, d);
      LeadsOn(program, polls, held, next, t);
      LeadsFurther(program, polls, s, held, t);
    }
  }

  function FirstState(n: nat): State {
    State(ArmMask, 0, Regs(0, 0, 0, {}, 0, 0), Events(false, false, false, false, false),
          seq(n, c => Core(Idle, false, 0, 0, [])), History(0, {}, {}, {}, 0))
  }

  /** The wait of a round ends, in every run, only when its cores have finished if and only if
      neither it nor any round before it polls. */
  lemma {:induction false} WaitSoundIff(program: seq<Round>, polls: set<nat>, n: nat, r: nat)
    requires Valid(program, n) && r < |program|
    ensures WaitSound(program, polls, n, r) <==> forall q :: 0 <= q <= r ==> q !in polls
  {
    if q: nat :| q <= r && q in polls {
      var s := FirstState(n);
      InitFair(program, n, s);
      var at := ReachRound(program, polls, n, s, q);
      var t := LeavesEarly(program, polls, n, at, r, false, 0);
      LeadsFurther(program, polls, s, at, t);
      var moves :| Runs(program, polls, s, moves) && End(program, polls, s, moves) == t;
      assert !SoundRun(program, polls, n, r, s, moves);
    } else {
      forall s, moves ensures SoundRun(program, polls, n, r, s, moves) {
        if Init(n, s) && Runs(program, polls, s, moves) && Leaves(program, polls, End(program, polls, s, moves), r) {
          InitInv(program, n, s);
          NothingGivenUp(program, polls, n, s, moves, r);
          WaitIsSound(program, n, End(program, polls, s, moves));
        }
      }
    }
  }
}
