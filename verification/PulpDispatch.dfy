/** Dispatching rounds of work to the PULP cluster: the host, the control registers with
    their acknowledge and completion quorums, the event unit's done event, and any number
    of cores, interleaved step by step. */
module PulpDispatch {
  import PulpPopcount

  /** The argument register is written only by the form of dispatch that passes one. */
  datatype Params = Keep | Pass(pointer: nat)

  /** One arm, dispatch and wait: the task, the selected cores and the quorum written. */
  datatype Round = Round(func: nat, params: Params, cores: set<nat>, quorum: nat)

  /** A task as a core runs it. */
  datatype Call = Call(func: nat, arg: nat)

  datatype Phase = Idle | Entry | HasData | HasTask | Running | Returned | Leaving

  /** A core: where it is in its handler, its latched interrupt, the two registers the
      handler loads, and every call made so far. */
  datatype Core = Core(phase: Phase, pending: bool, arg: nat, func: nat, log: seq<Call>)

  /** The control registers. */
  datatype Regs = Regs(quorum: nat, func: nat, data: nat, start: set<nat>, acks: nat, dones: nat)

  /** The event unit seen from one event: the done pulse on its way, the latched done
      event, some other latched event, and whether each is enabled. */
  datatype Events = Events(pulse: bool, done: bool, other: bool, doneOn: bool, otherOn: bool)

  /** What has happened: dispatches so far, the cores of the last one, those of them that
      acknowledged and that finished, and how often the quorum fired. */
  datatype History = History(count: nat, selected: set<nat>, acked: set<nat>, finished: set<nat>, fired: nat)

  datatype Host = ArmMask | ArmClear | ArmEnable | PassParams | SetQuorum | SetTask | Start | Spin | Enable | Wait

  datatype State = State(host: Host, round: nat, regs: Regs, events: Events, cores: seq<Core>, history: History)

  /** Who moves: the host, a core, the done pulse reaching the event unit, or some other
      event source. */
  datatype Label = HostMoves | CoreMoves(core: nat) | PulseArrives | OtherEvent

  // ---------------------------------------------------------------- the registers

  /** The two quorum tests, made on every cycle. */
  function Settle(regs: Regs): (Regs, bool) {
    var fires := regs.dones >= regs.quorum && regs.quorum != 0;
    var clears := regs.acks >= regs.quorum && regs.quorum != 0;
    (regs.(dones := if fires then 0 else regs.dones,
           acks := if clears then 0 else regs.acks,
           start := if clears then {} else regs.start), fires)
  }

  /** A write of START: a mask dispatches, zero acknowledges. */
  function WriteStart(regs: Regs, mask: set<nat>): (Regs, bool) {
    Settle(if mask != {} then regs.(start := mask, acks := 0, dones := 0) else regs.(acks := regs.acks + 1))
  }

  function WriteDone(regs: Regs): (Regs, bool) {
    Settle(regs.(dones := regs.dones + 1))
  }

  // ---------------------------------------------------------------- the steps

  function Notify(s: State, written: (Regs, bool)): State {
    s.(regs := written.0,
       events := s.events.(pulse := s.events.pulse || written.1),
       history := s.history.(fired := s.history.fired + if written.1 then 1 else 0))
  }

  predicate HostCan(program: seq<Round>, s: State) {
    && s.round < |program|
    && (s.host == Spin ==> s.regs.start == {})
    && (s.host == Wait ==> (s.events.done && s.events.doneOn) || (s.events.other && s.events.otherOn))
  }

  /** One access of the host: arm, dispatch, spin on START, wait for an event. A spin or
      a wait whose condition does not hold is not a step. */
  function HostStep(program: seq<Round>, s: State): State
    requires HostCan(program, s)
  {
    var round := program[s.round];
    match s.host
    case ArmMask => s.(host := ArmClear, events := s.events.(doneOn := false, otherOn := false))
    case ArmClear => s.(host := ArmEnable, events := s.events.(done := false, other := false))
    case ArmEnable => s.(host := PassParams, events := s.events.(doneOn := true))
    case PassParams =>
      s.(host := SetQuorum, regs := s.regs.(data := if round.params.Pass? then round.params.pointer else s.regs.data))
    case SetQuorum => Notify(s.(host := SetTask), Settle(s.regs.(quorum := round.quorum)))
    case SetTask => s.(host := Start, regs := s.regs.(func := round.func))
    case Start => Dispatch(s, round.cores)
    case Spin => s.(host := Enable)
    case Enable => s.(host := Wait, events := s.events.(doneOn := true))
    case Wait =>
      s.(host := ArmMask, round := s.round + 1,
         events := s.events.(done := s.events.done && !s.events.doneOn, other := s.events.other && !s.events.otherOn))
  }

  /** The START write of the host: the selected cores get their interrupt. */
  function Dispatch(s: State, mask: set<nat>): State {
    Notify(s.(host := Spin,
              cores := seq(|s.cores|, c requires 0 <= c < |s.cores| =>
                             if c in mask then s.cores[c].(pending := true) else s.cores[c]),
              history := s.history.(count := s.history.count + 1, selected := mask, acked := {}, finished := {})),
           WriteStart(s.regs, mask))
  }

  predicate CoreCan(s: State, c: nat) {
    c < |s.cores| && (s.cores[c].phase == Idle ==> s.cores[c].pending)
  }

  /** One step of a core's handler: take the interrupt, load the argument, load the task,
      acknowledge, run the task, report completion, return. */
  function CoreStep(s: State, c: nat): State
    requires CoreCan(s, c)
  {
    var core := s.cores[c];
    match core.phase
    case Idle => s.(cores := s.cores[c := core.(phase := Entry, pending := false)])
    case Entry => s.(cores := s.cores[c := core.(phase := HasData, arg := s.regs.data)])
    case HasData => s.(cores := s.cores[c := core.(phase := HasTask, func := s.regs.func)])
    case HasTask =>
      Notify(s.(cores := s.cores[c := core.(phase := Running)],
                history := s.history.(acked := s.history.acked + {c})),
             WriteStart(s.regs, {}))
    case Running =>
      s.(cores := s.cores[c := core.(phase := Returned, log := core.log + [Call(core.func, core.arg)])])
    case Returned =>
      Notify(s.(cores := s.cores[c := core.(phase := Leaving)],
                history := s.history.(finished := s.history.finished + {c})),
             WriteDone(s.regs))
    case Leaving => s.(cores := s.cores[c := core.(phase := Idle)])
  }

  predicate Can(program: seq<Round>, s: State, l: Label) {
    match l
    case HostMoves => HostCan(program, s)
    case CoreMoves(c) => CoreCan(s, c)
    case PulseArrives => s.events.pulse
    case OtherEvent => true
  }

  function Next(program: seq<Round>, s: State, l: Label): State
    requires Can(program, s, l)
  {
    match l
    case HostMoves => HostStep(program, s)
    case CoreMoves(c) => CoreStep(s, c)
    case PulseArrives => s.(events := s.events.(pulse := false, done := true))
    case OtherEvent => s.(events := s.events.(other := true))
  }

  // ---------------------------------------------------------------- what should happen

  predicate ValidRound(round: Round, n: nat) {
    && round.cores != {}
    && (forall c :: c in round.cores ==> c < n)
    && round.quorum == |round.cores|
  }

  predicate Valid(program: seq<Round>, n: nat) {
    forall r :: 0 <= r < |program| ==> ValidRound(program[r], n)
  }

  /** The argument register after `k` rounds. */
  function ArgAfter(program: seq<Round>, k: nat): nat
    requires k <= |program|
  {
    if k == 0 then 0
    else match program[k - 1].params
      case Pass(pointer) => pointer
      case Keep => ArgAfter(program, k - 1)
  }

  /** The calls that `k` rounds ask of core `c`. */
  function Asked(program: seq<Round>, k: nat, c: nat): seq<Call>
    requires k <= |program|
  {
    if k == 0 then []
    else Asked(program, k - 1, c)
         + if c in program[k - 1].cores then [Call(program[k - 1].func, ArgAfter(program, k))] else []
  }

  /** After reset, with the event unit in any state but for the pulse. */
  predicate Init(n: nat, s: State) {
    && s.host == ArmMask && s.round == 0 && !s.events.pulse
    && s.regs.data == 0 && s.regs.start == {} && s.regs.acks == 0 && s.regs.dones == 0
    && |s.cores| == n
    && (forall c :: 0 <= c < n ==> s.cores[c].phase == Idle && !s.cores[c].pending && s.cores[c].log == [])
    && s.history == History(0, {}, {}, {}, 0)
  }

  // ---------------------------------------------------------------- the invariant

  predicate CoreOk(program: seq<Round>, h: History, core: Core, c: nat)
    requires h.count <= |program|
  {
    if c in h.selected && c !in h.finished then
      && h.count > 0
      && var call := Call(program[h.count - 1].func, ArgAfter(program, h.count));
      && core.log == Asked(program, if core.phase == Returned then h.count else h.count - 1, c)
      && core.pending == (core.phase == Idle || core.phase == Leaving)
      && (core.phase == HasData || core.phase == HasTask || c in h.acked ==> core.arg == call.arg)
      && (core.phase == HasTask || c in h.acked ==> core.func == call.func)
      && (c in h.acked <==> core.phase == Running || core.phase == Returned)
    else
      !core.pending && (core.phase == Idle || core.phase == Leaving) && core.log == Asked(program, h.count, c)
  }

  predicate CoresOk(program: seq<Round>, s: State)
    requires s.history.count <= |program|
  {
    forall c :: 0 <= c < |s.cores| ==> CoreOk(program, s.history, s.cores[c], c)
  }

  /** What the quorum counters hold between the first write and the last. */
  predicate RegsOk(program: seq<Round>, n: nat, regs: Regs, h: History) {
    && h.count <= |program|
    && h.selected == (if h.count == 0 then {} else program[h.count - 1].cores)
    && (forall c :: c in h.selected ==> c < n)
    && h.finished <= h.acked <= h.selected
    && regs.acks == (if h.acked == h.selected then 0 else |h.acked|)
    && regs.start == (if h.acked == h.selected then {} else h.selected)
    && regs.dones == (if h.finished == h.selected then 0 else |h.finished|)
    && h.fired + (if h.finished == h.selected then 0 else 1) == h.count
    && (h.finished != h.selected ==> regs.quorum == |h.selected|)
    && (h.acked != h.selected ==> regs.data == ArgAfter(program, h.count) && regs.func == program[h.count - 1].func)
  }

  predicate Before(host: Host) {
    !host.Spin? && !host.Enable? && !host.Wait?
  }

  predicate Passed(host: Host) {
    !host.ArmMask? && !host.ArmClear? && !host.ArmEnable? && !host.PassParams?
  }

  predicate HostOk(program: seq<Round>, s: State) {
    var h, e, quiet := s.history, s.events, s.history.finished == s.history.selected;
    && s.round <= |program|
    && (s.round == |program| ==> s.host == ArmMask)
    && h.count == s.round + (if Before(s.host) then 0 else 1)
    && (Before(s.host) ==> quiet && !e.pulse)
    && (!Before(s.host) ==> (quiet <==> e.pulse || e.done) && !(e.pulse && e.done))
    && (Before(s.host) && !s.host.ArmMask? && !s.host.ArmClear? ==> !e.done)
    && (!s.host.ArmMask? ==> !e.otherOn)
    && (!s.host.ArmMask? && !s.host.ArmClear? && !s.host.ArmEnable? ==> e.doneOn)
    && (s.host == Enable || s.host == Wait ==> h.acked == h.selected)
    && s.round + (if Passed(s.host) then 1 else 0) <= |program|
    && s.regs.data == ArgAfter(program, s.round + if Passed(s.host) then 1 else 0)
    && (s.host == SetTask || s.host == Start ==> s.regs.quorum == program[s.round].quorum)
    && (s.host == Start ==> s.regs.func == program[s.round].func)
  }

  predicate Inv(program: seq<Round>, n: nat, s: State) {
    && |s.cores| == n
    && RegsOk(program, n, s.regs, s.history)
    && CoresOk(program, s)
    && HostOk(program, s)
  }

  // ---------------------------------------------------------------- preservation

  lemma {:induction false} InitInv(program: seq<Round>, n: nat, s: State)
    requires Valid(program, n) && Init(n, s)
    ensures Inv(program, n, s)
  {
  }

  /** Adding one member to a subset: the count reaches the whole exactly when the set does. */
  lemma {:induction false} AddMember(part: set<nat>, whole: set<nat>, c: nat)
    requires part <= whole && c in whole && c !in part
    ensures |part + {c}| == |part| + 1 <= |whole|
    ensures |part + {c}| == |whole| <==> part + {c} == whole
  {
    var rest := whole - (part + {c});
    assert whole == part + {c} + rest;
    assert |whole| == |part + {c}| + |rest|;
  }

  lemma {:induction false} FewerUnlessAll(part: set<nat>, whole: set<nat>)
    requires part <= whole
    ensures |part| <= |whole| && (|part| == |whole| <==> part == whole)
  {
    assert whole == part + (whole - part);
    assert |whole| == |part| + |whole - part|;
  }

  /** What the START write leaves: its cores still to acknowledge, and both counters empty. */
  predicate JustStarted(program: seq<Round>, s: State, t: State) {
    && t.host == Spin && t.round == s.round < |program| && t.events == s.events && |t.cores| == |s.cores|
    && var mask := program[s.round].cores;
    && t.regs == s.regs.(start := mask, acks := 0, dones := 0)
    && t.history == s.history.(count := s.history.count + 1, selected := mask, acked := {}, finished := {})
    && forall c :: 0 <= c < |s.cores| ==> t.cores[c] == if c in mask then s.cores[c].(pending := true) else s.cores[c]
  }

  lemma {:induction false} StartWrite(program: seq<Round>, s: State)
    requires HostCan(program, s) && s.host == Start
    requires program[s.round].cores != {} && s.regs.quorum > 0
    ensures JustStarted(program, s, HostStep(program, s))
  {
  }

  lemma {:induction false} StartedCores(program: seq<Round>, s: State, t: State)
    requires s.history.count == s.round < |program| && CoresOk(program, s) && JustStarted(program, s, t)
    requires s.history.finished == s.history.selected
    ensures CoresOk(program, t)
  {
    forall c | 0 <= c < |t.cores| ensures CoreOk(program, t.history, t.cores[c], c) {
      assert CoreOk(program, s.history, s.cores[c], c);
    }
  }

  lemma {:induction false} StartedInv(program: seq<Round>, n: nat, s: State, t: State)
    requires Inv(program, n, s) && s.host == Start && JustStarted(program, s, t) && ValidRound(program[s.round], n)
    ensures Inv(program, n, t)
  {
    StartedCores(program, s, t);
    FewerUnlessAll({}, program[s.round].cores);
  }

  /** Writing START hands the selected cores their interrupt and empties both counters. */
  lemma {:induction false} DispatchKeepsInv(program: seq<Round>, n: nat, s: State)
    requires Valid(program, n) && Inv(program, n, s) && HostCan(program, s) && s.host == Start
    ensures Inv(program, n, HostStep(program, s))
  {
    assert ValidRound(program[s.round], n);
    FewerUnlessAll({}, program[s.round].cores);
    StartWrite(program, s);
    StartedInv(program, n, s, HostStep(program, s));
  }

  lemma {:induction false} SameCores(program: seq<Round>, s: State, t: State)
    requires s.history.count <= |program| && CoresOk(program, s)
    requires t.cores == s.cores && t.history == s.history
    ensures CoresOk(program, t)
  {
  }

  /** The steps up to the START write. */
  lemma {:induction false} EarlyHostOk(program: seq<Round>, n: nat, s: State)
    requires Valid(program, n) && HostOk(program, s) && HostCan(program, s) && Before(s.host) && s.host != Start
    requires RegsOk(program, n, s.regs, s.history)
    ensures var t := HostStep(program, s);
            && HostOk(program, t) && RegsOk(program, n, t.regs, t.history)
            && t.cores == s.cores && t.history == s.history
  {
    assert s.host == SetQuorum ==> ValidRound(program[s.round], n);
  }

  /** The steps after it. */
  lemma {:induction false} LateHostOk(program: seq<Round>, n: nat, s: State)
    requires HostOk(program, s) && HostCan(program, s) && !Before(s.host) && RegsOk(program, n, s.regs, s.history)
    ensures var t := HostStep(program, s);
            HostOk(program, t) && t.regs == s.regs && t.cores == s.cores && t.history == s.history
  {
  }

  lemma {:induction false} HostKeepsInv(program: seq<Round>, n: nat, s: State)
    requires Valid(program, n) && Inv(program, n, s) && HostCan(program, s)
    ensures Inv(program, n, HostStep(program, s))
  {
    if s.host == Start {
      DispatchKeepsInv(program, n, s);
    } else {
      if Before(s.host) {
        EarlyHostOk(program, n, s);
      } else {
        LateHostOk(program, n, s);
      }
      SameCores(program, s, HostStep(program, s));
    }
  }

  /** Only core `c` has changed, and what has happened on it. */
  lemma {:induction false} OneCore(program: seq<Round>, s: State, t: State, c: nat, core: Core)
    requires s.history.count <= |program| && CoresOk(program, s)
    requires c < |s.cores| && t.cores == s.cores[c := core]
    requires t.history == s.history.(acked := t.history.acked, finished := t.history.finished, fired := t.history.fired)
    requires t.history.acked == s.history.acked || t.history.acked == s.history.acked + {c}
    requires t.history.finished == s.history.finished || t.history.finished == s.history.finished + {c}
    requires CoreOk(program, t.history, core, c)
    ensures CoresOk(program, t)
  {
    forall d | 0 <= d < |t.cores| && d != c ensures CoreOk(program, t.history, t.cores[d], d) {
      assert t.cores[d] == s.cores[d];
      assert CoreOk(program, s.history, s.cores[d], d);
    }
  }

  lemma {:induction false} QuietCoreOk(program: seq<Round>, s: State, c: nat)
    requires CoreCan(s, c) && s.history.count <= |program| && CoreOk(program, s.history, s.cores[c], c)
    requires s.cores[c].phase != HasTask && s.cores[c].phase != Returned
    requires c in s.history.selected ==> s.history.count > 0 && c in program[s.history.count - 1].cores
    requires c in s.history.selected && c !in s.history.acked ==>
      s.regs.data == ArgAfter(program, s.history.count) && s.regs.func == program[s.history.count - 1].func
    ensures CoreOk(program, s.history, CoreStep(s, c).cores[c], c)
  {
  }

  /** The steps of a handler that write no register. */
  lemma {:induction false} QuietCoreKeepsInv(program: seq<Round>, n: nat, s: State, c: nat)
    requires Valid(program, n) && Inv(program, n, s) && CoreCan(s, c)
    requires s.cores[c].phase != HasTask && s.cores[c].phase != Returned
    ensures Inv(program, n, CoreStep(s, c))
  {
    var t := CoreStep(s, c);
    assert CoreOk(program, s.history, s.cores[c], c);
    QuietCoreOk(program, s, c);
    assert t == s.(cores := s.cores[c := t.cores[c]]);
    OneCore(program, s, t, c, t.cores[c]);
    SameHost(program, s, t);
  }

  lemma {:induction false} SameHost(program: seq<Round>, s: State, t: State)
    requires HostOk(program, s) && t == s.(cores := t.cores)
    ensures HostOk(program, t)
  {
  }

  lemma {:induction false} AckIs(s: State, c: nat, w: (Regs, bool))
    requires CoreCan(s, c) && s.cores[c].phase == HasTask && w == WriteStart(s.regs, {}) && !w.1
    ensures CoreStep(s, c) == s.(regs := w.0, cores := s.cores[c := s.cores[c].(phase := Running)],
                                 history := s.history.(acked := s.history.acked + {c}))
  {
  }

  /** An acknowledgement changes the START register and its counter only. */
  lemma {:induction false} AckWrite(program: seq<Round>, n: nat, regs: Regs, h: History, c: nat)
    requires RegsOk(program, n, regs, h) && c in h.selected && c !in h.acked
    ensures var w := WriteStart(regs, {});
            && !w.1 && w.0 == regs.(acks := w.0.acks, start := w.0.start)
            && RegsOk(program, n, w.0, h.(acked := h.acked + {c}))
  {
    AddMember(h.acked, h.selected, c);
    FewerUnlessAll(h.finished, h.selected);
  }

  lemma {:induction false} AckOk(program: seq<Round>, h: History, core: Core, c: nat)
    requires h.count <= |program| && CoreOk(program, h, core, c) && core.phase == HasTask
    ensures c in h.selected && c !in h.acked && c !in h.finished
    ensures CoreOk(program, h.(acked := h.acked + {c}), core.(phase := Running), c)
  {
  }

  lemma {:induction false} AckParts(program: seq<Round>, n: nat, s: State, t: State, c: nat, core: Core)
    requires Inv(program, n, s) && c < n && c in s.history.selected && c !in s.history.acked
    requires t == s.(regs := t.regs, cores := s.cores[c := core], history := s.history.(acked := s.history.acked + {c}))
    requires RegsOk(program, n, t.regs, t.history) && CoreOk(program, t.history, core, c)
    requires t.regs == s.regs.(acks := t.regs.acks, start := t.regs.start)
    ensures Inv(program, n, t)
  {
    OneCore(program, s, t, c, core);
  }

  lemma {:induction false} AckKeepsInv(program: seq<Round>, n: nat, s: State, c: nat)
    requires Valid(program, n) && Inv(program, n, s) && CoreCan(s, c) && s.cores[c].phase == HasTask
    ensures Inv(program, n, CoreStep(s, c))
  {
    assert CoreOk(program, s.history, s.cores[c], c);
    AckOk(program, s.history, s.cores[c], c);
    AckWrite(program, n, s.regs, s.history, c);
    AckIs(s, c, WriteStart(s.regs, {}));
    AckParts(program, n, s, CoreStep(s, c), c, s.cores[c].(phase := Running));
  }

  lemma {:induction false} DoneIs(s: State, c: nat)
    requires CoreCan(s, c) && s.cores[c].phase == Returned
    ensures var t, w := CoreStep(s, c), WriteDone(s.regs);
            t == s.(regs := w.0, cores := s.cores[c := s.cores[c].(phase := Leaving)],
                    events := s.events.(pulse := s.events.pulse || w.1),
                    history := s.history.(finished := s.history.finished + {c},
                                          fired := s.history.fired + if w.1 then 1 else 0))
  {
  }

  /** A completion changes its own counter only, and fires with the last one. */
  lemma {:induction false} DoneWrite(program: seq<Round>, n: nat, regs: Regs, h: History, c: nat)
    requires RegsOk(program, n, regs, h) && c in h.acked && c !in h.finished
    ensures var w := WriteDone(regs);
            && (w.1 <==> h.finished + {c} == h.selected) && w.0 == regs.(dones := w.0.dones)
            && RegsOk(program, n, w.0, h.(finished := h.finished + {c}, fired := h.fired + if w.1 then 1 else 0))
  {
    AddMember(h.finished, h.selected, c);
    FewerUnlessAll(h.acked, h.selected);
  }

  lemma {:induction false} DoneOk(program: seq<Round>, h: History, core: Core, c: nat)
    requires h.count <= |program| && CoreOk(program, h, core, c) && core.phase == Returned
    ensures c in h.selected && c in h.acked && c !in h.finished
    ensures CoreOk(program, h.(finished := h.finished + {c}), core.(phase := Leaving), c)
  {
  }

  lemma {:induction false} DoneParts(program: seq<Round>, n: nat, s: State, t: State, c: nat, core: Core, fires: bool)
    requires Inv(program, n, s) && c < n && c in s.history.selected && c !in s.history.finished
    requires t == s.(regs := t.regs, cores := s.cores[c := core], history := t.history,
                     events := s.events.(pulse := s.events.pulse || fires))
    requires t.history == s.history.(finished := s.history.finished + {c}, fired := t.history.fired)
    requires fires <==> t.history.finished == t.history.selected
    requires RegsOk(program, n, t.regs, t.history) && CoreOk(program, t.history, core, c)
    requires t.regs == s.regs.(dones := t.regs.dones)
    ensures Inv(program, n, t)
  {
    OneCore(program, s, t, c, core);
  }

  lemma {:induction false} DoneKeepsInv(program: seq<Round>, n: nat, s: State, c: nat)
    requires Valid(program, n) && Inv(program, n, s) && CoreCan(s, c) && s.cores[c].phase == Returned
    ensures Inv(program, n, CoreStep(s, c))
  {
    assert CoreOk(program, s.history, s.cores[c], c);
    DoneOk(program, s.history, s.cores[c], c);
    DoneWrite(program, n, s.regs, s.history, c);
    DoneIs(s, c);
    DoneParts(program, n, s, CoreStep(s, c), c, s.cores[c].(phase := Leaving), WriteDone(s.regs).1);
  }

  lemma {:induction false} StepKeepsInv(program: seq<Round>, n: nat, s: State, l: Label)
    requires Valid(program, n) && Inv(program, n, s) && Can(program, s, l)
    ensures Inv(program, n, Next(program, s, l))
  {
    match l
    case HostMoves => HostKeepsInv(program, n, s);
    case CoreMoves(c) =>
      if s.cores[c].phase == HasTask {
        AckKeepsInv(program, n, s, c);
      } else if s.cores[c].phase == Returned {
        DoneKeepsInv(program, n, s, c);
      } else {
        QuietCoreKeepsInv(program, n, s, c);
      }
    case PulseArrives =>
    case OtherEvent =>
  }

  // ---------------------------------------------------------------- runs

  /** A run: each label moves one state to the next. */
  predicate Run(program: seq<Round>, n: nat, states: seq<State>, labels: seq<Label>) {
    && |states| == |labels| + 1
    && Init(n, states[0])
    && forall i :: 0 <= i < |labels| ==> Moves(program, states[i], labels[i], states[i + 1])
  }

  predicate Moves(program: seq<Round>, s: State, l: Label, t: State) {
    Can(program, s, l) && t == Next(program, s, l)
  }

  function Last(states: seq<State>): State
    requires states != []
  {
    states[|states| - 1]
  }

  lemma {:induction false} RunKeepsInv(program: seq<Round>, n: nat, states: seq<State>, labels: seq<Label>)
    requires Valid(program, n) && Run(program, n, states, labels)
    ensures Inv(program, n, Last(states))
    decreases |labels|
  {
    if labels == [] {
      InitInv(program, n, states[0]);
    } else {
      var k := |labels| - 1;
      var before := states[..k + 1];
      assert Last(before) == states[k];
      RunKeepsInv(program, n, before, labels[..k]);
      assert Moves(program, states[k], labels[k], states[k + 1]);
      StepKeepsInv(program, n, states[k], labels[k]);
    }
  }

  /** In every run, when the host leaves its spin on START, every selected core has
      acknowledged with this round's task and argument in its registers, and still holds
      them unless it has already run them. */
  lemma {:induction false} SpinEndsAfterEveryAck(program: seq<Round>, n: nat, states: seq<State>, labels: seq<Label>, c: nat)
    requires Valid(program, n) && Run(program, n, states, labels)
    requires Last(states).host == Spin && HostCan(program, Last(states))
    requires c in program[Last(states).round].cores
    ensures var s := Last(states);
            && c < |s.cores| && c in s.history.acked
            && (c in s.history.finished ==> s.cores[c].log == Asked(program, s.round + 1, c))
            && (c !in s.history.finished ==>
                  s.cores[c].func == program[s.round].func && s.cores[c].arg == ArgAfter(program, s.round + 1))
  {
    RunKeepsInv(program, n, states, labels);
    var s := Last(states);
    assert ValidRound(program[s.round], n);
    assert CoreOk(program, s.history, s.cores[c], c);
  }

  lemma {:induction false} WaitIsSound(program: seq<Round>, n: nat, s: State)
    requires Inv(program, n, s) && s.host == Wait && HostCan(program, s)
    ensures s.events.done && !(s.events.other && s.events.otherOn)
    ensures s.history.finished == program[s.round].cores && s.history.fired == s.round + 1
    ensures forall c :: 0 <= c < n ==> s.cores[c].log == Asked(program, s.round + 1, c)
  {
    forall c | 0 <= c < n ensures s.cores[c].log == Asked(program, s.round + 1, c) {
      assert CoreOk(program, s.history, s.cores[c], c);
    }
  }

  /** In every run, the host's wait ends only on the done event of its own round: every
      selected core has finished, the quorum has fired once per round so far, and every
      core has made exactly the calls asked of it. */
  lemma {:induction false} WaitEndsAfterEveryDone(program: seq<Round>, n: nat, states: seq<State>, labels: seq<Label>)
    requires Valid(program, n) && Run(program, n, states, labels)
    requires Last(states).host == Wait && HostCan(program, Last(states))
    ensures var s := Last(states);
            && s.events.done && !(s.events.other && s.events.otherOn)
            && s.history.finished == program[s.round].cores
            && s.history.fired == s.round + 1
            && |s.cores| == n
            && forall c :: 0 <= c < n ==> s.cores[c].log == Asked(program, s.round + 1, c)
  {
    RunKeepsInv(program, n, states, labels);
    WaitIsSound(program, n, Last(states));
  }

  // ---------------------------------------------------------------- the calls, written out

  /** The rounds before `k` that select core `c`. */
  function Selecting(program: seq<Round>, k: nat, c: nat): set<nat> {
    set r: nat | r < k && r < |program| && c in program[r].cores
  }

  /** `q` is the argument of round `r`: round `p` passed it and none has passed one since, or, for
      p > r, none has passed one at all and it is the reset value. */
  predicate Argument(program: seq<Round>, r: nat, p: nat, q: nat)
    requires r < |program|
  {
    && (if p <= r then program[p].params == Pass(q) else q == 0)
    && forall i :: 0 <= i <= r && (p > r || i > p) ==> program[i].params == Keep
  }

  lemma {:induction false} ArgumentIs(program: seq<Round>, r: nat, p: nat, q: nat)
    requires r < |program| && Argument(program, r, p, q)
    ensures ArgAfter(program, r + 1) == q
  {
    if p != r {
      assert program[r].params == Keep;
      if r > 0 {
        ArgumentIs(program, r - 1, if p > r then r else p, q);
      }
    }
  }

  /** Every round has an argument. */
  lemma {:induction false} HasArgument(program: seq<Round>, r: nat) returns (p: nat, q: nat)
    requires r < |program|
    ensures Argument(program, r, p, q)
  {
    match program[r].params
    case Pass(pointer) => p, q := r, pointer;
    case Keep =>
      if r == 0 {
        p, q := 1, 0;
      } else {
        p, q := HasArgument(program, r - 1);
        p := if p >= r then r + 1 else p;
      }
  }

  lemma {:induction false} SelectingNext(program: seq<Round>, k: nat, c: nat)
    requires k < |program|
    ensures |Selecting(program, k + 1, c)| == |Selecting(program, k, c)| + if c in program[k].cores then 1 else 0
  {
    var before := Selecting(program, k, c);
    assert Selecting(program, k + 1, c) == if c in program[k].cores then before + {k} else before;
  }

  /** The calls asked of a core, one for each round that selects it. */
  lemma {:induction false} AskedCount(program: seq<Round>, k: nat, c: nat)
    requires k <= |program|
    ensures |Asked(program, k, c)| == |Selecting(program, k, c)|
  {
    if k == 0 {
      assert Selecting(program, 0, c) == {};
    } else {
      AskedCount(program, k - 1, c);
      SelectingNext(program, k - 1, c);
    }
  }

  /** The call of a round stands after those of the earlier rounds. */
  lemma {:induction false} AskedCall(program: seq<Round>, k: nat, c: nat, r: nat)
    requires r < k <= |program| && c in program[r].cores
    ensures var i := |Selecting(program, r, c)|;
            i < |Asked(program, k, c)| && Asked(program, k, c)[i] == Call(program[r].func, ArgAfter(program, r + 1))
  {
    if r < k - 1 {
      AskedCall(program, k - 1, c, r);
    } else {
      AskedCount(program, r, c);
    }
  }

  /** In every run, when the host leaves the wait of its round, every core has made one call for
      each round so far that selects it, in order, and the call of round `r` is its task with the
      argument last passed. */
  lemma {:induction false} CallsWithLastArgument(program: seq<Round>, n: nat, states: seq<State>, labels: seq<Label>,
                                                 c: nat, r: nat, p: nat, q: nat)
    requires Valid(program, n) && Run(program, n, states, labels)
    requires Last(states).host == Wait && HostCan(program, Last(states))
    requires r <= Last(states).round && c in program[r].cores && Argument(program, r, p, q)
    ensures var s := Last(states);
            && c < |s.cores| && |s.cores[c].log| == |Selecting(program, s.round + 1, c)|
            && |Selecting(program, r, c)| < |s.cores[c].log|
            && s.cores[c].log[|Selecting(program, r, c)|] == Call(program[r].func, q)
  {
    WaitEndsAfterEveryDone(program, n, states, labels);
    var k := Last(states).round + 1;
    assert ValidRound(program[r], n);
    AskedCount(program, k, c);
    AskedCall(program, k, c, r);
    ArgumentIs(program, r, p, q);
  }

  /** In every run, when the host leaves its spin on START, a selected core that has not finished
      holds the task of the round and the argument last passed. */
  lemma {:induction false} CoreHoldsLastArgument(program: seq<Round>, n: nat, states: seq<State>, labels: seq<Label>,
                                                 c: nat, p: nat, q: nat)
    requires Valid(program, n) && Run(program, n, states, labels)
    requires Last(states).host == Spin && HostCan(program, Last(states))
    requires c in program[Last(states).round].cores && Argument(program, Last(states).round, p, q)
    ensures var s := Last(states);
            && c < |s.cores|
            && (c !in s.history.finished ==> s.cores[c].func == program[s.round].func && s.cores[c].arg == q)
  {
    SpinEndsAfterEveryAck(program, n, states, labels, c);
    ArgumentIs(program, Last(states).round, p, q);
  }

  /** At any moment of any run the quorum has fired once for every dispatch whose cores
      have all finished, and not for the one still under way. */
  lemma {:induction false} FiresOncePerRound(program: seq<Round>, n: nat, states: seq<State>, labels: seq<Label>)
    requires Valid(program, n) && Run(program, n, states, labels)
    ensures var h := Last(states).history;
            h.fired == h.count - (if h.finished == h.selected then 0 else 1)
  {
    RunKeepsInv(program, n, states, labels);
  }

  // ---------------------------------------------------------------- progress

  predicate Stuck(program: seq<Round>, s: State) {
    && !HostCan(program, s)
    && (forall c :: 0 <= c < |s.cores| ==> !CoreCan(s, c))
    && !s.events.pulse
  }

  /** No event is missed: a run can stop only when the host has finished every round, and
      then every core is asleep having made exactly the calls asked of it. */
  lemma {:induction false} StopsOnlyWhenFinished(program: seq<Round>, n: nat, states: seq<State>, labels: seq<Label>)
    requires Valid(program, n) && Run(program, n, states, labels) && Stuck(program, Last(states))
    ensures var s := Last(states);
            && s.round == |program| && s.history.fired == |program| && |s.cores| == n
            && forall c :: 0 <= c < n ==> s.cores[c].phase == Idle && s.cores[c].log == Asked(program, |program|, c)
  {
    RunKeepsInv(program, n, states, labels);
    var s := Last(states);
    forall c | 0 <= c < n ensures s.cores[c].phase == Idle && s.cores[c].log == Asked(program, s.history.count, c)
                                  && (c in s.history.selected ==> c in s.history.finished) {
      assert CoreOk(program, s.history, s.cores[c], c);
      assert !CoreCan(s, c);
    }
    assert s.history.finished == s.history.selected;
  }

  /** Steps a core has left in its handler; a step that may raise the pulse counts twice. */
  function CoreWork(core: Core): nat {
    (match core.phase
     case Idle => 0
     case Leaving => 1
     case Returned => 3
     case Running => 4
     case HasTask => 6
     case HasData => 7
     case Entry => 8)
    + if core.pending then 9 else 0
  }

  function CoresWork(cores: seq<Core>): nat {
    if cores == [] then 0 else CoreWork(cores[0]) + CoresWork(cores[1..])
  }

  function Place(host: Host): nat {
    match host
    case ArmMask => 0
    case ArmClear => 1
    case ArmEnable => 2
    case PassParams => 3
    case SetQuorum => 4
    case SetTask => 5
    case Start => 6
    case Spin => 7
    case Enable => 8
    case Wait => 9
  }

  function HostWork(program: seq<Round>, s: State): int {
    (|program| - s.round) * 10 - Place(s.host)
  }

  function Work(program: seq<Round>, s: State): int {
    HostWork(program, s) * (9 * |s.cores| + 2) + CoresWork(s.cores) + if s.events.pulse then 1 else 0
  }

  lemma {:induction false} CoreStepWork(cores: seq<Core>, c: nat, core: Core)
    requires c < |cores|
    ensures CoresWork(cores[c := core]) + CoreWork(cores[c]) == CoresWork(cores) + CoreWork(core)
  {
    if c == 0 {
      assert cores[c := core][1..] == cores[1..];
    } else {
      assert cores[c := core][1..] == cores[1..][c - 1 := core];
      CoreStepWork(cores[1..], c - 1, core);
    }
  }

  lemma {:induction false} DispatchWork(cores: seq<Core>, woken: seq<Core>)
    requires |woken| == |cores|
    requires forall c :: 0 <= c < |cores| ==> woken[c] == cores[c] || woken[c] == cores[c].(pending := true)
    ensures CoresWork(woken) <= CoresWork(cores) + 9 * |cores|
  {
    if cores != [] {
      forall c | 0 <= c < |cores| - 1
        ensures woken[1..][c] == cores[1..][c] || woken[1..][c] == cores[1..][c].(pending := true) {
        assert woken[c + 1] == cores[c + 1] || woken[c + 1] == cores[c + 1].(pending := true);
      }
      DispatchWork(cores[1..], woken[1..]);
    }
  }

  lemma {:induction false} OneStepLess(a: int, b: int, w: int)
    requires a == b - 1
    ensures a * w == b * w - w
  {
  }

  lemma {:induction false} HostStepWork(program: seq<Round>, s: State)
    requires HostCan(program, s)
    ensures var t := HostStep(program, s);
            |t.cores| == |s.cores| && Work(program, t) < Work(program, s)
  {
    var t := HostStep(program, s);
    assert HostWork(program, t) == HostWork(program, s) - 1;
    OneStepLess(HostWork(program, t), HostWork(program, s), 9 * |s.cores| + 2);
    if s.host == Start {
      DispatchWork(s.cores, t.cores);
    } else {
      assert t.cores == s.cores;
    }
  }

  lemma {:induction false} CoreMoveWork(program: seq<Round>, s: State, c: nat)
    requires CoreCan(s, c)
    ensures var t := CoreStep(s, c);
            |t.cores| == |s.cores| && Work(program, t) < Work(program, s)
  {
    var t := CoreStep(s, c);
    assert t.cores == s.cores[c := t.cores[c]];
    assert HostWork(program, t) == HostWork(program, s);
    CoreStepWork(s.cores, c, t.cores[c]);
  }

  /** Every move of the host, of a core or of the pulse uses up some of the work left. */
  lemma {:induction false} EveryMoveWorks(program: seq<Round>, s: State, l: Label)
    requires Can(program, s, l)
    ensures |Next(program, s, l).cores| == |s.cores|
    ensures Work(program, Next(program, s, l)) <= Work(program, s) - if l.OtherEvent? then 0 else 1
  {
    match l
    case HostMoves => HostStepWork(program, s);
    case CoreMoves(c) => CoreMoveWork(program, s, c);
    case PulseArrives =>
    case OtherEvent =>
  }

  /** The moves of a run, leaving out the other event sources. */
  function Own(labels: seq<Label>): nat {
    if labels == [] then 0 else Own(labels[..|labels| - 1]) + if labels[|labels| - 1].OtherEvent? then 0 else 1
  }

  lemma {:induction false} RunUsesWork(program: seq<Round>, n: nat, states: seq<State>, labels: seq<Label>)
    requires Run(program, n, states, labels)
    ensures |Last(states).cores| == n
    ensures Own(labels) + Work(program, Last(states)) <= Work(program, states[0])
    decreases |labels|
  {
    if labels != [] {
      var k := |labels| - 1;
      var before := states[..k + 1];
      assert Last(before) == states[k];
      RunUsesWork(program, n, before, labels[..k]);
      assert Moves(program, states[k], labels[k], states[k + 1]);
      EveryMoveWorks(program, states[k], labels[k]);
    }
  }

  lemma {:induction false} IdleWork(cores: seq<Core>)
    requires forall c :: 0 <= c < |cores| ==> cores[c].phase == Idle && !cores[c].pending
    ensures CoresWork(cores) == 0
  {
    if cores != [] {
      IdleWork(cores[1..]);
    }
  }

  lemma {:induction false} NonNegative(a: int, b: int)
    requires a >= 0 && b >= 0
    ensures a * b >= 0
  {
  }

  lemma {:induction false} FirstWork(program: seq<Round>, n: nat, s: State)
    requires Init(n, s)
    ensures Work(program, s) == 10 * |program| * (9 * n + 2)
  {
    IdleWork(s.cores);
    assert HostWork(program, s) == 10 * |program|;
  }

  lemma {:induction false} WorkLeft(program: seq<Round>, n: nat, s: State)
    requires HostOk(program, s)
    ensures Work(program, s) >= 0
  {
    NonNegative(HostWork(program, s), 9 * |s.cores| + 2);
  }

  /** However the steps interleave, a run of |program| rounds makes no more than this many
      moves; with StopsOnlyWhenFinished, every run that is not cut short completes every
      round. */
  lemma {:induction false} RunsAreFinite(program: seq<Round>, n: nat, states: seq<State>, labels: seq<Label>)
    requires Valid(program, n) && Run(program, n, states, labels)
    ensures Own(labels) <= 10 * |program| * (9 * n + 2)
  {
    RunKeepsInv(program, n, states, labels);
    RunUsesWork(program, n, states, labels);
    FirstWork(program, n, states[0]);
    WorkLeft(program, n, Last(states));
  }

  // ---------------------------------------------------------------- the quorum of a mask

  /** What a dispatch writes for a core mask: the quorum is the bit-parallel count. */
  function RoundFor(func: nat, params: Params, mask: bv32, quorum: bv32): Round {
    Round(func, params, PulpPopcount.Selected(mask, 32), quorum as nat)
  }

  /** The quorum the dispatch writes makes every non-empty mask of existing cores valid. */
  lemma {:induction false} MaskMakesRound(func: nat, params: Params, mask: bv32, quorum: bv32, n: nat)
    requires quorum == PulpPopcount.Popcount(mask)
    requires PulpPopcount.Selected(mask, 32) != {}
    requires forall c :: c in PulpPopcount.Selected(mask, 32) ==> c < n
    ensures var round := RoundFor(func, params, mask, quorum);
            && ValidRound(round, n) && round.func == func && round.params == params
            && (forall c :: c in round.cores ==> c < 32)
            && forall k: bv32 :: k < 32 ==> (k as nat in round.cores <==> PulpPopcount.BitSet(mask, k))
  {
    PulpPopcount.PopcountSelects(mask, quorum);
    forall k: bv32 | k < 32 ensures k as nat in PulpPopcount.Selected(mask, 32) <==> PulpPopcount.BitSet(mask, k) {
      PulpPopcount.HasIsBit(mask, k, k as nat);
    }
  }
}
