/** Dispatching tasks to the Spatz core: the host's calls, the control registers, the
    worker's interrupt handler and the done event, interleaved step by step. */
module SpatzHandshake {

  /** The argument register is written only by the form of call that passes one. */
  datatype Params = Keep | Pass(pointer: nat)

  /** A call, and whether the host waits for the done event after it. */
  datatype Call = Call(func: nat, params: Params, waits: bool)

  /** A task as the worker ran it, with the argument it read. */
  datatype Ran = Ran(func: nat, arg: nat)

  datatype Host = PassParams | SetFunc | Start | Spin | WaitDone | ClearDone

  datatype Phase = Idle | Entry | HasTask | Running | Working | Returned | Leaving

  /** The host and the call it is making, the registers, the done pulse and the latched
      done event, the worker with the task it loaded, and every task run so far. */
  datatype State = State(host: Host, round: nat, start: bool, taskbin: nat, data: nat, pulse: bool, done: bool,
                         phase: Phase, held: nat, log: seq<Ran>)

  datatype Label = HostMoves | WorkerMoves | PulseArrives

  /** The worker armed, the done event enabled and clear; TASKBIN still holds the address
      the worker was booted with. */
  function Booted(boot: nat): State {
    State(PassParams, 0, false, boot, 0, false, false, Idle, 0, [])
  }

  // ---------------------------------------------------------------- the steps

  predicate HostCan(calls: seq<Call>, s: State) {
    && s.round < |calls|
    && (s.host == Spin ==> !s.start)
    && (s.host == WaitDone ==> s.done)
  }

  /** One access of the host. */
  function HostStep(calls: seq<Call>, s: State): State
    requires HostCan(calls, s)
  {
    var call := calls[s.round];
    match s.host
    case PassParams => s.(host := SetFunc, data := if call.params.Pass? then call.params.pointer else s.data)
    case SetFunc => s.(host := Start, taskbin := call.func)
    case Start => s.(host := Spin, start := true)
    case Spin => if call.waits then s.(host := WaitDone) else s.(host := PassParams, round := s.round + 1)
    case WaitDone => s.(host := ClearDone)
    case ClearDone => s.(host := PassParams, round := s.round + 1, done := false)
  }

  /** The interrupt is the level of START: a worker that is not in its handler takes it. */
  predicate WorkerCan(s: State) {
    s.phase == Idle ==> s.start
  }

  /** One step of the handler: enter, load the task and return if there is none, clear
      START, read the argument, return from the task, report completion, return. */
  function WorkerStep(s: State): State
    requires WorkerCan(s)
  {
    match s.phase
    case Idle => s.(phase := Entry)
    case Entry => if s.taskbin == 0 then s.(phase := Leaving) else s.(phase := HasTask, held := s.taskbin)
    case HasTask => s.(phase := Running, start := false)
    case Running => s.(phase := Working, log := s.log + [Ran(s.held, s.data)])
    case Working => s.(phase := Returned)
    case Returned => s.(phase := Leaving, pulse := true)
    case Leaving => s.(phase := Idle)
  }

  predicate Can(calls: seq<Call>, s: State, l: Label) {
    match l
    case HostMoves => HostCan(calls, s)
    case WorkerMoves => WorkerCan(s)
    case PulseArrives => s.pulse
  }

  function Next(calls: seq<Call>, s: State, l: Label): State
    requires Can(calls, s, l)
  {
    match l
    case HostMoves => HostStep(calls, s)
    case WorkerMoves => WorkerStep(s)
    case PulseArrives => s.(pulse := false, done := true)
  }

  /** Whether the labels can be taken one after another from a state, and where they lead. */
  predicate Possible(calls: seq<Call>, s: State, labels: seq<Label>)
    decreases |labels|
  {
    labels != [] ==> Can(calls, s, labels[0]) && Possible(calls, Next(calls, s, labels[0]), labels[1..])
  }

  function After(calls: seq<Call>, s: State, labels: seq<Label>): State
    requires Possible(calls, s, labels)
    decreases |labels|
  {
    if labels == [] then s else After(calls, Next(calls, s, labels[0]), labels[1..])
  }

  // ---------------------------------------------------------------- what should happen

  /** The argument register after `k` calls. */
  function ArgAfter(calls: seq<Call>, k: nat): nat
    requires k <= |calls|
  {
    if k == 0 then 0
    else match calls[k - 1].params
      case Pass(pointer) => pointer
      case Keep => ArgAfter(calls, k - 1)
  }

  /** Every task run so far read the argument meant for it. */
  predicate OwnArgs(calls: seq<Call>, log: seq<Ran>) {
    |log| <= |calls| && forall i :: 0 <= i < |log| ==> log[i].arg == ArgAfter(calls, i + 1)
  }

  /** The tasks run so far are the first ones asked for, in order. */
  predicate InOrder(calls: seq<Call>, log: seq<Ran>) {
    |log| <= |calls| && forall i :: 0 <= i < |log| ==> log[i].func == calls[i].func
  }

  /** The host waits after every one of the first `k` calls. */
  predicate WaitsFor(calls: seq<Call>, k: nat) {
    forall i :: 0 <= i < k && i < |calls| ==> calls[i].waits
  }

  /** Call `i` changes the argument the call before it left. */
  predicate Changes(calls: seq<Call>, i: nat)
    requires i < |calls|
  {
    ArgAfter(calls, i + 1) != ArgAfter(calls, i)
  }

  /** Before each change of the argument the host has waited after every call so far. */
  predicate WaitsEnough(calls: seq<Call>) {
    forall i :: 1 <= i < |calls| && Changes(calls, i) ==> WaitsFor(calls, i)
  }

  predicate Named(calls: seq<Call>) {
    forall i :: 0 <= i < |calls| ==> calls[i].func != 0
  }

  // ---------------------------------------------------------------- the invariant

  /** Calls whose START the worker has cleared. */
  function Taken(s: State): nat {
    s.round + if (s.host == Spin && !s.start) || s.host == WaitDone || s.host == ClearDone then 1 else 0
  }

  function Passed(s: State): nat {
    s.round + if s.host == PassParams then 0 else 1
  }

  /** The argument task `i` has read is its own or, when the host has not waited after
      every call so far, perhaps that of the next call. */
  predicate ReadOk(calls: seq<Call>, log: seq<Ran>, i: nat)
    requires i < |log| <= |calls|
  {
    log[i].arg == ArgAfter(calls, i + 1)
    || (!WaitsFor(calls, i + 1) && i + 2 <= |calls| && log[i].arg == ArgAfter(calls, i + 2))
  }

  predicate Inv(calls: seq<Call>, s: State) {
    && s.round <= |calls| && (s.round == |calls| ==> s.host == PassParams)
    && Taken(s) <= |calls| && s.data == ArgAfter(calls, Passed(s))
    && (s.start ==> s.host == Spin)
    && (s.host == Start || s.start ==> s.taskbin == calls[s.round].func)
    && (s.host == WaitDone || s.host == ClearDone ==> calls[s.round].waits)
    && (s.host == ClearDone ==> s.done)
    && (s.phase == Entry || s.phase == HasTask ==> s.start)
    && (s.phase == HasTask ==> s.held == calls[s.round].func != 0)
    && (forall i :: 0 <= i < Taken(s) ==> calls[i].func != 0)
    && InOrder(calls, s.log)
    && (forall i :: 0 <= i < |s.log| ==> ReadOk(calls, s.log, i))
    && (s.phase == Running ==> |s.log| + 1 == Taken(s) && s.held == calls[|s.log|].func)
    && (s.phase != Running ==> |s.log| == Taken(s))
    && (Awaited(s) ==> Busy(s.phase) || s.pulse || s.done)
    && (WaitsFor(calls, s.round) ==> InStep(s))
  }

  predicate Busy(phase: Phase) {
    phase == Running || phase == Working || phase == Returned
  }

  predicate Awaited(s: State) {
    (s.host == Spin && !s.start) || s.host == WaitDone || s.host == ClearDone
  }

  /** What holds besides while the host has waited after every call so far: the done event
      is that of the call it is making. */
  predicate InStep(s: State) {
    && (Busy(s.phase) ==> Awaited(s))
    && (Awaited(s) ==> (s.pulse || s.done <==> !Busy(s.phase)))
    && (!Awaited(s) ==> !s.pulse && !s.done)
    && !(s.pulse && s.done)
  }

  lemma {:induction false} WaitsForOneMore(calls: seq<Call>, k: nat)
    requires k < |calls|
    ensures WaitsFor(calls, k + 1) <==> WaitsFor(calls, k) && calls[k].waits
  {
  }

  /** Leaving a call. */
  lemma {:induction false} LeaveKeepsInv(calls: seq<Call>, s: State)
    requires Inv(calls, s) && HostCan(calls, s) && (s.host == Spin || s.host == ClearDone)
    ensures Inv(calls, HostStep(calls, s))
  {
    var t := HostStep(calls, s);
    assert t.log == s.log && t.phase == s.phase && Taken(t) == Taken(s);
    WaitsForOneMore(calls, s.round);
  }

  lemma {:induction false} HostKeepsInv(calls: seq<Call>, s: State)
    requires Inv(calls, s) && HostCan(calls, s)
    ensures Inv(calls, HostStep(calls, s))
  {
    hide InOrder, ReadOk;
    if s.host == Spin || s.host == ClearDone {
      LeaveKeepsInv(calls, s);
    } else {
      var t := HostStep(calls, s);
      assert t.log == s.log && t.phase == s.phase && t.round == s.round && Taken(t) == Taken(s);
      assert t.data == ArgAfter(calls, Passed(t));
    }
  }

  /** The read of the argument: it is the argument of this call or, when the host has
      gone on, perhaps of the next; and it has not gone on if it has waited after every
      call up to this one. */
  lemma {:induction false} ReadKeepsInv(calls: seq<Call>, s: State)
    requires Inv(calls, s) && s.phase == Running
    ensures Inv(calls, WorkerStep(s))
  {
    var t, k := WorkerStep(s), |s.log|;
    assert Passed(s) == k + 1 || (Passed(s) == k + 2 && s.round == k + 1 && !Awaited(s));
    assert Passed(s) == k + 2 ==> !WaitsFor(calls, k + 1);
    assert t.log[k] == Ran(calls[k].func, s.data);
    assert ReadOk(calls, t.log, k);
    forall i | 0 <= i < k ensures ReadOk(calls, t.log, i) {
      assert ReadOk(calls, s.log, i);
    }
  }

  lemma {:induction false} WorkerKeepsInv(calls: seq<Call>, s: State)
    requires Inv(calls, s) && WorkerCan(s)
    ensures Inv(calls, WorkerStep(s))
  {
    hide InOrder, ReadOk, ArgAfter;
    if s.phase == Running {
      ReadKeepsInv(calls, s);
    } else {
      assert WorkerStep(s).log == s.log;
    }
  }

  lemma {:induction false} StepKeepsInv(calls: seq<Call>, s: State, l: Label)
    requires Inv(calls, s) && Can(calls, s, l)
    ensures Inv(calls, Next(calls, s, l))
  {
    match l
    case HostMoves => HostKeepsInv(calls, s);
    case WorkerMoves => WorkerKeepsInv(calls, s);
    case PulseArrives =>
  }

  lemma {:induction false} RunKeepsInv(calls: seq<Call>, s: State, labels: seq<Label>)
    requires Inv(calls, s) && Possible(calls, s, labels)
    ensures Inv(calls, After(calls, s, labels))
    decreases |labels|
  {
    if labels != [] {
      StepKeepsInv(calls, s, labels[0]);
      RunKeepsInv(calls, Next(calls, s, labels[0]), labels[1..]);
    }
  }

  // ---------------------------------------------------------------- every run

  lemma {:induction false} BootedInv(calls: seq<Call>, boot: nat)
    ensures Inv(calls, Booted(boot))
  {
  }

  /** In every run the tasks run are the tasks asked for, each once and in order: as many
      as the calls the host has seen taken, but for the one about to read its argument.
      A call that names no task is never taken, so the host never returns from it. */
  lemma {:induction false} RunsEachCallOnce(calls: seq<Call>, boot: nat, labels: seq<Label>)
    requires Possible(calls, Booted(boot), labels)
    ensures var s := After(calls, Booted(boot), labels);
            && InOrder(calls, s.log)
            && |s.log| + (if s.phase == Running then 1 else 0) == Taken(s) <= |calls|
            && (forall i :: 0 <= i < Taken(s) ==> calls[i].func != 0)
  {
    BootedInv(calls, boot);
    RunKeepsInv(calls, Booted(boot), labels);
  }

  predicate Stuck(calls: seq<Call>, s: State) {
    !HostCan(calls, s) && !WorkerCan(s) && !s.pulse
  }

  /** No dispatch and no done event is missed: a run can stop only when every call has
      returned and every task has run. */
  lemma {:induction false} StopsOnlyWhenFinished(calls: seq<Call>, boot: nat, labels: seq<Label>)
    requires Possible(calls, Booted(boot), labels)
    requires Stuck(calls, After(calls, Booted(boot), labels))
    ensures var s := After(calls, Booted(boot), labels);
            s.round == |calls| == |s.log| && InOrder(calls, s.log)
  {
    BootedInv(calls, boot);
    RunKeepsInv(calls, Booted(boot), labels);
  }

  // ---------------------------------------------------------------- progress

  function Place(host: Host): nat {
    match host
    case PassParams => 0
    case SetFunc => 1
    case Start => 2
    case Spin => 3
    case WaitDone => 4
    case ClearDone => 5
  }

  function PhaseWork(phase: Phase): nat {
    match phase
    case Idle => 0
    case Leaving => 1
    case Returned => 3
    case Working => 4
    case Running => 5
    case HasTask => 6
    case Entry => 7
  }

  /** The accesses left: a START the worker has not entered its handler for counts for
      the whole of the handler. */
  function Work(calls: seq<Call>, s: State): int {
    ((|calls| - s.round) * 6 - Place(s.host)) * 9 + PhaseWork(s.phase) + (if s.pulse then 1 else 0)
    + if s.start && s.phase != Entry && s.phase != HasTask then 8 else 0
  }

  lemma {:induction false} EveryMoveWorks(calls: seq<Call>, s: State, l: Label)
    requires Inv(calls, s) && Can(calls, s, l) && Named(calls)
    ensures Work(calls, Next(calls, s, l)) < Work(calls, s)
  {
    match l
    case HostMoves => HostMoveWorks(calls, s);
    case WorkerMoves => WorkerMoveWorks(calls, s);
    case PulseArrives =>
  }

  lemma {:induction false} HostMoveWorks(calls: seq<Call>, s: State)
    requires Inv(calls, s) && HostCan(calls, s) && Named(calls)
    ensures Work(calls, HostStep(calls, s)) < Work(calls, s)
  {
    hide InOrder, ReadOk, ArgAfter;
  }

  lemma {:induction false} WorkerMoveWorks(calls: seq<Call>, s: State)
    requires Inv(calls, s) && WorkerCan(s) && Named(calls)
    ensures Work(calls, WorkerStep(s)) < Work(calls, s)
  {
    hide InOrder, ReadOk, ArgAfter;
  }

  lemma {:induction false} RunUsesWork(calls: seq<Call>, s: State, labels: seq<Label>)
    requires Inv(calls, s) && Possible(calls, s, labels) && Named(calls)
    ensures |labels| + Work(calls, After(calls, s, labels)) <= Work(calls, s)
    decreases |labels|
  {
    if labels != [] {
      EveryMoveWorks(calls, s, labels[0]);
      StepKeepsInv(calls, s, labels[0]);
      RunUsesWork(calls, Next(calls, s, labels[0]), labels[1..]);
    }
  }

  /** Calls that all name a task finish, however the steps interleave: no run is longer
      than this, and by StopsOnlyWhenFinished none stops before the end. */
  lemma {:induction false} RunsAreFinite(calls: seq<Call>, boot: nat, labels: seq<Label>)
    requires Possible(calls, Booted(boot), labels) && Named(calls)
    ensures |labels| <= 54 * |calls|
  {
    BootedInv(calls, boot);
    RunKeepsInv(calls, Booted(boot), labels);
    RunUsesWork(calls, Booted(boot), labels);
  }

  // ---------------------------------------------------------------- own arguments

  lemma {:induction false} Append(calls: seq<Call>, s: State, labels: seq<Label>, l: Label)
    requires Possible(calls, s, labels) && Can(calls, After(calls, s, labels), l)
    ensures Possible(calls, s, labels + [l])
    ensures After(calls, s, labels + [l]) == Next(calls, After(calls, s, labels), l)
    decreases |labels|
  {
    if labels == [] {
      assert ([l])[1..] == [];
    } else {
      assert (labels + [l])[1..] == labels[1..] + [l];
      Append(calls, Next(calls, s, labels[0]), labels[1..], l);
    }
  }

  predicate Leads(calls: seq<Call>, boot: nat, labels: seq<Label>, s: State) {
    Possible(calls, Booted(boot), labels) && After(calls, Booted(boot), labels) == s
  }

  lemma {:induction false} Extend(calls: seq<Call>, boot: nat, labels: seq<Label>, s: State, l: Label)
    returns (more: seq<Label>, t: State)
    requires Leads(calls, boot, labels, s) && Can(calls, s, l)
    ensures t == Next(calls, s, l) && Leads(calls, boot, more, t)
  {
    more, t := labels + [l], Next(calls, s, l);
    Append(calls, Booted(boot), labels, l);
  }

  /** The host is about to make call `k`, with every task before it finished. */
  predicate Clean(calls: seq<Call>, s: State, k: nat) {
    && k <= |calls| && s.host == PassParams && s.round == k == |s.log| && !s.start && s.phase == Idle
    && s.data == ArgAfter(calls, k)
  }

  /** The host is about to make call `k`, with the task before it about to read its argument. */
  predicate Ahead(calls: seq<Call>, s: State, k: nat) {
    && 0 < k <= |calls| && s.host == PassParams && s.round == k == |s.log| + 1 && !s.start && s.phase == Running
    && s.data == ArgAfter(calls, k)
  }

  /** Dispatch a call and let the worker take it. */
  lemma {:induction false} TakeOne(calls: seq<Call>, boot: nat, labels: seq<Label>, s: State, k: nat)
    returns (more: seq<Label>, t: State)
    requires Leads(calls, boot, labels, s) && Named(calls) && k < |calls| && Clean(calls, s, k)
    ensures Leads(calls, boot, more, t)
    ensures t == s.(host := Spin, taskbin := calls[k].func, held := calls[k].func, data := ArgAfter(calls, k + 1),
                    phase := Running)
  {
    more, t := Extend(calls, boot, labels, s, HostMoves);
    more, t := Extend(calls, boot, more, t, HostMoves);
    more, t := Extend(calls, boot, more, t, HostMoves);
    more, t := Extend(calls, boot, more, t, WorkerMoves);
    more, t := Extend(calls, boot, more, t, WorkerMoves);
    more, t := Extend(calls, boot, more, t, WorkerMoves);
  }

  /** Let the task run to its end and its event arrive. */
  lemma {:induction false} FinishOne(calls: seq<Call>, boot: nat, labels: seq<Label>, s: State)
    returns (more: seq<Label>, t: State)
    requires Leads(calls, boot, labels, s) && s.phase == Running
    ensures Leads(calls, boot, more, t)
    ensures t == s.(phase := Idle, pulse := false, done := true, log := s.log + [Ran(s.held, s.data)])
  {
    more, t := Extend(calls, boot, labels, s, WorkerMoves);
    more, t := Extend(calls, boot, more, t, WorkerMoves);
    more, t := Extend(calls, boot, more, t, WorkerMoves);
    more, t := Extend(calls, boot, more, t, PulseArrives);
    more, t := Extend(calls, boot, more, t, WorkerMoves);
  }

  /** The host leaves a call, after a wait if it makes one. */
  lemma {:induction false} LeaveOne(calls: seq<Call>, boot: nat, labels: seq<Label>, s: State)
    returns (more: seq<Label>, t: State)
    requires Leads(calls, boot, labels, s) && s.host == Spin && !s.start && s.round < |calls|
    requires calls[s.round].waits ==> s.done
    ensures Leads(calls, boot, more, t)
    ensures t == s.(host := PassParams, round := s.round + 1, done := s.done && !calls[s.round].waits)
  {
    more, t := Extend(calls, boot, labels, s, HostMoves);
    if calls[s.round].waits {
      more, t := Extend(calls, boot, more, t, HostMoves);
      more, t := Extend(calls, boot, more, t, HostMoves);
    }
  }

  /** Any number of calls can be made one after another, each task finishing before the
      next call. */
  lemma {:induction false} Reach(calls: seq<Call>, boot: nat, k: nat) returns (labels: seq<Label>, s: State)
    requires Named(calls) && k <= |calls|
    ensures Leads(calls, boot, labels, s) && Clean(calls, s, k)
  {
    if k == 0 {
      labels, s := [], Booted(boot);
    } else {
      labels, s := Reach(calls, boot, k - 1);
      labels, s := TakeOne(calls, boot, labels, s, k - 1);
      labels, s := FinishOne(calls, boot, labels, s);
      labels, s := LeaveOne(calls, boot, labels, s);
    }
  }

  /** After a call without a wait the host can stay ahead of the worker, whatever waits it
      makes later: each takes the done event of the task before. */
  lemma {:induction false} StayAhead(calls: seq<Call>, boot: nat, j: nat, k: nat) returns (labels: seq<Label>, s: State)
    requires Named(calls) && j < k <= |calls| && !calls[j].waits
    ensures Leads(calls, boot, labels, s) && Ahead(calls, s, k)
    decreases k
  {
    if k == j + 1 {
      labels, s := Reach(calls, boot, j);
      labels, s := TakeOne(calls, boot, labels, s, j);
      labels, s := LeaveOne(calls, boot, labels, s);
    } else {
      labels, s := StayAhead(calls, boot, j, k - 1);
      labels, s := FinishOne(calls, boot, labels, s);
      labels, s := TakeOne(calls, boot, labels, s, k - 1);
      labels, s := LeaveOne(calls, boot, labels, s);
    }
  }

  /** Then it can pass another argument before the task just taken has read its own. */
  lemma {:induction false} Overtaken(calls: seq<Call>, boot: nat, j: nat, i: nat) returns (labels: seq<Label>, s: State)
    requires Named(calls) && j < i < |calls| && !calls[j].waits && Changes(calls, i)
    ensures Leads(calls, boot, labels, s) && !OwnArgs(calls, s.log)
  {
    labels, s := StayAhead(calls, boot, j, i);
    labels, s := Extend(calls, boot, labels, s, HostMoves);
    assert s.data == ArgAfter(calls, i + 1);
    labels, s := Extend(calls, boot, labels, s, WorkerMoves);
    assert s.log[i - 1].arg == ArgAfter(calls, i + 1);
  }

  predicate RunReadsOwn(calls: seq<Call>, boot: nat, labels: seq<Label>) {
    Possible(calls, Booted(boot), labels) ==> OwnArgs(calls, After(calls, Booted(boot), labels).log)
  }

  lemma {:induction false} EnoughIsOwn(calls: seq<Call>, s: State)
    requires Inv(calls, s) && WaitsEnough(calls)
    ensures OwnArgs(calls, s.log)
  {
    forall i | 0 <= i < |s.log| ensures s.log[i].arg == ArgAfter(calls, i + 1) {
      assert ReadOk(calls, s.log, i);
      if i + 2 <= |calls| {
        assert Changes(calls, i + 1) ==> WaitsFor(calls, i + 1);
      }
    }
  }

  /** `q` is the argument of call `r`: call `p` passed it and none has passed one since, or, for
      p > r, none has passed one at all and it is the reset value. */
  predicate Argument(calls: seq<Call>, r: nat, p: nat, q: nat)
    requires r < |calls|
  {
    && (if p <= r then calls[p].params == Pass(q) else q == 0)
    && forall i :: 0 <= i <= r && (p > r || i > p) ==> calls[i].params == Keep
  }

  lemma {:induction false} ArgumentIs(calls: seq<Call>, r: nat, p: nat, q: nat)
    requires r < |calls| && Argument(calls, r, p, q)
    ensures ArgAfter(calls, r + 1) == q
  {
    if p != r {
      assert calls[r].params == Keep;
      if r > 0 {
        ArgumentIs(calls, r - 1, if p > r then r else p, q);
      }
    }
  }

  /** In every run of such calls every task reads the argument last passed when it was called. */
  lemma {:induction false} ReadsLastArgument(calls: seq<Call>, boot: nat, labels: seq<Label>, r: nat, p: nat, q: nat)
    requires Possible(calls, Booted(boot), labels) && WaitsEnough(calls)
    requires r < |After(calls, Booted(boot), labels).log| && r < |calls| && Argument(calls, r, p, q)
    ensures After(calls, Booted(boot), labels).log[r] == Ran(calls[r].func, q)
  {
    BootedInv(calls, boot);
    RunKeepsInv(calls, Booted(boot), labels);
    EnoughIsOwn(calls, After(calls, Booted(boot), labels));
    ArgumentIs(calls, r, p, q);
  }

  /** Every task reads its own argument in every run if and only if before each change of
      the argument the host has waited after every call so far: one call without a wait
      makes every later wait come one event early. */
  lemma {:induction false} OwnArgsIff(calls: seq<Call>, boot: nat)
    requires Named(calls)
    ensures (forall labels :: RunReadsOwn(calls, boot, labels)) <==> WaitsEnough(calls)
  {
    if WaitsEnough(calls) {
      forall labels | Possible(calls, Booted(boot), labels) ensures RunReadsOwn(calls, boot, labels) {
        BootedInv(calls, boot);
        RunKeepsInv(calls, Booted(boot), labels);
        EnoughIsOwn(calls, After(calls, Booted(boot), labels));
      }
    } else {
      var i :| 1 <= i < |calls| && Changes(calls, i) && !WaitsFor(calls, i);
      var j :| 0 <= j < i && !calls[j].waits;
      var labels, s := Overtaken(calls, boot, j, i);
      assert !RunReadsOwn(calls, boot, labels);
    }
  }
}
