/**
 * The sequential meaning of the pause and step logic: what the native debug hook and the
 * commands do to the shared pause data, one whole event or command at a time, and what
 * follows for whole runs.
 */
module StepControl {
  import opened Common

  /** `Pause` is the same enum value as `StepIn` in the header, so it is one constructor here. */
  datatype PauseType = NoPause | StepOut | StepOver | StepIn

  datatype RunState = Running | Pausing | Paused | Stepping

  datatype StackEntry = StackEntry(file: string, line: int, function_: string)

  datatype Status = Status(runState: RunState, stack: seq<StackEntry>, pausedAtBreakpointId: nat)

  datatype Breakpoint = Breakpoint(id: nat, line: nat)

  /** Breakpoints by lower-cased file name, then by line. */
  type FileTable = map<string, map<nat, Breakpoint>>

  /** A frame of `currentStack`; `file` is the text of its file name handle. */
  datatype Frame = Frame(file: string, line: int)

  /** Where the VM thread is: out of the condition wait, in it, or in it and notified. */
  datatype VmPhase = Executing | Waiting | Notified

  datatype State = State(
    request: PauseType,
    returnsRequired: int,
    isPaused: bool,
    status: Status,
    stack: seq<Frame>,
    files: FileTable,
    phase: VmPhase)

  datatype Event =
    | Call(source: string, line: int)
    | Return
    | Line(line: int, infos: seq<StackEntry>)  // infos: what sq_stackinfos reports at that moment

  datatype Command =
    | PauseExecution
    | ContinueExecution
    | Step(kind: PauseType)
    | SetFileBreakpoints(file: string, entries: seq<Breakpoint>)

  datatype Action = Vm(event: Event) | Wake | Do(command: Command)

  type Lowering = string -> string

  // ---------------------------------------------------------------- breakpoints

  function Lookup(files: FileTable, file: string, line: nat): (r: Option<Breakpoint>) {
    if file in files && line in files[file] then Some(files[file][line]) else None
  }

  predicate ValidEntries(entries: seq<Breakpoint>) {
    forall i | 0 <= i < |entries| :: entries[i].id != 0 && entries[i].line != 0
  }

  /** Assigning every entry to its line, in order. */
  function AddAll(lines: map<nat, Breakpoint>, entries: seq<Breakpoint>): (r: map<nat, Breakpoint>) {
    if entries == [] then lines
    else AddAll(lines, entries[..|entries| - 1])[entries[|entries| - 1].line := entries[|entries| - 1]]
  }

  /** The last entry that names the line: an independent reading of a breakpoint list. */
  function LastOnLine(entries: seq<Breakpoint>, line: nat): (r: Option<Breakpoint>)
    ensures r.None? <==> forall i | 0 <= i < |entries| :: entries[i].line != line
    ensures r.Some? ==> exists i :: 0 <= i < |entries| && entries[i] == r.value && r.value.line == line
                                    && forall j | i < j < |entries| :: entries[j].line != line
  {
    if entries == [] then None
    else if entries[|entries| - 1].line == line then
      assert entries[|entries| - 1] == entries[|entries| - 1];
      Some(entries[|entries| - 1])
    else LastOnLine(entries[..|entries| - 1], line)
  }

  lemma {:induction false} AddAllKeepsLast(lines: map<nat, Breakpoint>, entries: seq<Breakpoint>, line: nat)
    ensures line in AddAll(lines, entries) <==> LastOnLine(entries, line).Some? || line in lines
    ensures LastOnLine(entries, line).Some? ==> AddAll(lines, entries)[line] == LastOnLine(entries, line).value
    ensures LastOnLine(entries, line).None? && line in lines ==> AddAll(lines, entries)[line] == lines[line]
  {
    if entries != [] {
      AddAllKeepsLast(lines, entries[..|entries| - 1], line);
    }
  }

  // ---------------------------------------------------------------- hook events

  function BreakpointAt(s: State, line: int): (r: Option<Breakpoint>)
    requires |s.stack| > 0
  {
    if 0 <= line < INT32_MAX then Lookup(s.files, s.stack[|s.stack| - 1].file, line) else None
  }

  function OnCall(lower: Lowering, s: State, source: string, line: int): (r: State) {
    var rr := if s.request != NoPause && s.returnsRequired >= 0 then s.returnsRequired + 1 else s.returnsRequired;
    s.(stack := s.stack + [Frame(lower(source), line)], returnsRequired := rr)
  }

  function OnReturn(s: State): (r: State)
    requires |s.stack| > 0
  {
    var rr := if s.request != NoPause then s.returnsRequired - 1 else s.returnsRequired;
    s.(stack := s.stack[..|s.stack| - 1], returnsRequired := rr)
  }

  function ClipLine(line: int): (r: nat) {
    if 0 < line <= INT32_MAX then line else 0
  }

  function PopulateStack(infos: seq<StackEntry>): (r: seq<StackEntry>) {
    seq(|infos|, i requires 0 <= i < |infos| => infos[i].(line := ClipLine(infos[i].line)))
  }

  function OnLine(s: State, line: int, infos: seq<StackEntry>): (r: State)
    requires |s.stack| > 0
  {
    var top := |s.stack| - 1;
    var bp := BreakpointAt(s, line);
    var s1 := s.(stack := s.stack[top := s.stack[top].(line := line)]);
    var s2 := if bp.Some? then s1.(returnsRequired := 0, request := StepIn) else s1;
    if s2.request != NoPause && s2.returnsRequired <= 0 then
      s2.(isPaused := true,
          status := Status(Paused, PopulateStack(infos), if bp.Some? then bp.value.id else 0),
          phase := Waiting)
    else s2
  }

  // ---------------------------------------------------------------- commands

  function Notify(p: VmPhase): (r: VmPhase) {
    if p == Waiting then Notified else p
  }

  function Returns(kind: PauseType): (r: int) {
    match kind
    case StepOut => 1
    case StepOver => 0
    case _ => -1
  }

  /** True exactly when the command takes effect. */
  predicate Accepted(s: State, c: Command) {
    match c
    case PauseExecution => s.request == NoPause
    case ContinueExecution => s.request != NoPause
    case Step(_) => s.isPaused
    case SetFileBreakpoints(_, entries) => ValidEntries(entries)
  }

  function Code(s: State, c: Command): (r: ReturnCode) {
    if Accepted(s, c) || c.PauseExecution? then Success
    else if c.SetFileBreakpoints? then InvalidParameter
    else InvalidNotPaused
  }

  function OnCommand(lower: Lowering, s: State, c: Command): (r: State) {
    if !Accepted(s, c) then s
    else
      match c
      case PauseExecution => s.(request := StepIn, returnsRequired := -1)
      case ContinueExecution => s.(request := NoPause, phase := Notify(s.phase))
      case Step(kind) => s.(request := kind, returnsRequired := Returns(kind), phase := Notify(s.phase))
      case SetFileBreakpoints(file, entries) => s.(files := s.files[lower(file) := AddAll(map[], entries)])
  }

  /** What SendStatus publishes. */
  function SendStatus(s: State): (r: Status) {
    if s.request == NoPause then Status(Running, [], 0)
    else if s.isPaused then s.status.(runState := Paused)
    else if s.request == StepIn then Status(Pausing, [], 0)
    else Status(Stepping, [], 0)
  }

  // ---------------------------------------------------------------- runs

  predicate CanDo(s: State, a: Action) {
    match a
    case Vm(e) => s.phase == Executing && (e.Call? || |s.stack| > 0)
    case Wake => s.phase == Notified
    case Do(c) => c.Step? ==> c.kind != NoPause
  }

  function Next(lower: Lowering, s: State, a: Action): (r: State)
    requires CanDo(s, a)
  {
    match a
    case Vm(Call(source, line)) => OnCall(lower, s, source, line)
    case Vm(Return) => OnReturn(s)
    case Vm(Line(line, infos)) => OnLine(s, line, infos)
    case Wake => s.(isPaused := false, phase := Executing)
    case Do(c) => OnCommand(lower, s, c)
  }

  /** The state after the first n actions; an action that is not possible is skipped. */
  function At(lower: Lowering, s: State, acts: seq<Action>, n: nat): (r: State)
    requires n <= |acts|
  {
    if n == 0 then s
    else
      var p := At(lower, s, acts, n - 1);
      if CanDo(p, acts[n - 1]) then Next(lower, p, acts[n - 1]) else p
  }

  ghost predicate ValidRun(lower: Lowering, s: State, acts: seq<Action>) {
    forall i: nat | i < |acts| :: CanDo(At(lower, s, acts, i), acts[i])
  }

  const Init: State := State(NoPause, 0, false, Status(Paused, [], 0), [], map[], Executing)

  // ---------------------------------------------------------------- invariant

  ghost predicate Inv(s: State) {
    && (s.isPaused <==> s.phase != Executing)
    && (s.phase == Waiting ==> s.request != NoPause)
    && (s.phase != Executing ==> |s.stack| > 0 && s.status.runState == Paused)
  }

  /**
   * No lost wake-up, sequentially: in every reachable state a VM that waits un-notified has a
   * request, so Continue and every step are accepted and notify it.
   */
  lemma {:induction false} ReachableInv(lower: Lowering, acts: seq<Action>, n: nat, c: Command)
    requires n <= |acts|
    requires c.ContinueExecution? || (c.Step? && c.kind != NoPause)
    ensures Inv(At(lower, Init, acts, n))
    ensures var s := At(lower, Init, acts, n);
            s.phase == Waiting ==>
              Code(s, c) == Success && OnCommand(lower, s, c).phase == Notified
  {
    if n > 0 {
      ReachableInv(lower, acts, n - 1, c);
    }
  }

  // ---------------------------------------------------------------- step counter

  function Delta(a: Action): (r: int) {
    match a
    case Vm(Call(_, _)) => 1
    case Vm(Return) => -1
    case _ => 0
  }

  /** Stack depth before action i, counted from the calls and returns alone. */
  function DepthAt(d: int, acts: seq<Action>, i: nat): (r: int)
    requires i <= |acts|
  {
    if i == 0 then d else DepthAt(d, acts, i - 1) + Delta(acts[i - 1])
  }

  /** The depth has already been below `level` at or before action i. */
  ghost predicate DippedBelow(d: int, acts: seq<Action>, i: nat, level: int)
    requires i <= |acts|
  {
    exists j: nat :: j <= i && DepthAt(d, acts, j) < level
  }

  /** A line event with a breakpoint, at a depth at most `level`, or after a dip below it. */
  ghost predicate MustStop(p: State, a: Action, depth: int, level: int, dipped: bool) {
    && a.Vm? && a.event.Line?
    && (depth <= level || dipped || (|p.stack| > 0 && BreakpointAt(p, a.event.line).Some?))
  }

  /** Action i is a line event at which a step to `level` must stop. */
  ghost predicate StopsHere(lower: Lowering, s: State, acts: seq<Action>, level: int, i: nat)
    requires i < |acts|
  {
    MustStop(At(lower, s, acts, i), acts[i], DepthAt(|s.stack|, acts, i), level, DippedBelow(|s.stack|, acts, i, level))
  }

  /** An accepted Continue or step. */
  predicate Resumes(s: State, a: Action) {
    a.Do? && (a.command.ContinueExecution? || a.command.Step?) && Accepted(s, a.command)
  }

  /**
   * The VM is out of its wait or notified, the request is still pending, and the counter is k plus
   * the depth change, latched once below zero.
   */
  ghost predicate Tracks(p: State, request: PauseType, counter: int, depth: int, dipped: bool) {
    && Inv(p) && p.phase != Waiting && p.request == request && |p.stack| == depth
    && if dipped then p.returnsRequired < 0 else p.returnsRequired == counter >= 0
  }

  lemma TracksDecides(lower: Lowering, p: State, a: Action, request: PauseType, counter: int, depth: int, dipped: bool)
    requires Tracks(p, request, counter, depth, dipped) && request != NoPause
    requires CanDo(p, a) && !Resumes(p, a)
    ensures Next(lower, p, a).phase == Waiting <==> MustStop(p, a, depth, depth - counter, dipped)
  {
  }

  ghost predicate TracksAt(lower: Lowering, s: State, acts: seq<Action>, k: int, n: nat)
    requires n <= |acts|
  {
    var d := |s.stack|;
    Tracks(At(lower, s, acts, n), s.request, k + DepthAt(d, acts, n) - d, DepthAt(d, acts, n),
           DippedBelow(d, acts, n, d - k))
  }

  lemma TracksStart(lower: Lowering, s: State, acts: seq<Action>, k: int)
    requires k >= -1 && Inv(s) && s.phase != Waiting && s.returnsRequired == k
    ensures TracksAt(lower, s, acts, k, 0)
  {
  }

  ghost predicate Uneventful(lower: Lowering, s: State, acts: seq<Action>, level: int, i: nat)
    requires i < |acts|
  {
    && CanDo(At(lower, s, acts, i), acts[i])
    && !Resumes(At(lower, s, acts, i), acts[i])
    && !StopsHere(lower, s, acts, level, i)
  }

  lemma TracksExtend(lower: Lowering, s: State, acts: seq<Action>, k: int, n: nat)
    requires 0 < n <= |acts| && s.request != NoPause
    requires TracksAt(lower, s, acts, k, n - 1)
    requires Uneventful(lower, s, acts, |s.stack| - k, n - 1)
    ensures TracksAt(lower, s, acts, k, n)
  {
  }

  /** No accepted Continue or step, and no line event at which the step must stop, among the first n actions. */
  ghost predicate Quiet(lower: Lowering, s: State, acts: seq<Action>, level: int, n: nat)
    requires n <= |acts|
  {
    forall i: nat | i < n :: Uneventful(lower, s, acts, level, i)
  }

  /** The latched counter answers a question about the whole history since the step. */
  lemma {:induction false} CounterTracksDepth(lower: Lowering, s: State, acts: seq<Action>, k: int, n: nat)
    requires n <= |acts| && k >= -1
    requires Inv(s) && s.phase != Waiting && s.request != NoPause && s.returnsRequired == k
    requires Quiet(lower, s, acts, |s.stack| - k, n)
    ensures TracksAt(lower, s, acts, k, n)
  {
    hide Next, CanDo, TracksAt, Uneventful, Returns;
    if n == 0 {
      TracksStart(lower, s, acts, k);
    } else {
      assert Uneventful(lower, s, acts, |s.stack| - k, n - 1);
      CounterTracksDepth(lower, s, acts, k, n - 1);
      TracksExtend(lower, s, acts, k, n);
    }
  }

  /**
   * From an accepted step at depth d on, through the wake-up whenever it comes, the VM pauses
   * again at exactly the first line event that has a breakpoint, or whose depth is at most the
   * step's level, or before which the depth had already fallen below that level: d - 1 for a step
   * out, d for a step over, d + 1 for a step in. No earlier action pauses it. Every command may
   * come in between, before the wake-up or after, but an accepted Continue or step.
   */
  lemma StepStopsExactly(lower: Lowering, s: State, kind: PauseType, level: int, acts: seq<Action>, n: nat)
    requires Inv(s) && s.isPaused && kind != NoPause && n < |acts|
    requires level == match kind case StepOut => |s.stack| - 1 case StepOver => |s.stack| case _ => |s.stack| + 1
    requires Quiet(lower, OnCommand(lower, s, Step(kind)), acts, level, n)
    requires CanDo(At(lower, OnCommand(lower, s, Step(kind)), acts, n), acts[n])
    ensures Code(s, Step(kind)) == Success
    ensures var t := OnCommand(lower, s, Step(kind));
            && |t.stack| == |s.stack|
            && (forall i: nat | i <= n :: At(lower, t, acts, i).phase != Waiting)
            && (At(lower, t, acts, n + 1).phase == Waiting <==> StopsHere(lower, t, acts, level, n))
  {
    var t := OnCommand(lower, s, Step(kind));
    var d := |t.stack|;
    var k := d - level;
    forall i: nat | i <= n ensures At(lower, t, acts, i).phase != Waiting {
      CounterTracksDepth(lower, t, acts, k, i);
    }
    var p, depth := At(lower, t, acts, n), DepthAt(d, acts, n);
    CounterTracksDepth(lower, t, acts, k, n);
    if !Resumes(p, acts[n]) {
      TracksDecides(lower, p, acts[n], t.request, k + depth - d, depth, DippedBelow(d, acts, n, d - k));
    }
  }

  lemma {:induction false} SuffixAt(lower: Lowering, s: State, run: seq<Action>, m: nat, i: nat)
    requires m + i <= |run|
    ensures At(lower, At(lower, s, run, m), run[m..], i) == At(lower, s, run, m + i)
  {
    hide Next, CanDo;
    if i > 0 {
      SuffixAt(lower, s, run, m, i - 1);
      assert run[m..][i - 1] == run[m + i - 1];
    }
  }

  lemma CommandAt(lower: Lowering, run: seq<Action>, m: nat, c: Command)
    requires m < |run| && run[m] == Do(c) && (c.Step? ==> c.kind != NoPause)
    ensures At(lower, Init, run, m + 1) == OnCommand(lower, At(lower, Init, run, m), c)
  {
    hide OnCommand;
  }

  predicate IsLine(a: Action) {
    a.Vm? && a.event.Line?
  }

  /** Neither a line event nor an accepted Continue or step. */
  ghost predicate Harmless(lower: Lowering, s: State, acts: seq<Action>, i: nat)
    requires i < |acts|
  {
    !IsLine(acts[i]) && !Resumes(At(lower, s, acts, i), acts[i])
  }

  /** A run up to its first line event, in which nobody resumes the VM. */
  ghost predicate UpToFirstLine(lower: Lowering, s: State, acts: seq<Action>) {
    && acts != [] && ValidRun(lower, s, acts) && IsLine(acts[|acts| - 1])
    && forall i: nat | i < |acts| - 1 :: Harmless(lower, s, acts, i)
  }

  /** Whatever happens, short of a resume, the next line event pauses the VM. */
  ghost predicate NextLineStops(lower: Lowering, s: State) {
    forall acts | UpToFirstLine(lower, s, acts) :: At(lower, s, acts, |acts|).phase == Waiting
  }

  /** A request that is due at the next line event, with the VM thread on its way there. */
  ghost predicate Latched(s: State) {
    Inv(s) && s.phase != Waiting && s.request != NoPause && s.returnsRequired < 0
  }

  lemma LatchStep(lower: Lowering, s: State, a: Action)
    requires Latched(s) && CanDo(s, a)
    ensures IsLine(a) ==> Next(lower, s, a).phase == Waiting
    ensures !IsLine(a) && !Resumes(s, a) ==> Latched(Next(lower, s, a)) && Next(lower, s, a).request == s.request
  {
  }

  /**
   * A due request, whatever its kind, survives everything but a line event and a resume: the
   * request stays and the counter stays negative over any calls, returns and other commands.
   */
  lemma {:induction false} PauseLatch(lower: Lowering, s: State, acts: seq<Action>, n: nat)
    requires n <= |acts| && Latched(s)
    requires forall i: nat | i < n :: Harmless(lower, s, acts, i)
    ensures Latched(At(lower, s, acts, n)) && At(lower, s, acts, n).request == s.request
  {
    hide Next, CanDo, Latched, IsLine, Resumes;
    if n > 0 {
      PauseLatch(lower, s, acts, n - 1);
      var p := At(lower, s, acts, n - 1);
      assert Harmless(lower, s, acts, n - 1);
      if CanDo(p, acts[n - 1]) {
        LatchStep(lower, p, acts[n - 1]);
      }
    }
  }

  /** Without a resume a waiting VM stays waiting. */
  lemma {:induction false} WaitsUntilResumed(lower: Lowering, s: State, acts: seq<Action>, n: nat)
    requires n <= |acts| && Inv(s) && s.phase == Waiting
    requires forall i: nat | i < n :: Harmless(lower, s, acts, i)
    ensures Inv(At(lower, s, acts, n)) && At(lower, s, acts, n).phase == Waiting
  {
    if n > 0 {
      WaitsUntilResumed(lower, s, acts, n - 1);
      assert Harmless(lower, s, acts, n - 1);
    }
  }

  lemma SureOfNextLine(lower: Lowering, t: State, acts: seq<Action>)
    requires Inv(t) && (t.phase == Waiting || Latched(t)) && UpToFirstLine(lower, t, acts)
    ensures At(lower, t, acts, |acts|).phase == Waiting
  {
    hide Next, Latched;
    var last := |acts| - 1;
    assert CanDo(At(lower, t, acts, last), acts[last]);
    if t.phase == Waiting {
      WaitsUntilResumed(lower, t, acts, last);
    } else {
      PauseLatch(lower, t, acts, last);
      LatchStep(lower, At(lower, t, acts, last), acts[last]);
    }
  }

  /** A pending request that is not due lets a line event inside one more call through. */
  lemma NotSureOfNextLine(lower: Lowering, s: State)
    requires Inv(s) && s.phase != Waiting && s.request != NoPause && s.returnsRequired >= 0
    ensures !NextLineStops(lower, s)
  {
    var call, line := Vm(Call("", 0)), Vm(Line(-1, []));
    var acts := (if s.phase == Notified then [Wake] else []) + [call, line];
    var n := |acts|;
    var awake := if s.phase == Notified then Next(lower, s, Wake) else s;
    assert At(lower, s, acts, 0) == s;
    assert At(lower, s, acts, n - 2) == awake;
    var inCall := Next(lower, awake, call);
    assert At(lower, s, acts, n - 1) == inCall;
    assert At(lower, s, acts, n) == Next(lower, inCall, line);
    assert UpToFirstLine(lower, s, acts);
  }

  /**
   * PauseExecution always answers Success, and changes nothing when a request is pending. It
   * makes sure of the next line event exactly when no request was pending, or the pending one was
   * due already, or the VM waits and so has no next line event before a resume. In particular a
   * pause accepted between a Continue and the wake-up is sure; one during a step that still has
   * calls to return from is not.
   */
  lemma PauseStopsAtNextLine(lower: Lowering, s: State)
    requires Inv(s)
    ensures Code(s, PauseExecution) == Success
    ensures s.request != NoPause ==> OnCommand(lower, s, PauseExecution) == s
    ensures NextLineStops(lower, OnCommand(lower, s, PauseExecution))
            <==> s.phase == Waiting || s.request == NoPause || s.returnsRequired < 0
  {
    var t := OnCommand(lower, s, PauseExecution);
    if s.phase == Waiting || s.request == NoPause || s.returnsRequired < 0 {
      forall acts | UpToFirstLine(lower, t, acts) ensures At(lower, t, acts, |acts|).phase == Waiting {
        SureOfNextLine(lower, t, acts);
      }
    } else {
      NotSureOfNextLine(lower, s);
    }
  }

  /** The states agree on everything a later pause can depend on. */
  ghost predicate SameButDeadCounter(s: State, t: State) {
    && t == s.(returnsRequired := t.returnsRequired)
    && (s.request != NoPause ==> s.returnsRequired == t.returnsRequired)
  }

  lemma DeadCounterStep(lower: Lowering, p: State, q: State, a: Action)
    requires SameButDeadCounter(p, q)
    ensures CanDo(p, a) <==> CanDo(q, a)
    ensures CanDo(p, a) ==> SameButDeadCounter(Next(lower, p, a), Next(lower, q, a))
  {
  }

  /** The counter left over while nothing is requested never influences any later run. */
  lemma {:induction false} LeftoverCounterIsDead(lower: Lowering, s: State, t: State, acts: seq<Action>, n: nat)
    requires n <= |acts| && SameButDeadCounter(s, t)
    ensures SameButDeadCounter(At(lower, s, acts, n), At(lower, t, acts, n))
    ensures n < |acts| && acts[n].Do? ==>
              Code(At(lower, s, acts, n), acts[n].command) == Code(At(lower, t, acts, n), acts[n].command)
    ensures SendStatus(At(lower, s, acts, n)) == SendStatus(At(lower, t, acts, n))
  {
    if n > 0 {
      LeftoverCounterIsDead(lower, s, t, acts, n - 1);
      DeadCounterStep(lower, At(lower, s, acts, n - 1), At(lower, t, acts, n - 1), acts[n - 1]);
    }
  }

  // ---------------------------------------------------------------- the stack as a function of the history

  predicate OpensFrame(acts: seq<Action>, i: nat, j: nat)
    requires i < |acts|
  {
    acts[i].Vm? && acts[i].event.Call? && DepthAt(0, acts, i) == j
  }

  /** The call that opened frame j: the last call made at depth j among the first n actions. */
  function OpenCall(acts: seq<Action>, n: nat, j: nat): (i: nat)
    requires n <= |acts| && DepthAt(0, acts, n) > j
    ensures i < n && OpensFrame(acts, i, j)
    ensures forall m: nat | i < m <= n :: DepthAt(0, acts, m) > j
  {
    if OpensFrame(acts, n - 1, j) then n - 1 else OpenCall(acts, n - 1, j)
  }

  /** The line last executed in frame j, or the line of the call if no line event came yet. */
  function LineInFrame(acts: seq<Action>, n: nat, j: nat): (line: int)
    requires n <= |acts| && DepthAt(0, acts, n) > j
  {
    match acts[n - 1]
    case Vm(Line(line, _)) =>
      if DepthAt(0, acts, n - 1) == j + 1 then line else LineInFrame(acts, n - 1, j)
    case Vm(Call(_, line)) =>
      if DepthAt(0, acts, n - 1) == j then line else LineInFrame(acts, n - 1, j)
    case _ => LineInFrame(acts, n - 1, j)
  }

  /** Frame j as the events alone determine it. */
  function HistoryFrame(lower: Lowering, acts: seq<Action>, n: nat, j: nat): (f: Frame)
    requires n <= |acts| && DepthAt(0, acts, n) > j
  {
    Frame(lower(acts[OpenCall(acts, n, j)].event.source), LineInFrame(acts, n, j))
  }

  lemma HistoryStep(lower: Lowering, acts: seq<Action>, n: nat, j: nat)
    requires 0 < n <= |acts| && DepthAt(0, acts, n) > j
    ensures var a := acts[n - 1];
            if a.Vm? && a.event.Call? && DepthAt(0, acts, n - 1) == j then
              HistoryFrame(lower, acts, n, j) == Frame(lower(a.event.source), a.event.line)
            else
              && DepthAt(0, acts, n - 1) > j
              && HistoryFrame(lower, acts, n, j) ==
                 if a.Vm? && a.event.Line? && DepthAt(0, acts, n - 1) == j + 1
                 then HistoryFrame(lower, acts, n - 1, j).(line := a.event.line)
                 else HistoryFrame(lower, acts, n - 1, j)
  {
  }

  /** What one action does to the stack. */
  lemma StackStep(lower: Lowering, p: State, a: Action)
    requires CanDo(p, a)
    ensures Next(lower, p, a).stack ==
            match a
            case Vm(Call(source, line)) => p.stack + [Frame(lower(source), line)]
            case Vm(Return) => p.stack[..|p.stack| - 1]
            case Vm(Line(line, _)) => p.stack[|p.stack| - 1 := Frame(p.stack[|p.stack| - 1].file, line)]
            case _ => p.stack
  {
  }

  /** currentStack is the stack of open calls, each with its own source and its own last line. */
  lemma {:induction false} StackIsHistory(lower: Lowering, acts: seq<Action>, n: nat)
    requires n <= |acts| && ValidRun(lower, Init, acts)
    ensures var s := At(lower, Init, acts, n);
            && |s.stack| == DepthAt(0, acts, n)
            && forall j: nat | j < |s.stack| :: s.stack[j] == HistoryFrame(lower, acts, n, j)
  {
    hide Next, HistoryFrame;
    if n > 0 {
      StackIsHistory(lower, acts, n - 1);
      var p := At(lower, Init, acts, n - 1);
      var s := At(lower, Init, acts, n);
      assert CanDo(p, acts[n - 1]);
      StackStep(lower, p, acts[n - 1]);
      forall j: nat | j < |s.stack|
        ensures s.stack[j] == HistoryFrame(lower, acts, n, j)
      {
        HistoryStep(lower, acts, n, j);
      }
    }
  }

  // ---------------------------------------------------------------- breakpoints over runs

  /** Every entry has an id and a line above zero. */
  predicate NoZeros(entries: seq<Breakpoint>) {
    forall i | 0 <= i < |entries| :: entries[i].id > 0 && entries[i].line > 0
  }

  /** The entries of the latest SetFileBreakpoints without zeros for that lower-cased name. */
  function LatestEntries(lower: Lowering, acts: seq<Action>, n: nat, name: string): (r: Option<seq<Breakpoint>>)
    requires n <= |acts|
  {
    if n == 0 then None
    else
      match acts[n - 1]
      case Do(SetFileBreakpoints(file, entries)) =>
        if lower(file) == name && NoZeros(entries) then Some(entries)
        else LatestEntries(lower, acts, n - 1, name)
      case _ => LatestEntries(lower, acts, n - 1, name)
  }

  /** The breakpoint a client expects on that line, from the history of its commands alone. */
  function Expected(lower: Lowering, acts: seq<Action>, n: nat, name: string, line: nat): (r: Option<Breakpoint>)
    requires n <= |acts|
  {
    match LatestEntries(lower, acts, n, name)
    case None => None
    case Some(entries) => LastOnLine(entries, line)
  }

  lemma NoFilesAtStart(name: string, line: nat)
    ensures Lookup(Init.files, name, line) == None
  {
  }

  /** What one action does to one line of one file. */
  lemma FilesStep(lower: Lowering, p: State, a: Action, name: string, line: nat)
    requires CanDo(p, a)
    ensures Lookup(Next(lower, p, a).files, name, line) ==
            if a.Do? && a.command.SetFileBreakpoints? && lower(a.command.file) == name && NoZeros(a.command.entries)
            then LastOnLine(a.command.entries, line)
            else Lookup(p.files, name, line)
  {
    if a.Do? && a.command.SetFileBreakpoints? {
      AddAllKeepsLast(map[], a.command.entries, line);
    }
  }

  lemma {:induction false} FilesAreHistory(lower: Lowering, acts: seq<Action>, n: nat, name: string, line: nat)
    requires n <= |acts|
    ensures Lookup(At(lower, Init, acts, n).files, name, line) == Expected(lower, acts, n, name, line)
  {
    hide Next, Lookup, LastOnLine, NoZeros;
    if n > 0 {
      FilesAreHistory(lower, acts, n - 1, name, line);
      var p := At(lower, Init, acts, n - 1);
      if CanDo(p, acts[n - 1]) {
        FilesStep(lower, p, acts[n - 1], name, line);
      }
    } else {
      NoFilesAtStart(name, line);
    }
  }

  /** The published call stack is what the VM reported, frame by frame; a line that is no positive int is shown as 0. */
  predicate ShowsStack(stack: seq<StackEntry>, infos: seq<StackEntry>) {
    && |stack| == |infos|
    && forall i | 0 <= i < |infos| ::
         && stack[i].file == infos[i].file && stack[i].function_ == infos[i].function_
         && stack[i].line == if 0 < infos[i].line <= 0x7FFF_FFFF then infos[i].line else 0
  }

  /** What is published when the VM pauses at a line. */
  predicate ShowsPause(status: Status, infos: seq<StackEntry>, bp: Option<Breakpoint>) {
    && status.runState == Paused && ShowsStack(status.stack, infos)
    && status.pausedAtBreakpointId == if bp.Some? then bp.value.id else 0
  }

  /** The outcome of a line event, given the breakpoint that should be there. */
  ghost predicate LineOutcome(before: State, after: State, infos: seq<StackEntry>, bp: Option<Breakpoint>) {
    && (after.phase == Waiting <==> bp.Some? || (before.request != NoPause && before.returnsRequired <= 0))
    && after.request == (if bp.Some? then StepIn else before.request)
    && (after.phase == Waiting ==> ShowsPause(after.status, infos, bp))
    && (after.phase != Waiting ==> after.status == before.status)
  }

  lemma LineStep(s: State, line: int, infos: seq<StackEntry>)
    requires |s.stack| > 0 && s.phase == Executing
    ensures LineOutcome(s, OnLine(s, line, infos), infos, BreakpointAt(s, line))
  {
  }

  /** The source of the innermost open call, and the breakpoint its latest list has on the line. */
  function ExpectedAt(lower: Lowering, acts: seq<Action>, n: nat, line: int): (r: Option<Breakpoint>)
    requires n <= |acts| && DepthAt(0, acts, n) > 0
  {
    var source := acts[OpenCall(acts, n, DepthAt(0, acts, n) - 1)].event.source;
    if 0 <= line < 0x7FFF_FFFF then Expected(lower, acts, n, lower(source), line) else None
  }

  lemma BreakpointIsExpected(lower: Lowering, acts: seq<Action>, n: nat, line: int)
    requires n <= |acts| && ValidRun(lower, Init, acts) && |At(lower, Init, acts, n).stack| > 0
    ensures DepthAt(0, acts, n) > 0
    ensures BreakpointAt(At(lower, Init, acts, n), line) == ExpectedAt(lower, acts, n, line)
  {
    hide At, Lookup, Expected, LineInFrame, ValidRun, DepthAt, OpensFrame;
    StackIsHistory(lower, acts, n);
    var s := At(lower, Init, acts, n);
    var top := |s.stack| - 1;
    assert s.stack[top] == HistoryFrame(lower, acts, n, top);
    if 0 <= line < INT32_MAX {
      FilesAreHistory(lower, acts, n, s.stack[top].file, line);
    }
  }

  /**
   * A line event hits a breakpoint exactly when the latest accepted list for its source, up to
   * case, has that line (and the line is below INT32_MAX); it then pauses and reports the id of
   * the last such entry, and any other pause reports id 0. Every pause shows the VM's call stack.
   */
  lemma LineHitsExactly(lower: Lowering, acts: seq<Action>, n: nat)
    requires n < |acts| && ValidRun(lower, Init, acts)
    requires acts[n].Vm? && acts[n].event.Line?
    ensures DepthAt(0, acts, n) > 0
    ensures LineOutcome(At(lower, Init, acts, n), At(lower, Init, acts, n + 1), acts[n].event.infos,
                        ExpectedAt(lower, acts, n, acts[n].event.line))
  {
    var before := At(lower, Init, acts, n);
    assert CanDo(before, acts[n]);
    BreakpointIsExpected(lower, acts, n, acts[n].event.line);
    LineStep(before, acts[n].event.line, acts[n].event.infos);
    assert At(lower, Init, acts, n + 1) == OnLine(before, acts[n].event.line, acts[n].event.infos);
  }

  // ---------------------------------------------------------------- steps in the middle of a run

  /** The depth has been below `level` since entry m. */
  ghost predicate DippedSince(run: seq<Action>, m: nat, i: nat, level: int)
    requires m < i < |run|
  {
    exists j: nat :: m < j <= i && DepthAt(0, run, j) < level
  }

  /**
   * Entry i of the run is a line event with a breakpoint, or at a depth of at most `level`, or
   * after a dip below that since entry m: all from the history of commands and events.
   */
  ghost predicate DueAt(lower: Lowering, run: seq<Action>, m: nat, level: int, i: nat)
    requires m < i < |run|
  {
    && IsLine(run[i]) && DepthAt(0, run, i) > 0
    && (|| DepthAt(0, run, i) <= level
        || DippedSince(run, m, i, level)
        || ExpectedAt(lower, run, i, run[i].event.line).Some?)
  }

  lemma {:induction false} DepthInSuffix(run: seq<Action>, m: nat, i: nat)
    requires m + i <= |run|
    ensures DepthAt(DepthAt(0, run, m), run[m..], i) == DepthAt(0, run, m + i)
  {
    if i > 0 {
      DepthInSuffix(run, m, i - 1);
    }
  }

  lemma DipInSuffix(run: seq<Action>, m: nat, i: nat, level: int)
    requires m < i < |run|
    ensures DippedBelow(DepthAt(0, run, m + 1), run[m + 1..], i - m - 1, level)
            <==> DippedSince(run, m, i, level)
  {
    hide DepthAt;
    var d, rest := DepthAt(0, run, m + 1), run[m + 1..];
    forall j: nat | j <= i - m - 1 ensures DepthAt(d, rest, j) == DepthAt(0, run, m + 1 + j) {
      DepthInSuffix(run, m + 1, j);
    }
    if DippedSince(run, m, i, level) {
      var j: nat :| m < j <= i && DepthAt(0, run, j) < level;
      assert DepthAt(d, rest, j - m - 1) < level;
    }
    if DippedBelow(d, rest, i - m - 1, level) {
      var j: nat :| j <= i - m - 1 && DepthAt(d, rest, j) < level;
      var k := m + 1 + j;
      assert m < k <= i && DepthAt(0, run, k) < level;
    }
  }

  lemma LineHasFrame(lower: Lowering, run: seq<Action>, i: nat)
    requires ValidRun(lower, Init, run) && i < |run| && IsLine(run[i])
    ensures |At(lower, Init, run, i).stack| > 0
  {
    hide At;
    assert CanDo(At(lower, Init, run, i), run[i]);
  }

  lemma DueIsStopsHere(lower: Lowering, run: seq<Action>, m: nat, level: int, i: nat)
    requires ValidRun(lower, Init, run) && m < i < |run|
    ensures StopsHere(lower, At(lower, Init, run, m + 1), run[m + 1..], level, i - m - 1)
            <==> DueAt(lower, run, m, level, i)
  {
    hide At, DepthAt, DippedBelow, DippedSince, CanDo, ExpectedAt, BreakpointAt, HistoryFrame;
    StackIsHistory(lower, run, m + 1);
    StackIsHistory(lower, run, i);
    SuffixAt(lower, Init, run, m + 1, i - m - 1);
    DepthInSuffix(run, m + 1, i - m - 1);
    DipInSuffix(run, m, i, level);
    if IsLine(run[i]) {
      LineHasFrame(lower, run, i);
      BreakpointIsExpected(lower, run, i, run[i].event.line);
    }
  }

  lemma StillQuiet(lower: Lowering, run: seq<Action>, m: nat, level: int)
    requires ValidRun(lower, Init, run) && m + 1 < |run|
    requires forall i: nat | m < i < |run| - 1 ::
               !Resumes(At(lower, Init, run, i), run[i]) && !DueAt(lower, run, m, level, i)
    ensures Quiet(lower, At(lower, Init, run, m + 1), run[m + 1..], level, |run| - m - 2)
  {
    hide At, CanDo, StopsHere, DueAt, Resumes;
    var t, rest := At(lower, Init, run, m + 1), run[m + 1..];
    forall i: nat | i < |run| - m - 2 ensures Uneventful(lower, t, rest, level, i) {
      SuffixAt(lower, Init, run, m + 1, i);
      DueIsStopsHere(lower, run, m, level, m + 1 + i);
      assert CanDo(At(lower, Init, run, m + 1 + i), run[m + 1 + i]);
    }
  }

  /**
   * A step in the middle of a run, decided by the history alone: its level comes from the calls
   * and returns before it, and the last entry of the run pauses the VM exactly when it is the first
   * line event due, given that nobody resumed the VM again.
   */
  lemma StepInRunStops(lower: Lowering, run: seq<Action>, m: nat, kind: PauseType, level: int)
    requires ValidRun(lower, Init, run) && m + 1 < |run|
    requires run[m] == Do(Step(kind)) && kind != NoPause && At(lower, Init, run, m).isPaused
    requires var d := DepthAt(0, run, m);
             level == match kind case StepOut => d - 1 case StepOver => d case _ => d + 1
    requires forall i: nat | m < i < |run| - 1 ::
               !Resumes(At(lower, Init, run, i), run[i]) && !DueAt(lower, run, m, level, i)
    ensures At(lower, Init, run, |run|).phase == Waiting <==> DueAt(lower, run, m, level, |run| - 1)
  {
    hide Next, Quiet, StopsHere, OnCommand, Code, At, Inv, CanDo, DueAt, DepthAt, Resumes, HistoryFrame;
    var p, rest, n := At(lower, Init, run, m), run[m + 1..], |run| - m - 2;
    assert CanDo(At(lower, Init, run, |run| - 1), run[|run| - 1]);
    CommandAt(lower, run, m, Step(kind));
    SuffixAt(lower, Init, run, m + 1, n);
    SuffixAt(lower, Init, run, m + 1, n + 1);
    ReachableInv(lower, run, m, ContinueExecution);
    StackIsHistory(lower, run, m);
    StillQuiet(lower, run, m, level);
    DueIsStopsHere(lower, run, m, level, |run| - 1);
    StepStopsExactly(lower, p, kind, level, rest, n);
  }

  // ---------------------------------------------------------------- status

  /** The request that is pending, from the history of commands and breakpoint hits. */
  function PendingBy(lower: Lowering, run: seq<Action>, n: nat): (r: PauseType)
    requires n <= |run|
  {
    if n == 0 then NoPause
    else
      var before := PendingBy(lower, run, n - 1);
      match run[n - 1]
      case Do(PauseExecution) => if before == NoPause then StepIn else before
      case Do(ContinueExecution) => NoPause
      case Do(Step(kind)) => if At(lower, Init, run, n - 1).phase != Executing then kind else before
      case Vm(Line(line, _)) =>
        if DepthAt(0, run, n - 1) > 0 && ExpectedAt(lower, run, n - 1, line).Some? then StepIn else before
      case _ => before
  }

  /** The last line event before entry n. */
  function LastLine(run: seq<Action>, n: nat): (i: Option<nat>)
    requires n <= |run|
    ensures i.Some? ==> i.value < n && IsLine(run[i.value])
  {
    if n == 0 then None else if IsLine(run[n - 1]) then Some(n - 1) else LastLine(run, n - 1)
  }

  lemma RequestStep(lower: Lowering, s: State, a: Action)
    requires Inv(s) && CanDo(s, a)
    ensures Next(lower, s, a).request ==
            match a
            case Do(PauseExecution) => if s.request == NoPause then StepIn else s.request
            case Do(ContinueExecution) => NoPause
            case Do(Step(kind)) => if s.phase != Executing then kind else s.request
            case Vm(Line(line, _)) => if BreakpointAt(s, line).Some? then StepIn else s.request
            case _ => s.request
    ensures !IsLine(a) && Next(lower, s, a).phase != Executing ==>
              s.phase != Executing && Next(lower, s, a).status == s.status
  {
  }

  lemma NothingPending(lower: Lowering, run: seq<Action>)
    ensures At(lower, Init, run, 0).request == PendingBy(lower, run, 0) && At(lower, Init, run, 0).phase == Executing
  {
  }

  /** The pending request is the one the history calls for. */
  lemma {:induction false} RequestIsHistory(lower: Lowering, run: seq<Action>, n: nat)
    requires ValidRun(lower, Init, run) && n <= |run|
    ensures At(lower, Init, run, n).request == PendingBy(lower, run, n)
  {
    hide Next, CanDo, ExpectedAt, BreakpointAt, HistoryFrame, Inv;
    if n == 0 {
      NothingPending(lower, run);
    } else {
      RequestIsHistory(lower, run, n - 1);
      ReachableInv(lower, run, n - 1, ContinueExecution);
      var s, a := At(lower, Init, run, n - 1), run[n - 1];
      assert CanDo(s, a);
      RequestStep(lower, s, a);
      StackIsHistory(lower, run, n - 1);
      if IsLine(a) {
        LineHasFrame(lower, run, n - 1);
        BreakpointIsExpected(lower, run, n - 1, a.event.line);
      }
    }
  }

  /** In a pause, what is stored is what the last line event had to show. */
  ghost predicate ShownBy(lower: Lowering, run: seq<Action>, n: nat, status: Status)
    requires n <= |run|
  {
    match LastLine(run, n)
    case None => false
    case Some(i) =>
      DepthAt(0, run, i) > 0
      && ShowsPause(status, run[i].event.infos, ExpectedAt(lower, run, i, run[i].event.line))
  }

  lemma LinePhase(lower: Lowering, s: State, a: Action)
    requires CanDo(s, a) && IsLine(a)
    ensures Next(lower, s, a).phase != Executing ==> Next(lower, s, a).phase == Waiting
  {
  }

  lemma {:induction false} PauseIsShown(lower: Lowering, run: seq<Action>, n: nat)
    requires ValidRun(lower, Init, run) && n <= |run| && At(lower, Init, run, n).phase != Executing
    ensures ShownBy(lower, run, n, At(lower, Init, run, n).status)
  {
    hide Next, CanDo, ExpectedAt, BreakpointAt, HistoryFrame, Inv, DepthAt, ShowsPause;
    if n == 0 {
      NothingPending(lower, run);
    } else {
      var s, a := At(lower, Init, run, n - 1), run[n - 1];
      assert CanDo(s, a);
      ReachableInv(lower, run, n - 1, ContinueExecution);
      RequestStep(lower, s, a);
      if IsLine(a) {
        LineHitsExactly(lower, run, n - 1);
        LinePhase(lower, s, a);
      } else {
        PauseIsShown(lower, run, n - 1);
      }
    }
  }

  lemma StatusByRequest(s: State)
    requires Inv(s)
    ensures var r := SendStatus(s);
            if s.request != NoPause && s.phase != Executing then r == s.status
            else
              && r.stack == [] && r.pausedAtBreakpointId == 0
              && match s.request
                 case NoPause => r.runState == Running
                 case StepIn => r.runState == Pausing
                 case _ => r.runState == Stepping
  {
  }

  /**
   * The published status, at any moment of any run: Running when the history leaves no request
   * pending; while the VM is in a pause with a request, the pause of the last line event with the
   * stack and breakpoint it had to show; otherwise Pausing after a pause or step in and Stepping
   * after a step over or out.
   */
  lemma StatusIsHistory(lower: Lowering, run: seq<Action>, n: nat)
    requires ValidRun(lower, Init, run) && n <= |run|
    ensures var s := At(lower, Init, run, n);
            var status, pending := SendStatus(s), PendingBy(lower, run, n);
            if pending != NoPause && s.phase != Executing then ShownBy(lower, run, n, status)
            else
              && status.stack == [] && status.pausedAtBreakpointId == 0
              && match pending
                 case NoPause => status.runState == Running
                 case StepIn => status.runState == Pausing
                 case _ => status.runState == Stepping
  {
    hide Next, CanDo, At, PendingBy, ShownBy, Inv, SendStatus;
    var s := At(lower, Init, run, n);
    RequestIsHistory(lower, run, n);
    ReachableInv(lower, run, n, ContinueExecution);
    StatusByRequest(s);
    if s.phase != Executing {
      PauseIsShown(lower, run, n);
    }
  }

  /**
   * The answers, at any moment of any run: PauseExecution always succeeds, Continue exactly when
   * the history leaves a request pending, a step exactly while the VM has not left its pause, a
   * list of breakpoints exactly when it has no zero id or line.
   */
  lemma AnswersAreHistory(lower: Lowering, run: seq<Action>, n: nat, c: Command)
    requires ValidRun(lower, Init, run) && n <= |run|
    ensures var s := At(lower, Init, run, n);
            Code(s, c) ==
            match c
            case PauseExecution => Success
            case ContinueExecution => if PendingBy(lower, run, n) != NoPause then Success else InvalidNotPaused
            case Step(_) => if s.phase != Executing then Success else InvalidNotPaused
            case SetFileBreakpoints(_, entries) => if NoZeros(entries) then Success else InvalidParameter
  {
    hide Next, CanDo, At, PendingBy;
    RequestIsHistory(lower, run, n);
    ReachableInv(lower, run, n, ContinueExecution);
  }

  /** While the VM waits and nobody resumes it, every SendStatus repeats what was published at the pause. */
  lemma {:induction false} StatusIsStable(lower: Lowering, s: State, acts: seq<Action>, n: nat)
    requires n <= |acts| && Inv(s) && s.phase == Waiting
    requires forall i: nat | i < n :: acts[i].Do? ==> !acts[i].command.ContinueExecution? && !acts[i].command.Step?
    ensures SendStatus(At(lower, s, acts, n)) == s.status
    ensures At(lower, s, acts, n).phase == Waiting && Inv(At(lower, s, acts, n))
    ensures At(lower, s, acts, n).stack == s.stack
  {
    if n > 0 {
      StatusIsStable(lower, s, acts, n - 1);
    }
  }

  /** A new request, or a breakpoint hit, after the Continue. */
  ghost predicate Rearms(s: State, a: Action) {
    && CanDo(s, a)
    && match a
       case Do(PauseExecution) => true
       case Do(Step(_)) => s.isPaused
       case Vm(Line(line, _)) => BreakpointAt(s, line).Some?
       case _ => false
  }

  lemma StaysRunning(lower: Lowering, s: State, a: Action)
    requires s.request == NoPause && CanDo(s, a) && !Rearms(s, a)
    ensures Next(lower, s, a).request == NoPause
  {
  }

  lemma RearmingShows(lower: Lowering, s: State, a: Action)
    requires s.request == NoPause && Rearms(s, a)
    ensures CanDo(s, a) && SendStatus(Next(lower, s, a)).runState != Running
  {
  }

  /** After an accepted Continue the status is Running, even before the VM wakes, exactly until something re-arms. */
  lemma {:induction false} RunningUntilRearmed(lower: Lowering, s: State, acts: seq<Action>, n: nat)
    requires n <= |acts| && Accepted(s, ContinueExecution)
    requires var t := OnCommand(lower, s, ContinueExecution);
             forall i: nat | i < n :: !Rearms(At(lower, t, acts, i), acts[i])
    ensures var t := OnCommand(lower, s, ContinueExecution);
            && At(lower, t, acts, n).request == NoPause
            && SendStatus(At(lower, t, acts, n)).runState == Running
            && (n < |acts| && Rearms(At(lower, t, acts, n), acts[n]) ==>
                  SendStatus(At(lower, t, acts, n + 1)).runState != Running)
  {
    hide Next, CanDo, Rearms;
    var t := OnCommand(lower, s, ContinueExecution);
    if n > 0 {
      RunningUntilRearmed(lower, s, acts, n - 1);
      var p := At(lower, t, acts, n - 1);
      assert !Rearms(p, acts[n - 1]);
      if CanDo(p, acts[n - 1]) {
        StaysRunning(lower, p, acts[n - 1]);
      }
    }
    if n < |acts| && Rearms(At(lower, t, acts, n), acts[n]) {
      RearmingShows(lower, At(lower, t, acts, n), acts[n]);
    }
  }

  /** Entry i of the run is a request or a breakpoint hit. */
  ghost predicate RearmsAt(lower: Lowering, run: seq<Action>, i: nat)
    requires i < |run|
  {
    Rearms(At(lower, Init, run, i), run[i])
  }

  /** RunningUntilRearmed for a Continue in the middle of a run. */
  lemma ContinueInRunShows(lower: Lowering, run: seq<Action>, m: nat)
    requires m < |run| && run[m] == Do(ContinueExecution) && Accepted(At(lower, Init, run, m), ContinueExecution)
    requires forall i: nat | m < i < |run| - 1 :: !RearmsAt(lower, run, i)
    ensures SendStatus(At(lower, Init, run, |run|)).runState == Running
            <==> m == |run| - 1 || !RearmsAt(lower, run, |run| - 1)
  {
    hide Next, SendStatus, Accepted, OnCommand, Rearms, At, CanDo;
    var p, rest, n := At(lower, Init, run, m), run[m + 1..], |run| - m - 1;
    var t := OnCommand(lower, p, ContinueExecution);
    CommandAt(lower, run, m, ContinueExecution);
    forall i: nat | i <= n ensures At(lower, t, rest, i) == At(lower, Init, run, m + 1 + i) {
      SuffixAt(lower, Init, run, m + 1, i);
    }
    forall i: nat | i < n - 1 ensures !Rearms(At(lower, t, rest, i), rest[i]) {
      assert !RearmsAt(lower, run, m + 1 + i);
    }
    var quiet := if n > 0 && RearmsAt(lower, run, |run| - 1) then n - 1 else n;
    RunningUntilRearmed(lower, p, rest, quiet);
  }
}
