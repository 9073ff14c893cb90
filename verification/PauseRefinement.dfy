/**
 * Interleavings refine sequences of atomic steps. Every run of PauseProtocol without spurious
 * wake-ups, in which no pause writes its counter while the VM thread is inside its unlocked
 * increment, is a run of StepControl: each event and each command takes effect at one step of the thread
 * that performs it, with the answer that StepControl gives there.
 */
module PauseRefinement {
  import opened Common
  import opened PauseProtocol
  import S = StepControl

  // ---------------------------------------------------------------- what a step stands for

  /** The call event whose last step the VM thread is about to make, if it is one. */
  predicate EndsCall(s: State) {
    || (s.vm.CallTest? && s.data.request == S.NoPause)
    || (s.vm.CallCompare? && s.data.returnsRequired < 0)
    || s.vm.CallStore?
  }

  predicate EndsReturn(s: State) {
    (s.vm.ReturnTest? && s.data.request == S.NoPause) || s.vm.ReturnCount?
  }

  /**
   * The atomic step, if any, that takes effect with a step of the VM thread: a call or return at
   * its last access of the counter, a line event when it looks for a breakpoint under the lock,
   * the wake-up when isPaused is cleared.
   */
  function VmEmits(s: State): (acts: seq<S.Action>) {
    if EndsCall(s) then [S.Vm(S.Call(s.vm.source, s.vm.line))]
    else if EndsReturn(s) then [S.Vm(S.Return)]
    else if s.vm.LineCheck? then [S.Vm(S.Line(s.vm.line, s.vm.infos))]
    else if s.vm.Woken? then [S.Wake]
    else []
  }

  /** A command takes effect where its entry is made. */
  function CmdEmits(s: State, t: nat): (acts: seq<S.Action>)
    requires t < |s.cmds|
  {
    match s.cmds[t]
    case Peek(Cmd(c), _) => if PeekDecides(s.data, Cmd(c)).Some? then [S.Do(c)] else []
    case Body(Cmd(c), _) => [S.Do(c)]
    case _ => []
  }

  function Emits(s: State, a: Action): (acts: seq<S.Action>)
    requires Enabled(s, a)
    ensures |acts| <= 1
  {
    match a
    case VmStep => VmEmits(s)
    case CmdStep(t) => CmdEmits(s, t)
    case _ => []
  }

  /** The atomic steps of the first n actions, in the order in which they take effect. */
  function Trace(lower: S.Lowering, s: State, acts: seq<Action>, n: nat): (trace: seq<S.Action>)
    requires n <= |acts|
  {
    if n == 0 then []
    else
      var p := At(lower, s, acts, n - 1);
      Trace(lower, s, acts, n - 1) + (if Enabled(p, acts[n - 1]) then Emits(p, acts[n - 1]) else [])
  }

  // ---------------------------------------------------------------- the simulation relation

  ghost predicate Remarked(before: seq<S.Frame>, after: seq<S.Frame>, line: int) {
    |before| > 0 && after == before[|before| - 1 := before[|before| - 1].(line := line)]
  }

  /** The stack as the hook has changed it ahead of the atomic step it is about to make. */
  ghost predicate StackAhead(lower: S.Lowering, d: S.State, s: State) {
    match s.vm
    case CallTest(source, line) => s.data.stack == d.stack + [S.Frame(lower(source), line)]
    case CallCompare(source, line) => s.data.stack == d.stack + [S.Frame(lower(source), line)]
    case CallLoad(source, line) => s.data.stack == d.stack + [S.Frame(lower(source), line)]
    case CallStore(source, line, _) => s.data.stack == d.stack + [S.Frame(lower(source), line)]
    case ReturnTest => |d.stack| > 0 && s.data.stack == d.stack[..|d.stack| - 1]
    case ReturnLock => |d.stack| > 0 && s.data.stack == d.stack[..|d.stack| - 1]
    case ReturnCount => |d.stack| > 0 && s.data.stack == d.stack[..|d.stack| - 1]
    case LineLock(line, _) => Remarked(d.stack, s.data.stack, line)
    case LineCheck(line, _) => Remarked(d.stack, s.data.stack, line)
    case _ => s.data.stack == d.stack
  }

  /** The line event in progress is going to pause. */
  predicate WillPause(s: State) {
    s.vm.LineDecide? && s.data.request != S.NoPause && s.data.returnsRequired <= 0
  }

  /** What is published about a pause, which the hook does in two further steps. */
  ghost predicate PauseBehind(d: S.State, s: State) {
    if WillPause(s) then
      d.isPaused && d.phase == S.Waiting
      && d.status == S.Status(S.Paused, S.PopulateStack(s.vm.infos), s.vm.bpId)
    else
      && d.isPaused == s.data.isPaused && d.status == s.data.status
      && d.phase == if s.vm.LineWait? then S.Waiting else s.data.phase
  }

  /** Inside the increment the counter is still the one that was found fit, as long as it matters. */
  ghost predicate WindowIntact(s: State) {
    s.data.request != S.NoPause && !Unsettled(s) ==>
      && (s.vm.CallLoad? ==> s.data.returnsRequired >= 0)
      && (s.vm.CallStore? ==> s.data.returnsRequired == s.vm.loaded >= 0)
  }

  /** The same counter unless it is dead, or the one that a pause is about to write. */
  ghost predicate SameCounter(d: S.State, s: State) {
    if Unsettled(s) then d.returnsRequired == -1
    else s.data.request != S.NoPause ==> d.returnsRequired == s.data.returnsRequired
  }

  ghost predicate SameCore(d: S.State, s: State) {
    d.request == s.data.request && d.files == s.data.files && SameCounter(d, s)
  }

  ghost predicate Simulates(lower: S.Lowering, d: S.State, s: State) {
    SameCore(d, s) && StackAhead(lower, d, s) && PauseBehind(d, s) && WindowIntact(s)
  }

  // ---------------------------------------------------------------- one step

  /** The second write of a pause comes while the VM thread is inside its unlocked increment. */
  predicate PausesInWindow(s: State, a: Action) {
    a.CmdStep? && a.t < |s.cmds| && s.cmds[a.t].Arming? && InWindow(s.vm)
  }

  predicate Orderly(s: State, a: Action) {
    !a.Spurious? && !PausesInWindow(s, a)
  }

  /** The emitted step is possible in d and leads to a state that simulates r. */
  ghost predicate Follows(lower: S.Lowering, d: S.State, emitted: seq<S.Action>, r: State) {
    if emitted == [] then Simulates(lower, d, r)
    else S.CanDo(d, emitted[0]) && Simulates(lower, S.Next(lower, d, emitted[0]), r)
  }

  lemma CallFollows(lower: S.Lowering, d: S.State, s: State)
    requires Simulates(lower, d, s) && PausedAsSeen(s) && MutualExclusion(s)
    requires s.vm.CallLock? || s.vm.CallEnsure? || s.vm.CallPush? || s.vm.CallTest? || s.vm.CallCompare?
             || s.vm.CallLoad? || s.vm.CallStore?
    requires VmStepEnabled(s)
    ensures Follows(lower, d, VmEmits(s), VmNext(lower, s))
  {
  }

  lemma ReturnFollows(lower: S.Lowering, d: S.State, s: State)
    requires Simulates(lower, d, s) && PausedAsSeen(s) && MutualExclusion(s)
    requires s.vm.ReturnPop? || s.vm.ReturnTest? || s.vm.ReturnLock? || s.vm.ReturnCount?
    requires VmStepEnabled(s)
    ensures Follows(lower, d, VmEmits(s), VmNext(lower, s))
  {
  }

  lemma LineFollows(lower: S.Lowering, d: S.State, s: State)
    requires Simulates(lower, d, s) && PausedAsSeen(s) && MutualExclusion(s)
    requires s.vm.LineMark? || s.vm.LineLock? || s.vm.LineDecide? || s.vm.LineWait?
    requires VmStepEnabled(s)
    ensures Follows(lower, d, VmEmits(s), VmNext(lower, s))
  {
    hide S.PopulateStack;
  }

  /** Looking for a breakpoint under the lock decides the whole line event. */
  lemma CheckFollows(lower: S.Lowering, d: S.State, s: State)
    requires Simulates(lower, d, s) && PausedAsSeen(s) && MutualExclusion(s)
    requires s.vm.LineCheck? && VmStepEnabled(s)
    ensures Follows(lower, d, VmEmits(s), VmNext(lower, s))
  {
    hide S.PopulateStack, S.Lookup;
    assert S.BreakpointAt(s.data, s.vm.line) == S.BreakpointAt(d, s.vm.line);
  }

  lemma WakeFollows(lower: S.Lowering, d: S.State, s: State)
    requires Simulates(lower, d, s) && PausedAsSeen(s) && MutualExclusion(s)
    requires (s.vm.Waiting? || s.vm.Woken?) && VmStepEnabled(s)
    ensures Follows(lower, d, VmEmits(s), VmNext(lower, s))
  {
  }

  lemma VmFollows(lower: S.Lowering, d: S.State, s: State)
    requires Simulates(lower, d, s) && PausedAsSeen(s) && MutualExclusion(s) && VmStepEnabled(s)
    ensures Follows(lower, d, VmEmits(s), VmNext(lower, s))
  {
    hide Follows, Simulates, PausedAsSeen, MutualExclusion, VmEmits, VmNext;
    match s.vm
    case LineMark(_, _) => LineFollows(lower, d, s);
    case LineLock(_, _) => LineFollows(lower, d, s);
    case LineCheck(_, _) => CheckFollows(lower, d, s);
    case LineDecide(_, _) => LineFollows(lower, d, s);
    case LineWait => LineFollows(lower, d, s);
    case Waiting => WakeFollows(lower, d, s);
    case Woken => WakeFollows(lower, d, s);
    case ReturnPop => ReturnFollows(lower, d, s);
    case ReturnTest => ReturnFollows(lower, d, s);
    case ReturnLock => ReturnFollows(lower, d, s);
    case ReturnCount => ReturnFollows(lower, d, s);
    case _ => CallFollows(lower, d, s);
  }

  /** The lock keeps commands out while the hook is ahead of what it has published. */
  lemma BodyFollows(lower: S.Lowering, d: S.State, s: State, t: nat, c: S.Command)
    requires Simulates(lower, d, s) && PausedAsSeen(s) && MutualExclusion(s)
    requires t < |s.cmds| && s.cmds[t].Body? && s.cmds[t].op == Cmd(c) && (c.Step? ==> c.kind != S.NoPause)
    ensures Follows(lower, d, [S.Do(c)], CmdNext(lower, s, t)) && S.Code(d, c) == S.Code(s.data, c)
  {
    hide S.AddAll, S.PopulateStack;
    assert s.owner == Commander(t);
    assert !VmHolds(s.vm);
  }

  /** The second write of a pause, outside the window, gives the counter its value in d. */
  lemma ArmingFollows(lower: S.Lowering, d: S.State, s: State, t: nat)
    requires Simulates(lower, d, s) && PausedAsSeen(s) && MutualExclusion(s)
    requires t < |s.cmds| && s.cmds[t].Arming? && !InWindow(s.vm)
    ensures Simulates(lower, d, CmdNext(lower, s, t))
  {
    assert s.owner == Commander(t);
    assert !VmHolds(s.vm);
  }

  lemma PeekFollows(lower: S.Lowering, d: S.State, s: State, t: nat, c: S.Command)
    requires Simulates(lower, d, s) && MutualExclusion(s)
    requires t < |s.cmds| && s.cmds[t].Peek? && s.cmds[t].op == Cmd(c) && PeekDecides(s.data, Cmd(c)).Some?
    ensures Follows(lower, d, [S.Do(c)], CmdNext(lower, s, t)) && S.Code(d, c) == S.Code(s.data, c)
  {
    hide S.PopulateStack;
    PeekIsAtomic(lower, d, Cmd(c));
    PeekIsAtomic(lower, s.data, Cmd(c));
  }

  lemma SameDataFollows(lower: S.Lowering, d: S.State, s: State, r: State)
    requires Simulates(lower, d, s) && r.data == s.data && r.vm == s.vm && Unsettled(r) == Unsettled(s)
    ensures Simulates(lower, d, r)
  {
  }

  /** Only a pause's own two steps make the shared counter lag behind and catch up. */
  lemma SettledKept(lower: S.Lowering, s: State, t: nat)
    requires MutualExclusion(s) && t < |s.cmds| && CmdStepEnabled(s, t) && !s.cmds[t].Arming?
    requires !(s.cmds[t].Body? && s.cmds[t].op.Cmd?)
    ensures Unsettled(CmdNext(lower, s, t)) == Unsettled(s)
  {
  }

  lemma CmdFollows(lower: S.Lowering, d: S.State, s: State, t: nat)
    requires Simulates(lower, d, s) && PausedAsSeen(s) && MutualExclusion(s) && WellFormedSteps(s)
    requires t < |s.cmds| && CmdStepEnabled(s, t) && Orderly(s, CmdStep(t))
    ensures Follows(lower, d, CmdEmits(s, t), CmdNext(lower, s, t))
  {
    hide Simulates, PausedAsSeen, MutualExclusion, Unsettled, S.OnCommand, S.Code, PeekDecides;
    var pc := s.cmds[t];
    if pc.Body? && pc.op.Cmd? {
      BodyFollows(lower, d, s, t, pc.op.command);
    } else if pc.Peek? && PeekDecides(s.data, pc.op).Some? {
      PeekFollows(lower, d, s, t, pc.op.command);
    } else if pc.Arming? {
      ArmingFollows(lower, d, s, t);
    } else {
      SettledKept(lower, s, t);
      SameDataFollows(lower, d, s, CmdNext(lower, s, t));
    }
  }

  /** Outside the hook nothing shared changes; an event that begins changes nothing yet. */
  lemma QuietFollows(lower: S.Lowering, d: S.State, s: State, a: Action)
    requires Simulates(lower, d, s) && PausedAsSeen(s) && Enabled(s, a) && Orderly(s, a)
    requires !a.VmStep? && !a.CmdStep?
    ensures Simulates(lower, d, Next(lower, s, a))
  {
  }

  lemma StepFollows(lower: S.Lowering, d: S.State, s: State, a: Action)
    requires Simulates(lower, d, s) && Inv(lower, s) && WellFormedSteps(s) && Enabled(s, a) && Orderly(s, a)
    ensures Follows(lower, d, Emits(s, a), Next(lower, s, a))
  {
    hide Simulates, HistoryExplains, QueriesSeeOneState, WellFormedSteps, VmEmits, CmdEmits, VmNext, CmdNext, Orderly;
    match a
    case VmStep => VmFollows(lower, d, s);
    case CmdStep(t) => CmdFollows(lower, d, s, t);
    case _ => QuietFollows(lower, d, s, a);
  }

  // ---------------------------------------------------------------- whole runs

  ghost predicate OrderlyAt(lower: S.Lowering, s: State, acts: seq<Action>, i: nat)
    requires i < |acts|
  {
    var p := At(lower, s, acts, i);
    Enabled(p, acts[i]) ==> Orderly(p, acts[i])
  }

  lemma {:induction false} PrefixAt(lower: S.Lowering, s: S.State, run: seq<S.Action>, more: seq<S.Action>, n: nat)
    requires n <= |run|
    ensures S.At(lower, s, run + more, n) == S.At(lower, s, run, n)
  {
    hide S.Next, S.CanDo;
    if n > 0 {
      PrefixAt(lower, s, run, more, n - 1);
    }
  }

  /** One more possible step at the end of a run. */
  lemma LastAt(lower: S.Lowering, s: S.State, run: seq<S.Action>)
    requires run != []
    ensures var d := S.At(lower, s, run, |run| - 1);
            S.At(lower, s, run, |run|) == if S.CanDo(d, run[|run| - 1]) then S.Next(lower, d, run[|run| - 1]) else d
  {
    hide S.Next, S.CanDo;
  }

  lemma RunExtends(lower: S.Lowering, s: S.State, run: seq<S.Action>, more: seq<S.Action>)
    requires |more| <= 1 && S.ValidRun(lower, s, run)
    requires more != [] ==> S.CanDo(S.At(lower, s, run, |run|), more[0])
    ensures S.ValidRun(lower, s, run + more)
    ensures S.At(lower, s, run + more, |run + more|) ==
            if more == [] then S.At(lower, s, run, |run|) else S.Next(lower, S.At(lower, s, run, |run|), more[0])
  {
    hide S.Next, S.CanDo, S.At;
    var longer := run + more;
    PrefixAt(lower, s, run, more, |run|);
    if more == [] {
      assert longer == run;
    } else {
      LastAt(lower, s, longer);
      forall i: nat | i < |longer| ensures S.CanDo(S.At(lower, s, longer, i), longer[i]) {
        if i < |run| {
          PrefixAt(lower, s, run, more, i);
          assert S.CanDo(S.At(lower, s, run, i), run[i]);
        }
      }
    }
  }

  lemma StartSimulates(lower: S.Lowering, threads: nat)
    ensures Simulates(lower, S.Init, Init(threads))
  {
  }

  lemma NothingTraced(lower: S.Lowering, threads: nat, acts: seq<Action>)
    ensures var trace := Trace(lower, Init(threads), acts, 0);
            S.ValidRun(lower, S.Init, trace)
            && Simulates(lower, S.At(lower, S.Init, trace, |trace|), At(lower, Init(threads), acts, 0))
  {
    StartSimulates(lower, threads);
  }

  /**
   * The refinement: the atomic steps of an orderly interleaving, in the order in which they take
   * effect, are a run of StepControl, and at every moment its state is the shared data, except
   * for what the hook has done ahead of or not yet published for the event it is in the middle of,
   * and a counter that is dead.
   */
  lemma {:induction false} InterleavingsRefine(lower: S.Lowering, threads: nat, acts: seq<Action>, n: nat)
    requires n <= |acts|
    requires forall i: nat | i < n :: OrderlyAt(lower, Init(threads), acts, i)
    ensures var s, trace := At(lower, Init(threads), acts, n), Trace(lower, Init(threads), acts, n);
            && S.ValidRun(lower, S.Init, trace)
            && Simulates(lower, S.At(lower, S.Init, trace, |trace|), s)
  {
    hide Next, Enabled, Emits, Simulates, Inv, Init, S.ValidRun, Orderly, WellFormedSteps, S.Next, S.CanDo;
    if n == 0 {
      NothingTraced(lower, threads, acts);
    } else {
      InterleavingsRefine(lower, threads, acts, n - 1);
      var p, run := At(lower, Init(threads), acts, n - 1), Trace(lower, Init(threads), acts, n - 1);
      assert OrderlyAt(lower, Init(threads), acts, n - 1);
      if Enabled(p, acts[n - 1]) {
        var emitted := Emits(p, acts[n - 1]);
        Reachable(lower, threads, acts, n - 1);
        ReachableFloor(lower, threads, acts, n - 1);
        StepFollows(lower, S.At(lower, S.Init, run, |run|), p, acts[n - 1]);
        RunExtends(lower, S.Init, run, emitted);
      } else {
        assert run + [] == run;
      }
    }
  }

  // ---------------------------------------------------------------- what the run contains

  datatype Answer = Answer(command: S.Command, code: ReturnCode)

  function AnswerTo(d: S.State, a: S.Action): (answers: seq<Answer>) {
    if a.Do? then [Answer(a.command, S.Code(d, a.command))] else []
  }

  /** The commands of a sequential run with the codes StepControl gives them. */
  function Answers(lower: S.Lowering, s: S.State, run: seq<S.Action>, n: nat): (answers: seq<Answer>)
    requires n <= |run|
  {
    if n == 0 then [] else Answers(lower, s, run, n - 1) + AnswerTo(S.At(lower, s, run, n - 1), run[n - 1])
  }

  function ReturnedBy(e: Entry): (answers: seq<Answer>) {
    if e.Commanded? then [Answer(e.command, e.code)] else []
  }

  /** The commands of a history with the codes that were returned. */
  function Returned(log: seq<Entry>): (answers: seq<Answer>) {
    if log == [] then [] else Returned(log[..|log| - 1]) + ReturnedBy(log[|log| - 1])
  }

  /** The events of a sequential run. */
  function Events(run: seq<S.Action>): (events: seq<S.Event>) {
    if run == [] then []
    else Events(run[..|run| - 1]) + (if run[|run| - 1].Vm? then [run[|run| - 1].event] else [])
  }

  function RaisedBy(s: State, a: Action): (events: seq<S.Event>) {
    if !Enabled(s, a) then []
    else
      match a
      case VmCall(source, line, _) => [S.Call(source, line)]
      case VmReturn => [S.Return]
      case VmLine(line, infos) => [S.Line(line, infos)]
      case _ => []
  }

  /** The events the script raised in the first n actions. */
  function Raised(lower: S.Lowering, s: State, acts: seq<Action>, n: nat): (events: seq<S.Event>)
    requires n <= |acts|
  {
    if n == 0 then []
    else Raised(lower, s, acts, n - 1) + RaisedBy(At(lower, s, acts, n - 1), acts[n - 1])
  }

  /** The event the hook is handling, until it takes effect. */
  function InProgress(pc: VmPc): (events: seq<S.Event>) {
    match pc
    case CallLock(source, line) => [S.Call(source, line)]
    case CallEnsure(source, line) => [S.Call(source, line)]
    case CallPush(source, line) => [S.Call(source, line)]
    case CallTest(source, line) => [S.Call(source, line)]
    case CallCompare(source, line) => [S.Call(source, line)]
    case CallLoad(source, line) => [S.Call(source, line)]
    case CallStore(source, line, _) => [S.Call(source, line)]
    case ReturnPop => [S.Return]
    case ReturnTest => [S.Return]
    case ReturnLock => [S.Return]
    case ReturnCount => [S.Return]
    case LineMark(line, infos) => [S.Line(line, infos)]
    case LineLock(line, infos) => [S.Line(line, infos)]
    case LineCheck(line, infos) => [S.Line(line, infos)]
    case _ => []
  }

  lemma EventsOf(emitted: seq<S.Action>)
    requires |emitted| <= 1
    ensures Events(emitted) == if emitted != [] && emitted[0].Vm? then [emitted[0].event] else []
  {
    if emitted != [] {
      assert emitted[..0] == [];
    }
  }

  lemma VmEventsStep(lower: S.Lowering, s: State)
    requires VmStepEnabled(s)
    ensures InProgress(s.vm) + [] == Events(VmEmits(s)) + InProgress(VmNext(lower, s).vm)
  {
    hide Apply, S.BreakpointAt, S.PopulateStack, Events;
    EventsOf(VmEmits(s));
  }

  lemma CmdEventsStep(lower: S.Lowering, s: State, t: nat)
    requires t < |s.cmds| && CmdStepEnabled(s, t)
    ensures InProgress(s.vm) + [] == Events(CmdEmits(s, t)) + InProgress(CmdNext(lower, s, t).vm)
  {
    hide S.OnCommand, S.Code, S.SendStatus, PeekDecides, Events, InProgress;
    EventsOf(CmdEmits(s, t));
  }

  lemma ScriptEventsStep(lower: S.Lowering, s: State, a: Action)
    requires Enabled(s, a) && !a.VmStep? && !a.CmdStep?
    ensures InProgress(s.vm) + RaisedBy(s, a) == Events(Emits(s, a)) + InProgress(Next(lower, s, a).vm)
  {
    hide Apply;
  }

  /** A step moves an event from in progress to done, or starts one. */
  lemma EventsStep(lower: S.Lowering, s: State, a: Action)
    requires Enabled(s, a)
    ensures InProgress(s.vm) + RaisedBy(s, a) == Events(Emits(s, a)) + InProgress(Next(lower, s, a).vm)
  {
    hide VmNext, CmdNext, VmEmits, CmdEmits, Events, InProgress;
    match a
    case VmStep => VmEventsStep(lower, s);
    case CmdStep(t) => CmdEventsStep(lower, s, t);
    case _ => ScriptEventsStep(lower, s, a);
  }

  lemma {:induction false} EventsJoin(run: seq<S.Action>, more: seq<S.Action>)
    requires |more| <= 1
    ensures Events(run + more) == Events(run) + Events(more)
  {
    if more == [] {
      assert run + more == run;
    } else {
      assert (run + more)[..|run|] == run && more[..0] == [];
    }
  }

  lemma JoinEvents(done: seq<S.Event>, before: seq<S.Event>, raised: seq<S.Event>, emitted: seq<S.Event>, after: seq<S.Event>)
    requires before + raised == emitted + after
    ensures done + before + raised == done + emitted + after
  {
    assert done + before + raised == done + (before + raised);
  }

  lemma NotRaised(s: State, a: Action)
    requires !Enabled(s, a)
    ensures RaisedBy(s, a) == []
  {
  }

  lemma NoEventsYet(threads: nat)
    ensures Events([]) == [] && InProgress(Init(threads).vm) == []
  {
  }

  /** The trace holds exactly the events the script raised, in order, but for the one in progress. */
  lemma {:induction false} TraceHasEvents(lower: S.Lowering, threads: nat, acts: seq<Action>, n: nat)
    requires n <= |acts|
    ensures Events(Trace(lower, Init(threads), acts, n)) + InProgress(At(lower, Init(threads), acts, n).vm)
         == Raised(lower, Init(threads), acts, n)
  {
    hide Next, Enabled, Emits, InProgress, RaisedBy, Events, Init;
    if n == 0 {
      NoEventsYet(threads);
    } else {
      TraceHasEvents(lower, threads, acts, n - 1);
      var p, run, a := At(lower, Init(threads), acts, n - 1), Trace(lower, Init(threads), acts, n - 1), acts[n - 1];
      if Enabled(p, a) {
        EventsStep(lower, p, a);
        EventsJoin(run, Emits(p, a));
        JoinEvents(Events(run), InProgress(p.vm), RaisedBy(p, a), Events(Emits(p, a)), InProgress(Next(lower, p, a).vm));
      } else {
        NotRaised(p, a);
        assert run + [] == run;
      }
    }
  }

  lemma ReturnedGrows(log: seq<Entry>, longer: seq<Entry>)
    requires longer == log || (|longer| == |log| + 1 && longer[..|log|] == log)
    ensures Returned(longer) == Returned(log) + (if longer == log then [] else ReturnedBy(longer[|log|]))
  {
  }

  lemma CmdAnswers(lower: S.Lowering, d: S.State, s: State, t: nat)
    requires Simulates(lower, d, s) && PausedAsSeen(s) && MutualExclusion(s) && WellFormedSteps(s)
    requires t < |s.cmds| && CmdStepEnabled(s, t) && Orderly(s, CmdStep(t))
    ensures var r, emitted := CmdNext(lower, s, t), CmdEmits(s, t);
            Returned(r.log) == Returned(s.log) + (if emitted == [] then [] else AnswerTo(d, emitted[0]))
  {
    hide Simulates, Returned, PausedAsSeen, MutualExclusion, S.OnCommand, PeekDecides;
    var pc, r := s.cmds[t], CmdNext(lower, s, t);
    ReturnedGrows(s.log, r.log);
    if pc.Body? && pc.op.Cmd? {
      BodyFollows(lower, d, s, t, pc.op.command);
    } else if pc.Peek? && PeekDecides(s.data, pc.op).Some? {
      PeekFollows(lower, d, s, t, pc.op.command);
      PeekIsAtomic(lower, s.data, pc.op);
    }
  }

  /** A command's entry carries the code that its emitted step gets in the simulating state. */
  lemma AnswersStep(lower: S.Lowering, d: S.State, s: State, a: Action)
    requires Simulates(lower, d, s) && Inv(lower, s) && WellFormedSteps(s) && Enabled(s, a) && Orderly(s, a)
    ensures var r, emitted := Next(lower, s, a), Emits(s, a);
            Returned(r.log) == Returned(s.log) + (if emitted == [] then [] else AnswerTo(d, emitted[0]))
  {
    hide Simulates, Returned, HistoryExplains, QueriesSeeOneState, WellFormedSteps, CmdNext, VmNext, Orderly, PausedAsSeen,
         MutualExclusion, S.Code;
    match a
    case VmStep =>
      VmStepIsOneEffect(lower, s);
      ReturnedGrows(s.log, Next(lower, s, a).log);
    case CmdStep(t) => CmdAnswers(lower, d, s, t);
    case Spurious => ReturnedGrows(s.log, Next(lower, s, a).log);
    case _ => assert Returned(s.log) + [] == Returned(s.log);
  }

  lemma {:induction false} AnswersPrefix(lower: S.Lowering, s: S.State, run: seq<S.Action>, more: seq<S.Action>, n: nat)
    requires n <= |run|
    ensures Answers(lower, s, run + more, n) == Answers(lower, s, run, n)
  {
    hide AnswerTo, S.At;
    if n > 0 {
      AnswersPrefix(lower, s, run, more, n - 1);
      PrefixAt(lower, s, run, more, n - 1);
    }
  }

  lemma AnswersLast(lower: S.Lowering, s: S.State, run: seq<S.Action>)
    requires run != []
    ensures Answers(lower, s, run, |run|) ==
            Answers(lower, s, run, |run| - 1) + AnswerTo(S.At(lower, s, run, |run| - 1), run[|run| - 1])
  {
    hide AnswerTo, S.At;
  }

  lemma AnswersExtend(lower: S.Lowering, s: S.State, run: seq<S.Action>, more: seq<S.Action>)
    requires |more| <= 1
    ensures Answers(lower, s, run + more, |run + more|) == Answers(lower, s, run, |run|) +
            (if more == [] then [] else AnswerTo(S.At(lower, s, run, |run|), more[0]))
  {
    hide AnswerTo, Answers, S.At;
    if more == [] {
      assert run + more == run;
    } else {
      AnswersLast(lower, s, run + more);
      AnswersPrefix(lower, s, run, more, |run|);
      PrefixAt(lower, s, run, more, |run|);
    }
  }

  lemma NoAnswersYet(lower: S.Lowering)
    ensures Answers(lower, S.Init, [], 0) == [] && Returned([]) == []
  {
  }

  /** The commands took effect in the order of the trace, and every one returned the code it has there. */
  lemma {:induction false} TraceHasAnswers(lower: S.Lowering, threads: nat, acts: seq<Action>, n: nat)
    requires n <= |acts|
    requires forall i: nat | i < n :: OrderlyAt(lower, Init(threads), acts, i)
    ensures var trace := Trace(lower, Init(threads), acts, n);
            Answers(lower, S.Init, trace, |trace|) == Returned(At(lower, Init(threads), acts, n).log)
  {
    hide Next, Enabled, Emits, Simulates, Inv, S.ValidRun, Orderly, WellFormedSteps, Answers, AnswerTo, S.Next, S.CanDo;
    if n == 0 {
      NoAnswersYet(lower);
    } else {
      TraceHasAnswers(lower, threads, acts, n - 1);
      InterleavingsRefine(lower, threads, acts, n - 1);
      var p, run := At(lower, Init(threads), acts, n - 1), Trace(lower, Init(threads), acts, n - 1);
      assert OrderlyAt(lower, Init(threads), acts, n - 1);
      if Enabled(p, acts[n - 1]) {
        Reachable(lower, threads, acts, n - 1);
        ReachableFloor(lower, threads, acts, n - 1);
        AnswersStep(lower, S.At(lower, S.Init, run, |run|), p, acts[n - 1]);
        AnswersExtend(lower, S.Init, run, Emits(p, acts[n - 1]));
      } else {
        assert run + [] == run;
      }
    }
  }

  // ---------------------------------------------------------------- consequences

  /** Equal up to a counter that is dead, or that a pause has still to write. */
  ghost predicate Agree(d: S.State, s: State) {
    if Unsettled(s) then d == s.data.(returnsRequired := -1) else S.SameButDeadCounter(d, s.data)
  }

  /** While the script runs or waits in a pause, the shared data is the sequential state. */
  lemma AtRestStatesAgree(lower: S.Lowering, threads: nat, acts: seq<Action>, n: nat)
    requires n <= |acts|
    requires forall i: nat | i < n :: OrderlyAt(lower, Init(threads), acts, i)
    requires var vm := At(lower, Init(threads), acts, n).vm; vm.Script? || vm.Waiting?
    ensures var trace := Trace(lower, Init(threads), acts, n);
            Agree(S.At(lower, S.Init, trace, |trace|), At(lower, Init(threads), acts, n))
  {
    hide At, Init, Trace, S.At, S.ValidRun;
    InterleavingsRefine(lower, threads, acts, n);
  }

  /**
   * What a query reads in a pause, whatever other clients did meanwhile, is the stack of the
   * script's open calls, each frame with the line last executed in it.
   */
  lemma PausedStackIsHistory(lower: S.Lowering, threads: nat, acts: seq<Action>, n: nat)
    requires n <= |acts|
    requires forall i: nat | i < n :: OrderlyAt(lower, Init(threads), acts, i)
    requires var vm := At(lower, Init(threads), acts, n).vm; vm.Script? || vm.Waiting?
    ensures var stack, trace := At(lower, Init(threads), acts, n).data.stack, Trace(lower, Init(threads), acts, n);
            && |stack| == S.DepthAt(0, trace, |trace|)
            && forall j: nat | j < |stack| :: stack[j] == S.HistoryFrame(lower, trace, |trace|, j)
  {
    hide At, Init, Trace, S.At, S.ValidRun, S.HistoryFrame, S.DepthAt, OrderlyAt;
    AtRestStatesAgree(lower, threads, acts, n);
    InterleavingsRefine(lower, threads, acts, n);
    var trace := Trace(lower, Init(threads), acts, n);
    S.StackIsHistory(lower, trace, |trace|);
  }

  lemma CheckedBreakpoint(lower: S.Lowering, d: S.State, s: State)
    requires Simulates(lower, d, s) && s.vm.LineCheck?
    ensures |d.stack| > 0 && |s.data.stack| > 0 && S.BreakpointAt(s.data, s.vm.line) == S.BreakpointAt(d, s.vm.line)
  {
  }

  lemma AfterStep(lower: S.Lowering, threads: nat, acts: seq<Action>, n: nat)
    requires n < |acts| && Enabled(At(lower, Init(threads), acts, n), acts[n])
    ensures At(lower, Init(threads), acts, n + 1) == Next(lower, At(lower, Init(threads), acts, n), acts[n])
  {
  }

  lemma CheckDecides(lower: S.Lowering, s: State)
    requires s.vm.LineCheck? && VmStepEnabled(s)
    ensures var r, bp := VmNext(lower, s), S.BreakpointAt(s.data, s.vm.line);
            && (WillPause(r) <==> bp.Some? || (s.data.request != S.NoPause && s.data.returnsRequired <= 0))
            && r.vm.LineDecide? && (WillPause(r) ==> S.ShowsPause(VmNext(lower, r).data.status, s.vm.infos, bp))
  {
  }

  /**
   * Every line event that takes effect in an interleaving, at the step of the VM thread that looks
   * for its breakpoint, has the outcome that the history of commands and calls calls for.
   */
  lemma InterleavedLineHitsExactly(lower: S.Lowering, threads: nat, acts: seq<Action>, n: nat)
    requires n < |acts| && acts[n] == VmStep
    requires forall i: nat | i <= n :: OrderlyAt(lower, Init(threads), acts, i)
    requires At(lower, Init(threads), acts, n).vm.LineCheck? && Enabled(At(lower, Init(threads), acts, n), VmStep)
    ensures var s, r := At(lower, Init(threads), acts, n), At(lower, Init(threads), acts, n + 1);
            var trace := Trace(lower, Init(threads), acts, n);
            && S.DepthAt(0, trace, |trace|) > 0
            && var bp := S.ExpectedAt(lower, trace, |trace|, s.vm.line);
               && (WillPause(r) <==> bp.Some? || (s.data.request != S.NoPause && s.data.returnsRequired <= 0))
               && (WillPause(r) ==> S.ShowsPause(VmNext(lower, r).data.status, s.vm.infos, bp))
  {
    hide At, Init, Trace, S.At, S.ValidRun, S.ExpectedAt, S.DepthAt, OrderlyAt, S.BreakpointAt, Simulates;
    InterleavingsRefine(lower, threads, acts, n);
    var s, trace := At(lower, Init(threads), acts, n), Trace(lower, Init(threads), acts, n);
    var d := S.At(lower, S.Init, trace, |trace|);
    CheckedBreakpoint(lower, d, s);
    S.BreakpointIsExpected(lower, trace, |trace|, s.vm.line);
    AfterStep(lower, threads, acts, n);
    CheckDecides(lower, s);
  }

  lemma StepsAreReal(lower: S.Lowering, run: seq<S.Action>, m: nat)
    requires S.ValidRun(lower, S.Init, run) && m < |run| && run[m].Do? && run[m].command.Step?
    ensures run[m].command.kind != S.NoPause
  {
    assert S.CanDo(S.At(lower, S.Init, run, m), run[m]);
  }

  lemma LineIsTraced(lower: S.Lowering, threads: nat, acts: seq<Action>, n: nat)
    requires n < |acts| && acts[n] == VmStep
    requires At(lower, Init(threads), acts, n).vm.LineCheck? && Enabled(At(lower, Init(threads), acts, n), VmStep)
    ensures var s := At(lower, Init(threads), acts, n);
            Trace(lower, Init(threads), acts, n + 1) ==
            Trace(lower, Init(threads), acts, n) + [S.Vm(S.Line(s.vm.line, s.vm.infos))]
  {
    hide At, Init, VmNext, VmStepEnabled;
  }

  lemma DecidedShows(lower: S.Lowering, d: S.State, r: State)
    requires Simulates(lower, d, r) && PausedAsSeen(r) && r.vm.LineDecide?
    ensures WillPause(r) <==> d.phase == S.Waiting
  {
  }

  /**
   * A step taken in the middle of any interleaving stops exactly where it should: the line event
   * decided at action n pauses if and only if it has a breakpoint, or its depth is at most the
   * step's level, or the depth had fallen below that before, as long as that was true of no line
   * event since the step and nobody has resumed the VM again. Depth, level and breakpoint are
   * those of the history of commands and events.
   */
  lemma InterleavedStepStops(
    lower: S.Lowering, threads: nat, acts: seq<Action>, n: nat, m: nat, kind: S.PauseType, level: int)
    requires n < |acts| && acts[n] == VmStep
    requires forall i: nat | i <= n :: OrderlyAt(lower, Init(threads), acts, i)
    requires At(lower, Init(threads), acts, n).vm.LineCheck? && Enabled(At(lower, Init(threads), acts, n), VmStep)
    requires var run := Trace(lower, Init(threads), acts, n + 1);
             && m + 1 < |run| && run[m] == S.Do(S.Step(kind)) && S.At(lower, S.Init, run, m).isPaused
             && level == (var d := S.DepthAt(0, run, m);
                          match kind case StepOut => d - 1 case StepOver => d case _ => d + 1)
             && forall i: nat | m < i < |run| - 1 ::
                  !S.Resumes(S.At(lower, S.Init, run, i), run[i]) && !S.DueAt(lower, run, m, level, i)
    ensures var s, run := At(lower, Init(threads), acts, n), Trace(lower, Init(threads), acts, n + 1);
            && run == Trace(lower, Init(threads), acts, n) + [S.Vm(S.Line(s.vm.line, s.vm.infos))]
            && (WillPause(At(lower, Init(threads), acts, n + 1)) <==> S.DueAt(lower, run, m, level, |run| - 1))
  {
    hide At, Init, Trace, S.At, S.ValidRun, S.DepthAt, S.DueAt, S.Resumes, OrderlyAt, Simulates, WillPause, PausedAsSeen,
         MutualExclusion, QueriesSeeOneState, HistoryExplains;
    var run := Trace(lower, Init(threads), acts, n + 1);
    InterleavingsRefine(lower, threads, acts, n + 1);
    LineIsTraced(lower, threads, acts, n);
    StepsAreReal(lower, run, m);
    S.StepInRunStops(lower, run, m, kind, level);
    Reachable(lower, threads, acts, n + 1);
    AfterStep(lower, threads, acts, n);
    CheckDecides(lower, At(lower, Init(threads), acts, n));
    DecidedShows(lower, S.At(lower, S.Init, run, |run|), At(lower, Init(threads), acts, n + 1));
  }

  // ---------------------------------------------------------------- reported statuses

  predicate AboutToReport(s: State, t: nat) {
    t < |s.cmds| && s.cmds[t].Body? && s.cmds[t].op == Status
  }

  /** The status that SendStatus is about to publish is the one of the sequential state. */
  lemma ReportFollows(lower: S.Lowering, d: S.State, s: State, t: nat)
    requires Simulates(lower, d, s) && MutualExclusion(s) && AboutToReport(s, t)
    ensures CmdNext(lower, s, t).log == s.log + [Reported(t, S.SendStatus(d))]
  {
    hide S.PopulateStack;
    assert s.owner == Commander(t);
    assert !VmHolds(s.vm);
  }

  /** Every status published in an interleaving is the one that StepControl gives at that moment of the trace. */
  lemma ReportsAreSequential(lower: S.Lowering, threads: nat, acts: seq<Action>, n: nat, t: nat)
    requires n < |acts| && acts[n] == CmdStep(t) && AboutToReport(At(lower, Init(threads), acts, n), t)
    requires forall i: nat | i < n :: OrderlyAt(lower, Init(threads), acts, i)
    ensures var run := Trace(lower, Init(threads), acts, n);
            At(lower, Init(threads), acts, n + 1).log ==
            At(lower, Init(threads), acts, n).log + [Reported(t, S.SendStatus(S.At(lower, S.Init, run, |run|)))]
  {
    hide At, Init, Trace, S.At, S.ValidRun, S.SendStatus, OrderlyAt, Simulates;
    var s, run := At(lower, Init(threads), acts, n), Trace(lower, Init(threads), acts, n);
    InterleavingsRefine(lower, threads, acts, n);
    Reachable(lower, threads, acts, n);
    AfterStep(lower, threads, acts, n);
    ReportFollows(lower, S.At(lower, S.Init, run, |run|), s, t);
  }

  /** So every status published in an interleaving is the one that the history of commands and events calls for. */
  lemma ReportsAreHistory(lower: S.Lowering, threads: nat, acts: seq<Action>, n: nat, t: nat)
    requires n < |acts| && acts[n] == CmdStep(t) && AboutToReport(At(lower, Init(threads), acts, n), t)
    requires forall i: nat | i < n :: OrderlyAt(lower, Init(threads), acts, i)
    ensures var run, r := Trace(lower, Init(threads), acts, n), At(lower, Init(threads), acts, n + 1);
            && r.log != [] && r.log[|r.log| - 1].Reported?
            && var status, pending := r.log[|r.log| - 1].status, S.PendingBy(lower, run, |run|);
               if pending != S.NoPause && S.At(lower, S.Init, run, |run|).phase != S.Executing
               then S.ShownBy(lower, run, |run|, status)
               else
                 && status.stack == [] && status.pausedAtBreakpointId == 0
                 && match pending
                    case NoPause => status.runState == S.Running
                    case StepIn => status.runState == S.Pausing
                    case _ => status.runState == S.Stepping
  {
    hide At, Init, Trace, S.At, S.ValidRun, S.SendStatus, OrderlyAt, AboutToReport, Simulates, S.PendingBy, S.ShownBy;
    var run := Trace(lower, Init(threads), acts, n);
    InterleavingsRefine(lower, threads, acts, n);
    ReportsAreSequential(lower, threads, acts, n, t);
    S.StatusIsHistory(lower, run, |run|);
  }

  /** Until somebody resumes the VM, every status published since a pause is the one of that pause. */
  lemma PausedReportIsStable(lower: S.Lowering, threads: nat, acts: seq<Action>, n: nat, t: nat, m: nat)
    requires n < |acts| && acts[n] == CmdStep(t) && AboutToReport(At(lower, Init(threads), acts, n), t)
    requires forall i: nat | i < n :: OrderlyAt(lower, Init(threads), acts, i)
    requires var run := Trace(lower, Init(threads), acts, n);
             && m <= |run| && S.At(lower, S.Init, run, m).phase == S.Waiting
             && forall i: nat | m <= i < |run| :: run[i].Do? ==> !run[i].command.ContinueExecution? && !run[i].command.Step?
    ensures var run := Trace(lower, Init(threads), acts, n);
            At(lower, Init(threads), acts, n + 1).log ==
            At(lower, Init(threads), acts, n).log + [Reported(t, S.At(lower, S.Init, run, m).status)]
  {
    hide At, Init, Trace, S.At, S.SendStatus, OrderlyAt, AboutToReport;
    var run := Trace(lower, Init(threads), acts, n);
    ReportsAreSequential(lower, threads, acts, n, t);
    S.ReachableInv(lower, run, m, S.ContinueExecution);
    S.SuffixAt(lower, S.Init, run, m, |run| - m);
    S.StatusIsStable(lower, S.At(lower, S.Init, run, m), run[m..], |run| - m);
  }

  /** After an accepted Continue every status published is Running, until a request or a breakpoint hit shows. */
  lemma RunningReportedUntilRearmed(lower: S.Lowering, threads: nat, acts: seq<Action>, n: nat, t: nat, m: nat)
    requires n < |acts| && acts[n] == CmdStep(t) && AboutToReport(At(lower, Init(threads), acts, n), t)
    requires forall i: nat | i < n :: OrderlyAt(lower, Init(threads), acts, i)
    requires var run := Trace(lower, Init(threads), acts, n);
             && m < |run| && run[m] == S.Do(S.ContinueExecution)
             && S.Accepted(S.At(lower, S.Init, run, m), S.ContinueExecution)
             && forall i: nat | m < i < |run| - 1 :: !S.RearmsAt(lower, run, i)
    ensures var run, r := Trace(lower, Init(threads), acts, n), At(lower, Init(threads), acts, n + 1);
            && r.log != [] && r.log[|r.log| - 1].Reported?
            && (r.log[|r.log| - 1].status.runState == S.Running
                <==> m == |run| - 1 || !S.RearmsAt(lower, run, |run| - 1))
  {
    hide At, Init, Trace, S.At, S.SendStatus, OrderlyAt, AboutToReport, S.RearmsAt, S.Accepted;
    ReportsAreSequential(lower, threads, acts, n, t);
    S.ContinueInRunShows(lower, Trace(lower, Init(threads), acts, n), m);
  }
}
