/**
 * The lock protocol as an interleaving transition system: one VM thread inside and outside the
 * debug hook, any number of command threads, one mutex, one condition variable. Every access to
 * the request outside the lock, and each of the three accesses of the unlocked counter
 * increment, is a step of its own, and so is each of the two writes of PauseExecution, which
 * that increment can fall between. Spurious wake-ups are steps too.
 */
module PauseProtocol {
  import opened Common
  import S = StepControl

  datatype Owner = Free | VmThread | Commander(t: nat)

  /** Where the VM thread is. */
  datatype VmPc =
    | Script                                                  // outside the hook: the script runs
    | CallLock(source: string, line: int)                     // 'c', source not cached
    | CallEnsure(source: string, line: int)                   // holds the lock
    | CallPush(source: string, line: int)
    | CallTest(source: string, line: int)                     // unlocked read of the request
    | CallCompare(source: string, line: int)                  // unlocked read: returnsRequired >= 0
    | CallLoad(source: string, line: int)                     // the read half of ++returnsRequired
    | CallStore(source: string, line: int, loaded: int)       // the write half
    | ReturnPop
    | ReturnTest
    | ReturnLock
    | ReturnCount                                             // holds the lock
    | LineMark(line: int, infos: seq<S.StackEntry>)
    | LineLock(line: int, infos: seq<S.StackEntry>)
    | LineCheck(line: int, infos: seq<S.StackEntry>)          // holds the lock
    | LineDecide(bpId: nat, infos: seq<S.StackEntry>)         // holds the lock
    | LineWait                                                // holds the lock, about to wait
    | Waiting                                                 // in the condition wait
    | Woken                                                   // holds the lock again

  datatype Op = Cmd(command: S.Command) | Query | Status

  /** Where a command thread is; `since` is the length of the history when it began. */
  datatype CmdPc =
    | Idle
    | Peek(op: Op, since: nat)                                // unlocked first check
    | Lock(op: Op, since: nat)
    | Body(op: Op, since: nat)                                // holds the lock
    | Arming(since: nat, at: nat)                             // holds the lock: pause requested, counter not yet written
    | Reading(since: nat, at: nat, seenHeap: nat, seenStack: seq<S.Frame>)  // holds the lock, saw isPaused
    | Exit(op: Op, since: nat, at: nat, code: ReturnCode, locked: bool)     // holds the lock if `locked`

  datatype VmEffect =
    | Pushed(frame: S.Frame)
    | Popped
    | Marked(line: int)
    | Stored(counter: int)
    | Counted
    | Hit
    | Paused(status: S.Status)
    | Parked
    | Unparked
    | Resumed

  /** What happened, in the order of the instants at which it took effect. */
  datatype Entry =
    | Commanded(t: nat, command: S.Command, code: ReturnCode)
    | Queried(t: nat, code: ReturnCode)
    | Reported(t: nat, status: S.Status)
    | Armed(t: nat)                                           // the second write of a PauseExecution
    | VmDid(effect: VmEffect)

  /**
   * `data` is everything the threads share; `heap` stands for the contents of the VM. `log` is
   * a history variable: nothing reads it.
   */
  datatype State = State(
    owner: Owner,
    vm: VmPc,
    cmds: seq<CmdPc>,
    data: S.State,
    heap: nat,
    log: seq<Entry>)

  datatype Action =
    | VmRun(heap: nat)
    | VmCall(source: string, line: int, cached: bool)
    | VmReturn
    | VmLine(line: int, infos: seq<S.StackEntry>)
    | VmStep
    | Spurious
    | Begin(t: nat, op: Op)
    | CmdStep(t: nat)
    | CmdWrite(t: nat, heap: nat)

  // ---------------------------------------------------------------- effects

  /** What one effect of the VM thread does to the shared data. */
  function Apply(d: S.State, e: VmEffect): (r: S.State) {
    match e
    case Pushed(frame) => d.(stack := d.stack + [frame])
    case Popped => if |d.stack| > 0 then d.(stack := d.stack[..|d.stack| - 1]) else d
    case Marked(line) =>
      if |d.stack| > 0 then d.(stack := d.stack[|d.stack| - 1 := d.stack[|d.stack| - 1].(line := line)]) else d
    case Stored(counter) => d.(returnsRequired := counter)
    case Counted => d.(returnsRequired := d.returnsRequired - 1)
    case Hit => d.(returnsRequired := 0, request := S.StepIn)
    case Paused(status) => d.(isPaused := true, status := status)
    case Parked => d.(phase := S.Waiting)
    case Unparked => d.(phase := S.Notified)
    case Resumed => d.(isPaused := false, phase := S.Executing)
  }

  /** One entry replayed as a single atomic step. */
  function ReplayEntry(lower: S.Lowering, d: S.State, e: Entry): (r: S.State) {
    match e
    case Commanded(_, c, _) => S.OnCommand(lower, d, c)
    case Armed(_) => d.(returnsRequired := -1)
    case VmDid(effect) => Apply(d, effect)
    case _ => d
  }

  /** The answer an atomic execution of the entry would have given. */
  predicate LawfulEntry(d: S.State, e: Entry) {
    match e
    case Commanded(_, c, code) => code == S.Code(d, c)
    case Queried(_, code) => code == if d.isPaused then Success else InvalidNotPaused
    case Reported(_, status) => status == S.SendStatus(d)
    case Armed(_) => d.request == S.StepIn
    case VmDid(_) => true
  }

  function Init(threads: nat): (s: State) {
    State(Free, Script, seq(threads, _ => Idle), S.Init, 0, [])
  }

  function Replay(lower: S.Lowering, log: seq<Entry>): (d: S.State) {
    if log == [] then S.Init
    else ReplayEntry(lower, Replay(lower, log[..|log| - 1]), log[|log| - 1])
  }

  predicate Lawful(lower: S.Lowering, log: seq<Entry>) {
    if log == [] then true
    else
      && Lawful(lower, log[..|log| - 1])
      && LawfulEntry(Replay(lower, log[..|log| - 1]), log[|log| - 1])
  }

  // ---------------------------------------------------------------- transitions

  function Did(s: State, e: VmEffect): (r: State) {
    s.(data := Apply(s.data, e), log := s.log + [VmDid(e)])
  }

  predicate VmStepEnabled(s: State) {
    match s.vm
    case Script => false
    case CallLock(_, _) => s.owner == Free
    case ReturnLock => s.owner == Free
    case LineLock(_, _) => s.owner == Free
    case Waiting => s.data.phase == S.Notified && s.owner == Free
    case LineCheck(_, _) => |s.data.stack| > 0
    case _ => true
  }

  function VmNext(lower: S.Lowering, s: State): (r: State)
    requires VmStepEnabled(s)
  {
    match s.vm
    case CallLock(source, line) => s.(owner := VmThread, vm := CallEnsure(source, line))
    case CallEnsure(source, line) => s.(owner := Free, vm := CallPush(source, line))
    case CallPush(source, line) => Did(s, Pushed(S.Frame(lower(source), line))).(vm := CallTest(source, line))
    case CallTest(source, line) => s.(vm := if s.data.request != S.NoPause then CallCompare(source, line) else Script)
    case CallCompare(source, line) => s.(vm := if s.data.returnsRequired >= 0 then CallLoad(source, line) else Script)
    case CallLoad(source, line) => s.(vm := CallStore(source, line, s.data.returnsRequired))
    case CallStore(_, _, loaded) => Did(s, Stored(loaded + 1)).(vm := Script)
    case ReturnPop => Did(s, Popped).(vm := ReturnTest)
    case ReturnTest => s.(vm := if s.data.request != S.NoPause then ReturnLock else Script)
    case ReturnLock => s.(owner := VmThread, vm := ReturnCount)
    case ReturnCount =>
      (if s.data.request != S.NoPause then Did(s, Counted) else s).(owner := Free, vm := Script)
    case LineMark(line, infos) => Did(s, Marked(line)).(vm := LineLock(line, infos))
    case LineLock(line, infos) => s.(owner := VmThread, vm := LineCheck(line, infos))
    case LineCheck(line, infos) =>
      var bp := S.BreakpointAt(s.data, line);
      if bp.Some? then Did(s, Hit).(vm := LineDecide(bp.value.id, infos)) else s.(vm := LineDecide(0, infos))
    case LineDecide(bpId, infos) =>
      if s.data.request != S.NoPause && s.data.returnsRequired <= 0
      then Did(s, Paused(S.Status(S.Paused, S.PopulateStack(infos), bpId))).(vm := LineWait)
      else s.(owner := Free, vm := Script)
    case LineWait => Did(s, Parked).(owner := Free, vm := Waiting)
    case Waiting => s.(owner := VmThread, vm := Woken)
    case Woken => Did(s, Resumed).(owner := Free, vm := Script)
  }

  /** The first check of a double-checked command: Some(code) when it decides without the lock. */
  function PeekDecides(d: S.State, op: Op): (r: Option<ReturnCode>) {
    match op
    case Cmd(PauseExecution) => if d.request != S.NoPause then Some(Success) else None
    case Cmd(ContinueExecution) => if d.request == S.NoPause then Some(InvalidNotPaused) else None
    case Cmd(SetFileBreakpoints(_, entries)) => if S.ValidEntries(entries) then None else Some(InvalidParameter)
    case _ => None
  }

  /** The commands that check something before they lock. */
  predicate Peeks(op: Op) {
    op.Cmd? && !op.command.Step?
  }

  predicate CmdStepEnabled(s: State, t: nat)
    requires t < |s.cmds|
  {
    && !s.cmds[t].Idle?
    && (s.cmds[t].Lock? ==> s.owner == Free)
    && (s.cmds[t].Peek? ==> s.cmds[t].op.Cmd?)
  }

  function CmdNext(lower: S.Lowering, s: State, t: nat): (r: State)
    requires t < |s.cmds| && CmdStepEnabled(s, t)
  {
    var at := |s.log|;
    match s.cmds[t]
    case Peek(op, since) =>
      var decided := PeekDecides(s.data, op);
      if decided.Some?
      then s.(cmds := s.cmds[t := Exit(op, since, at, decided.value, false)],
               log := s.log + [Commanded(t, op.command, decided.value)])
      else s.(cmds := s.cmds[t := Lock(op, since)])
    case Lock(op, since) => s.(owner := Commander(t), cmds := s.cmds[t := Body(op, since)])
    case Body(Cmd(c), since) =>
      if c.PauseExecution? && s.data.request == S.NoPause
      then s.(data := s.data.(request := S.StepIn),
              cmds := s.cmds[t := Arming(since, at)],
              log := s.log + [Commanded(t, c, Success)])
      else s.(data := S.OnCommand(lower, s.data, c),
              cmds := s.cmds[t := Exit(Cmd(c), since, at, S.Code(s.data, c), true)],
              log := s.log + [Commanded(t, c, S.Code(s.data, c))])
    case Arming(since, decidedAt) =>
      s.(data := s.data.(returnsRequired := -1),
         cmds := s.cmds[t := Exit(Cmd(S.PauseExecution), since, decidedAt, Success, true)],
         log := s.log + [Armed(t)])
    case Body(Query, since) =>
      if s.data.isPaused
      then s.(cmds := s.cmds[t := Reading(since, at, s.heap, s.data.stack)], log := s.log + [Queried(t, Success)])
      else s.(cmds := s.cmds[t := Exit(Query, since, at, InvalidNotPaused, true)], log := s.log + [Queried(t, InvalidNotPaused)])
    case Body(Status, since) =>
      s.(cmds := s.cmds[t := Exit(Status, since, at, Success, true)], log := s.log + [Reported(t, S.SendStatus(s.data))])
    case Reading(since, decidedAt, _, _) => s.(cmds := s.cmds[t := Exit(Query, since, decidedAt, Success, true)])
    case Exit(_, _, _, _, locked) => s.(owner := if locked then Free else s.owner, cmds := s.cmds[t := Idle])
  }

  predicate Enabled(s: State, a: Action) {
    match a
    case VmRun(_) => s.vm == Script
    case VmCall(_, _, _) => s.vm == Script
    case VmReturn => s.vm == Script && |s.data.stack| > 0
    case VmLine(_, _) => s.vm == Script && |s.data.stack| > 0
    case VmStep => VmStepEnabled(s)
    case Spurious => s.vm == Waiting && s.data.phase == S.Waiting
    case Begin(t, op) => t < |s.cmds| && s.cmds[t].Idle? && (op.Cmd? && op.command.Step? ==> op.command.kind != S.NoPause)
    case CmdStep(t) => t < |s.cmds| && CmdStepEnabled(s, t)
    case CmdWrite(t, _) => t < |s.cmds| && s.cmds[t].Reading?
  }

  function Next(lower: S.Lowering, s: State, a: Action): (r: State)
    requires Enabled(s, a)
  {
    match a
    case VmRun(heap) => s.(heap := heap)
    case VmCall(source, line, cached) => s.(vm := if cached then CallPush(source, line) else CallLock(source, line))
    case VmReturn => s.(vm := ReturnPop)
    case VmLine(line, infos) => s.(vm := LineMark(line, infos))
    case VmStep => VmNext(lower, s)
    case Spurious => Did(s, Unparked)
    case Begin(t, op) => s.(cmds := s.cmds[t := if Peeks(op) then Peek(op, |s.log|) else Lock(op, |s.log|)])
    case CmdStep(t) => CmdNext(lower, s, t)
    case CmdWrite(t, heap) => s.(heap := heap, cmds := s.cmds[t := s.cmds[t].(seenHeap := heap)])
  }

  /** The state after the first n actions; an action that is not enabled is skipped. */
  function At(lower: S.Lowering, s: State, acts: seq<Action>, n: nat): (r: State)
    requires n <= |acts|
  {
    if n == 0 then s
    else
      var p := At(lower, s, acts, n - 1);
      if Enabled(p, acts[n - 1]) then Next(lower, p, acts[n - 1]) else p
  }

  // ---------------------------------------------------------------- invariant

  predicate VmHolds(pc: VmPc) {
    pc.CallEnsure? || pc.ReturnCount? || pc.LineCheck? || pc.LineDecide? || pc.LineWait? || pc.Woken?
  }

  predicate CmdHolds(pc: CmdPc) {
    pc.Body? || pc.Arming? || pc.Reading? || (pc.Exit? && pc.locked)
  }

  /** The lock has exactly one holder, and its owner field says who. */
  ghost predicate MutualExclusion(s: State) {
    && (s.owner == VmThread <==> VmHolds(s.vm))
    && (forall t: nat | t < |s.cmds| :: s.owner == Commander(t) <==> CmdHolds(s.cmds[t]))
    && (s.owner.Commander? ==> s.owner.t < |s.cmds|)
  }

  /** A PauseExecution holds the lock between its two writes: the counter is not yet the request's own. */
  predicate Unsettled(s: State) {
    s.owner.Commander? && s.owner.t < |s.cmds| && s.cmds[s.owner.t].Arming?
  }

  /** isPaused and the condition variable agree with the VM thread's position. */
  ghost predicate PausedAsSeen(s: State) {
    && (s.data.isPaused <==> s.vm.LineWait? || s.vm.Waiting? || s.vm.Woken?)
    && (s.data.phase == S.Executing <==> !s.vm.Waiting? && !s.vm.Woken?)
    && (s.vm.Woken? ==> s.data.phase == S.Notified)
    && (s.vm.LineWait? || s.data.phase == S.Waiting ==> s.data.request != S.NoPause)
    && (s.vm.ReturnPop? || s.vm.LineMark? || s.vm.LineLock? || s.vm.LineCheck? ==> |s.data.stack| > 0)
    && (Unsettled(s) ==> s.data.request == S.StepIn)
  }

  /** What a query saw when it started is still what the VM contains. */
  ghost predicate QueriesSeeOneState(s: State) {
    forall t: nat | t < |s.cmds| && s.cmds[t].Reading? ::
      s.data.isPaused && s.cmds[t].seenHeap == s.heap && s.cmds[t].seenStack == s.data.stack
  }

  /** A command that has taken effect did so once, after it began, with the answer it returns. */
  ghost predicate Linearized(s: State, t: nat)
    requires t < |s.cmds|
  {
    match s.cmds[t]
    case Idle => true
    case Peek(op, since) => since <= |s.log| && op.Cmd?
    case Lock(_, since) => since <= |s.log|
    case Body(_, since) => since <= |s.log|
    case Arming(since, at) => since <= at < |s.log| && s.log[at] == Commanded(t, S.PauseExecution, Success)
    case Reading(since, at, _, _) => since <= at < |s.log| && s.log[at] == Queried(t, Success)
    case Exit(op, since, at, code, _) =>
      && since <= at < |s.log|
      && match op
         case Cmd(c) => s.log[at] == Commanded(t, c, code)
         case Query => s.log[at] == Queried(t, code)
         case Status => code == Success && s.log[at].Reported? && s.log[at].t == t
  }

  predicate SameButCounter(d: S.State, e: S.State) {
    d == e.(returnsRequired := d.returnsRequired)
  }

  /** The history replayed is the data, but for the counter while a pause has it still to write. */
  ghost predicate Explains(lower: S.Lowering, s: State) {
    && SameButCounter(Replay(lower, s.log), s.data)
    && (!Unsettled(s) ==> Replay(lower, s.log) == s.data)
  }

  ghost predicate HistoryExplains(lower: S.Lowering, s: State) {
    && Explains(lower, s)
    && Lawful(lower, s.log)
    && forall t: nat | t < |s.cmds| :: Linearized(s, t)
  }

  ghost predicate Inv(lower: S.Lowering, s: State) {
    MutualExclusion(s) && PausedAsSeen(s) && QueriesSeeOneState(s) && HistoryExplains(lower, s)
  }

  lemma LogGrows(lower: S.Lowering, log: seq<Entry>, e: Entry)
    ensures Replay(lower, log + [e]) == ReplayEntry(lower, Replay(lower, log), e)
    ensures Lawful(lower, log + [e]) <==> Lawful(lower, log) && LawfulEntry(Replay(lower, log), e)
  {
    assert (log + [e])[..|log|] == log;
  }

  /** A step that leaves thread t alone leaves its linearization point alone. */
  lemma LinearizedKept(s: State, r: State, t: nat)
    requires t < |s.cmds| == |r.cmds| && s.cmds[t] == r.cmds[t] && s.log <= r.log && Linearized(s, t)
    ensures Linearized(r, t)
  {
  }

  lemma OthersKept(s: State, r: State)
    requires |s.cmds| == |r.cmds| && s.log <= r.log
    requires forall t: nat | t < |s.cmds| :: Linearized(s, t)
    ensures forall t: nat | t < |s.cmds| && s.cmds[t] == r.cmds[t] :: Linearized(r, t)
  {
    forall t: nat | t < |s.cmds| && s.cmds[t] == r.cmds[t] ensures Linearized(r, t) {
      LinearizedKept(s, r, t);
    }
  }

  lemma PeekIsAtomic(lower: S.Lowering, d: S.State, op: Op)
    requires op.Cmd? && PeekDecides(d, op).Some?
    ensures S.Code(d, op.command) == PeekDecides(d, op).value
    ensures S.OnCommand(lower, d, op.command) == d
  {
  }

  /**
   * The unlocked check answers a pause, a Continue or a list of breakpoints exactly when that would
   * change nothing; a step always takes the lock.
   */
  lemma PeekDecidesExactly(d: S.State, c: S.Command)
    ensures PeekDecides(d, Cmd(c)).Some? <==>
            match c
            case PauseExecution => d.request != S.NoPause
            case ContinueExecution => d.request == S.NoPause
            case Step(_) => false
            case SetFileBreakpoints(_, entries) => !S.NoZeros(entries)
    ensures PeekDecides(d, Cmd(c)).Some? <==> !c.Step? && !S.Accepted(d, c)
  {
  }

  lemma SameHistory(lower: S.Lowering, s: State, r: State)
    requires HistoryExplains(lower, s) && r.data == s.data && r.log == s.log && r.cmds == s.cmds
    requires Unsettled(s) ==> Unsettled(r)
    ensures HistoryExplains(lower, r)
  {
    OthersKept(s, r);
  }

  lemma DidKeepsHistory(lower: S.Lowering, s: State, e: VmEffect)
    requires HistoryExplains(lower, s) && (e.Counted? ==> !Unsettled(s))
    ensures HistoryExplains(lower, Did(s, e))
  {
    LogGrows(lower, s.log, VmDid(e));
    OthersKept(s, Did(s, e));
  }

  /** Every VM step changes the shared data by at most one logged effect. */
  lemma VmStepIsOneEffect(lower: S.Lowering, s: State)
    requires VmStepEnabled(s)
    ensures var r := VmNext(lower, s);
            && r.cmds == s.cmds && r.heap == s.heap
            && (r.owner == s.owner || s.owner == Free || VmHolds(s.vm))
            && (|| (r.data == s.data && r.log == s.log)
                || (|r.log| == |s.log| + 1 && r.log[|s.log|].VmDid?
                    && (r.log[|s.log|].effect.Counted? ==> VmHolds(s.vm))
                    && r.log == Did(s, r.log[|s.log|].effect).log && r.data == Did(s, r.log[|s.log|].effect).data))
  {
  }

  lemma VmKeepsHistory(lower: S.Lowering, s: State)
    requires HistoryExplains(lower, s) && MutualExclusion(s) && VmStepEnabled(s)
    ensures HistoryExplains(lower, VmNext(lower, s))
  {
    VmStepIsOneEffect(lower, s);
    var r := VmNext(lower, s);
    if r.log == s.log {
      SameHistory(lower, s, r);
    } else {
      DidKeepsHistory(lower, s, r.log[|s.log|].effect);
      SameHistory(lower, Did(s, r.log[|s.log|].effect), r);
    }
  }

  lemma VmKeepsExclusion(lower: S.Lowering, s: State)
    requires MutualExclusion(s) && VmStepEnabled(s)
    ensures MutualExclusion(VmNext(lower, s))
  {
  }

  lemma VmKeepsPaused(lower: S.Lowering, s: State)
    requires PausedAsSeen(s) && VmStepEnabled(s)
    ensures PausedAsSeen(VmNext(lower, s))
  {
  }

  /** While a query reads, the VM thread's only possible steps are none at all. */
  lemma VmKeepsQueries(lower: S.Lowering, s: State)
    requires MutualExclusion(s) && PausedAsSeen(s) && QueriesSeeOneState(s) && VmStepEnabled(s)
    ensures QueriesSeeOneState(VmNext(lower, s))
  {
    forall t: nat | t < |s.cmds| ensures !s.cmds[t].Reading? {
      assert s.owner == Commander(t) <==> CmdHolds(s.cmds[t]);
    }
  }

  /** A command's entry is lawful, and replaying it does what the step did, up to a counter still to write. */
  lemma CmdKeepsExplained(lower: S.Lowering, s: State, t: nat)
    requires HistoryExplains(lower, s) && MutualExclusion(s) && PausedAsSeen(s)
    requires t < |s.cmds| && CmdStepEnabled(s, t)
    ensures var r := CmdNext(lower, s, t);
            Explains(lower, r) && Lawful(lower, r.log)
  {
    hide S.AddAll, S.Returns, Replay, Lawful, Linearized;
    var r := CmdNext(lower, s, t);
    var d := Replay(lower, s.log);
    if r.log != s.log {
      LogGrows(lower, s.log, r.log[|s.log|]);
      assert r.log == s.log + [r.log[|s.log|]];
    }
    if s.cmds[t].Peek? && PeekDecides(s.data, s.cmds[t].op).Some? {
      PeekIsAtomic(lower, d, s.cmds[t].op);
    }
    if CmdHolds(s.cmds[t]) {
      assert s.owner == Commander(t);
    } else {
      assert s.owner != Commander(t);
    }
  }

  lemma CmdKeepsHistory(lower: S.Lowering, s: State, t: nat)
    requires HistoryExplains(lower, s) && MutualExclusion(s) && PausedAsSeen(s)
    requires t < |s.cmds| && CmdStepEnabled(s, t)
    ensures HistoryExplains(lower, CmdNext(lower, s, t))
  {
    hide S.OnCommand, S.Code, S.SendStatus, Replay, Lawful, Explains, MutualExclusion, PausedAsSeen;
    var r := CmdNext(lower, s, t);
    assert Linearized(s, t);
    CmdKeepsExplained(lower, s, t);
    OthersKept(s, r);
    assert Linearized(r, t);
  }

  lemma CmdKeepsPaused(lower: S.Lowering, s: State, t: nat)
    requires MutualExclusion(s) && PausedAsSeen(s) && t < |s.cmds| && CmdStepEnabled(s, t)
    ensures PausedAsSeen(CmdNext(lower, s, t))
  {
  }

  lemma CmdKeepsExclusion(lower: S.Lowering, s: State, t: nat)
    requires MutualExclusion(s) && t < |s.cmds| && CmdStepEnabled(s, t)
    ensures MutualExclusion(CmdNext(lower, s, t))
  {
  }

  lemma CmdKeepsQueries(lower: S.Lowering, s: State, t: nat)
    requires MutualExclusion(s) && QueriesSeeOneState(s) && t < |s.cmds| && CmdStepEnabled(s, t)
    ensures QueriesSeeOneState(CmdNext(lower, s, t))
  {
    var r := CmdNext(lower, s, t);
    forall u: nat | u < |r.cmds| && r.cmds[u].Reading?
      ensures r.data.isPaused && r.cmds[u].seenHeap == r.heap && r.cmds[u].seenStack == r.data.stack
    {
      if u != t {
        assert s.cmds[u].Reading? && s.owner == Commander(u);
      }
    }
  }

  lemma BeginKeepsInv(lower: S.Lowering, s: State, t: nat, op: Op)
    requires Inv(lower, s) && Enabled(s, Begin(t, op))
    ensures Inv(lower, Next(lower, s, Begin(t, op)))
  {
    var r := Next(lower, s, Begin(t, op));
    OthersKept(s, r);
    assert Linearized(r, t);
  }

  lemma WriteKeepsInv(lower: S.Lowering, s: State, t: nat, heap: nat)
    requires Inv(lower, s) && Enabled(s, CmdWrite(t, heap))
    ensures Inv(lower, Next(lower, s, CmdWrite(t, heap)))
  {
    var r := Next(lower, s, CmdWrite(t, heap));
    OthersKept(s, r);
    assert Linearized(s, t) && Linearized(r, t);
    forall u: nat | u < |r.cmds| && r.cmds[u].Reading?
      ensures r.data.isPaused && r.cmds[u].seenHeap == r.heap && r.cmds[u].seenStack == r.data.stack
    {
      assert s.cmds[u].Reading? && s.owner == Commander(u) && s.owner == Commander(t);
    }
  }

  lemma ScriptKeepsInv(lower: S.Lowering, s: State, a: Action)
    requires Inv(lower, s) && Enabled(s, a)
    requires a.VmRun? || a.VmCall? || a.VmReturn? || a.VmLine? || a.Spurious?
    ensures Inv(lower, Next(lower, s, a))
  {
    hide HistoryExplains;
    var r := Next(lower, s, a);
    if a.Spurious? {
      DidKeepsHistory(lower, s, Unparked);
    } else {
      SameHistory(lower, s, r);
    }
    forall t: nat | t < |s.cmds| && s.cmds[t].Reading? ensures !a.VmRun? {
      assert s.owner == Commander(t);
    }
  }

  lemma StepKeepsInv(lower: S.Lowering, s: State, a: Action)
    requires Inv(lower, s) && Enabled(s, a)
    ensures Inv(lower, Next(lower, s, a))
  {
    match a
    case VmStep =>
      VmKeepsHistory(lower, s);
      VmKeepsExclusion(lower, s);
      VmKeepsPaused(lower, s);
      VmKeepsQueries(lower, s);
    case CmdStep(t) =>
      CmdKeepsHistory(lower, s, t);
      CmdKeepsExclusion(lower, s, t);
      CmdKeepsPaused(lower, s, t);
      CmdKeepsQueries(lower, s, t);
    case CmdWrite(t, heap) => WriteKeepsInv(lower, s, t, heap);
    case Begin(t, op) => BeginKeepsInv(lower, s, t, op);
    case _ => ScriptKeepsInv(lower, s, a);
  }

  lemma InitInv(lower: S.Lowering, threads: nat)
    ensures Inv(lower, Init(threads))
  {
  }

  lemma {:induction false} Reachable(lower: S.Lowering, threads: nat, acts: seq<Action>, n: nat)
    requires n <= |acts|
    ensures Inv(lower, At(lower, Init(threads), acts, n))
  {
    hide Next, Enabled, Inv, Init;
    if n == 0 {
      InitInv(lower, threads);
    } else {
      Reachable(lower, threads, acts, n - 1);
      var p := At(lower, Init(threads), acts, n - 1);
      if Enabled(p, acts[n - 1]) {
        StepKeepsInv(lower, p, acts[n - 1]);
      }
    }
  }

  // ---------------------------------------------------------------- isolation

  predicate By(a: Action, t: nat) {
    a == CmdStep(t) || (a.CmdWrite? && a.t == t)
  }

  /** For the thread t that holds the mutex and sees isPaused, the VM stands still whatever others do. */
  ghost predicate Isolated(lower: S.Lowering, s: State, t: nat, a: Action) {
    s.owner == Commander(t) && s.data.isPaused ==>
      && s.vm.Waiting? && t < |s.cmds|
      && (Enabled(s, a) && !By(a, t) ==>
            var r := Next(lower, s, a);
            && r.vm.Waiting? && r.heap == s.heap && r.data.stack == s.data.stack && r.data.isPaused
            && r.owner == s.owner && |r.cmds| == |s.cmds| && r.cmds[t] == s.cmds[t])
  }

  lemma InvIsolates(lower: S.Lowering, s: State, t: nat, a: Action)
    requires Inv(lower, s)
    ensures Isolated(lower, s, t, a)
  {
  }

  /**
   * In every reachable state, whoever holds the mutex and sees isPaused has the VM to itself:
   * the VM thread is in the condition wait, and no step of anybody else changes the VM,
   * currentStack or the lock, even if a resume was accepted just before.
   */
  lemma Isolation(lower: S.Lowering, threads: nat, acts: seq<Action>, n: nat, t: nat, a: Action)
    requires n <= |acts|
    ensures Isolated(lower, At(lower, Init(threads), acts, n), t, a)
  {
    hide Isolated, Inv, At;
    Reachable(lower, threads, acts, n);
    InvIsolates(lower, At(lower, Init(threads), acts, n), t, a);
  }

  ghost predicate ReadingAt(lower: S.Lowering, s: State, acts: seq<Action>, i: nat, t: nat)
    requires i <= |acts|
  {
    var p := At(lower, s, acts, i);
    t < |p.cmds| && p.cmds[t].Reading?
  }

  lemma ReadStep(lower: S.Lowering, s: State, a: Action, t: nat)
    requires Inv(lower, s)
    requires t < |s.cmds| && s.cmds[t].Reading? && Enabled(s, a) && !(a.CmdWrite? && a.t == t)
    requires t < |Next(lower, s, a).cmds| && Next(lower, s, a).cmds[t].Reading?
    ensures Next(lower, s, a).heap == s.heap && Next(lower, s, a).data.stack == s.data.stack
  {
  }

  /** From its first read to its last a query sees one state, changed only by its own writes. */
  lemma {:induction false} QuerySeesOneState(lower: S.Lowering, s: State, acts: seq<Action>, n: nat, t: nat)
    requires n <= |acts| && Inv(lower, s)
    requires forall i: nat | i <= n :: ReadingAt(lower, s, acts, i, t)
    requires forall i: nat | i < n :: !(acts[i].CmdWrite? && acts[i].t == t)
    ensures Inv(lower, At(lower, s, acts, n))
    ensures At(lower, s, acts, n).heap == s.heap && At(lower, s, acts, n).data.stack == s.data.stack
  {
    hide Next, Enabled, Inv;
    if n > 0 {
      QuerySeesOneState(lower, s, acts, n - 1, t);
      assert ReadingAt(lower, s, acts, n - 1, t) && ReadingAt(lower, s, acts, n, t);
      var p := At(lower, s, acts, n - 1);
      if Enabled(p, acts[n - 1]) {
        StepKeepsInv(lower, p, acts[n - 1]);
        ReadStep(lower, p, acts[n - 1], t);
      }
    }
  }

  // ---------------------------------------------------------------- no lost wake-up

  predicate IsResume(c: S.Command) {
    c.ContinueExecution? || (c.Step? && c.kind != S.NoPause)
  }

  /** A waiting, un-notified VM thread is open to the command c from any thread t. */
  ghost predicate CanBeResumed(lower: S.Lowering, s: State, t: nat, c: S.Command) {
    s.vm.Waiting? && s.data.phase == S.Waiting ==>
      && s.data.isPaused && s.data.request != S.NoPause && PeekDecides(s.data, Cmd(c)).None?
      && (t < |s.cmds| && s.cmds[t].Body? && s.cmds[t].op == Cmd(c) ==>
            var r := CmdNext(lower, s, t);
            r.cmds[t].Exit? && r.cmds[t].code == Success && r.data.phase == S.Notified)
  }

  lemma InvCanBeResumed(lower: S.Lowering, s: State, t: nat, c: S.Command)
    requires Inv(lower, s) && IsResume(c)
    ensures CanBeResumed(lower, s, t, c)
  {
  }

  /**
   * In every reachable state a VM thread that waits and was not notified can be resumed: it is
   * marked paused and has a request, so no unlocked check turns a Continue away, and every
   * Continue or step that gets the lock succeeds and notifies it.
   */
  lemma NoLostWakeup(lower: S.Lowering, threads: nat, acts: seq<Action>, n: nat, t: nat, c: S.Command)
    requires n <= |acts| && IsResume(c)
    ensures CanBeResumed(lower, At(lower, Init(threads), acts, n), t, c)
  {
    hide CanBeResumed, Inv, At;
    Reachable(lower, threads, acts, n);
    InvCanBeResumed(lower, At(lower, Init(threads), acts, n), t, c);
  }

  ghost predicate HolderMoves(s: State) {
    match s.owner
    case Free => true
    case VmThread => Enabled(s, VmStep)
    case Commander(t) => Enabled(s, CmdStep(t))
  }

  lemma InvHolderMoves(lower: S.Lowering, s: State)
    requires Inv(lower, s)
    ensures HolderMoves(s)
  {
  }

  /** Nobody can get stuck with the lock: in every reachable state its holder has an enabled step. */
  lemma HolderCanStep(lower: S.Lowering, threads: nat, acts: seq<Action>, n: nat)
    requires n <= |acts|
    ensures HolderMoves(At(lower, Init(threads), acts, n))
  {
    hide HolderMoves, Inv, At;
    Reachable(lower, threads, acts, n);
    InvHolderMoves(lower, At(lower, Init(threads), acts, n));
  }

  // ---------------------------------------------------------------- linearizability

  lemma {:induction false} LawfulAt(lower: S.Lowering, log: seq<Entry>, i: nat)
    requires Lawful(lower, log) && i < |log|
    ensures LawfulEntry(Replay(lower, log[..i]), log[i])
  {
    if i < |log| - 1 {
      var front := log[..|log| - 1];
      LawfulAt(lower, front, i);
      assert front[..i] == log[..i];
    }
  }

  /**
   * The double-checked commands refine atomic ones: the shared data is the history replayed one
   * atomic command at a time, every answer in the history is the atomic answer, and a command
   * about to return returns the answer of an entry of its own made since it began. Only the
   * counter may lag behind, while a PauseExecution has it still to write; that write is an entry
   * of its own.
   */
  lemma CommandsAreAtomic(lower: S.Lowering, s: State, t: nat)
    requires Inv(lower, s) && t < |s.cmds|
    ensures SameButCounter(Replay(lower, s.log), s.data)
    ensures !Unsettled(s) ==> Replay(lower, s.log) == s.data
    ensures forall i: nat | i < |s.log| :: LawfulEntry(Replay(lower, s.log[..i]), s.log[i])
    ensures s.cmds[t].Exit? && s.cmds[t].op.Cmd? ==>
              var pc := s.cmds[t];
              && pc.since <= pc.at < |s.log|
              && s.log[pc.at] == Commanded(t, pc.op.command, pc.code)
              && pc.code == S.Code(Replay(lower, s.log[..pc.at]), pc.op.command)
    ensures s.cmds[t].Exit? && s.cmds[t].op.Query? ==>
              var pc := s.cmds[t];
              && pc.since <= pc.at < |s.log|
              && s.log[pc.at] == Queried(t, pc.code)
              && pc.code == if Replay(lower, s.log[..pc.at]).isPaused then Success else InvalidNotPaused
  {
    assert Linearized(s, t);
    forall i: nat | i < |s.log| ensures LawfulEntry(Replay(lower, s.log[..i]), s.log[i]) {
      LawfulAt(lower, s.log, i);
    }
  }

  // ---------------------------------------------------------------- every command once

  /** The operation an entry of the history stands for, if it is one of thread t's. */
  function OpOf(e: Entry, t: nat): (ops: seq<Op>) {
    match e
    case Commanded(u, c, _) => if u == t then [Cmd(c)] else []
    case Queried(u, _) => if u == t then [Query] else []
    case Reported(u, _) => if u == t then [Status] else []
    case _ => []
  }

  /** What thread t did, according to the history. */
  function OpsOf(log: seq<Entry>, t: nat): (ops: seq<Op>) {
    if log == [] then [] else OpsOf(log[..|log| - 1], t) + OpOf(log[|log| - 1], t)
  }

  /** What a command thread has begun that has not taken effect yet. */
  function Pending(pc: CmdPc): (ops: seq<Op>) {
    match pc
    case Peek(op, _) => [op]
    case Lock(op, _) => [op]
    case Body(op, _) => [op]
    case _ => []
  }

  /** What thread t was asked to do by one action, and by the first n actions of a run. */
  function Asked(s: State, a: Action, t: nat): (ops: seq<Op>) {
    if a.Begin? && a.t == t && Enabled(s, a) then [a.op] else []
  }

  function Issued(lower: S.Lowering, s: State, acts: seq<Action>, n: nat, t: nat): (ops: seq<Op>)
    requires n <= |acts|
  {
    if n == 0 then []
    else Issued(lower, s, acts, n - 1, t) + Asked(At(lower, s, acts, n - 1), acts[n - 1], t)
  }

  /** What thread t did and still has to do. */
  function Account(s: State, t: nat): (ops: seq<Op>)
    requires t < |s.cmds|
  {
    OpsOf(s.log, t) + Pending(s.cmds[t])
  }

  /** A step adds at most one entry to the history. */
  lemma OneEntry(lower: S.Lowering, s: State, a: Action)
    requires Enabled(s, a)
    ensures var r := Next(lower, s, a);
            |r.cmds| == |s.cmds| && (r.log == s.log || (r.log != [] && r.log[..|r.log| - 1] == s.log))
  {
  }

  /** What the step from s to r adds to thread t's part of the history. */
  function Added(s: State, r: State, t: nat): (ops: seq<Op>) {
    if r.log == s.log || r.log == [] then [] else OpOf(r.log[|r.log| - 1], t)
  }

  /** A command thread's step makes an entry for its own operation, at the moment it stops being pending. */
  lemma CmdEntryIsOwn(lower: S.Lowering, s: State, u: nat)
    requires u < |s.cmds| && CmdStepEnabled(s, u)
    ensures var r := CmdNext(lower, s, u);
            |r.cmds| == |s.cmds| && Pending(s.cmds[u]) == Added(s, r, u) + Pending(r.cmds[u])
  {
    hide S.OnCommand, S.Code, S.SendStatus, PeekDecides;
  }

  lemma CmdEntryIsNoOthers(lower: S.Lowering, s: State, u: nat, t: nat)
    requires u < |s.cmds| && CmdStepEnabled(s, u) && t != u
    ensures var r := CmdNext(lower, s, u);
            |r.cmds| == |s.cmds| && Added(s, r, t) == [] && (t < |s.cmds| ==> r.cmds[t] == s.cmds[t])
  {
    hide S.OnCommand, S.Code, S.SendStatus, PeekDecides;
  }

  lemma VmEntryIsNobodys(lower: S.Lowering, s: State, t: nat)
    requires VmStepEnabled(s)
    ensures var r := VmNext(lower, s);
            r.cmds == s.cmds && Added(s, r, t) == []
  {
    hide VmNext;
    VmStepIsOneEffect(lower, s);
  }

  /** An entry is made for the thread whose operation takes effect, and for that operation. */
  lemma EntryIsOwn(lower: S.Lowering, s: State, a: Action, t: nat)
    requires Enabled(s, a) && t < |s.cmds|
    ensures var r := Next(lower, s, a);
            |r.cmds| == |s.cmds|
            && Pending(s.cmds[t]) + Asked(s, a, t) == Added(s, r, t) + Pending(r.cmds[t])
  {
    hide CmdNext, VmNext, VmStepEnabled, CmdStepEnabled, Apply, Peeks;
    match a
    case CmdStep(u) =>
      if u == t {
        CmdEntryIsOwn(lower, s, u);
      } else {
        CmdEntryIsNoOthers(lower, s, u, t);
      }
    case VmStep => VmEntryIsNobodys(lower, s, t);
    case _ =>
  }

  lemma AccountStep(lower: S.Lowering, s: State, a: Action, t: nat)
    requires Enabled(s, a) && t < |s.cmds|
    ensures |Next(lower, s, a).cmds| == |s.cmds|
    ensures Account(Next(lower, s, a), t) == Account(s, t) + Asked(s, a, t)
  {
    hide Next, Enabled, Pending, OpOf, Asked;
    OneEntry(lower, s, a);
    EntryIsOwn(lower, s, a, t);
    var r := Next(lower, s, a);
    var done, added := OpsOf(s.log, t), Added(s, r, t);
    assert OpsOf(r.log, t) == done + added;
    assert done + added + Pending(r.cmds[t]) == done + (added + Pending(r.cmds[t]));
    assert done + (Pending(s.cmds[t]) + Asked(s, a, t)) == done + Pending(s.cmds[t]) + Asked(s, a, t);
  }

  lemma NothingYet(threads: nat, t: nat)
    ensures |Init(threads).cmds| == threads && OpsOf(Init(threads).log, t) == []
    ensures t < threads ==> Account(Init(threads), t) == []
  {
  }

  lemma NotAsked(s: State, a: Action, t: nat)
    requires !Enabled(s, a)
    ensures Asked(s, a, t) == []
  {
  }

  lemma StrangerAddsNothing(lower: S.Lowering, s: State, a: Action, t: nat)
    requires Enabled(s, a) && t >= |s.cmds|
    ensures Added(s, Next(lower, s, a), t) == []
  {
    hide CmdNext, VmNext, VmStepEnabled, CmdStepEnabled, Apply, Peeks;
    match a
    case CmdStep(u) => CmdEntryIsNoOthers(lower, s, u, t);
    case VmStep => VmEntryIsNobodys(lower, s, t);
    case _ =>
  }

  lemma NoStrangers(lower: S.Lowering, s: State, a: Action, t: nat)
    requires Enabled(s, a) && t >= |s.cmds| && OpsOf(s.log, t) == []
    ensures |Next(lower, s, a).cmds| == |s.cmds| && OpsOf(Next(lower, s, a).log, t) == []
  {
    hide CmdNext, VmNext, VmStepEnabled, CmdStepEnabled, Apply, Peeks, OpOf;
    OneEntry(lower, s, a);
    StrangerAddsNothing(lower, s, a, t);
  }

  /**
   * The history holds what the threads were asked to do and nothing else: in every run, each
   * operation of each thread has exactly one entry, in the order in which the thread was asked,
   * except for the one it is still about to do; there are no entries of other threads.
   */
  lemma {:induction false} EveryCommandOnce(lower: S.Lowering, threads: nat, acts: seq<Action>, n: nat, t: nat)
    requires n <= |acts|
    ensures var s := At(lower, Init(threads), acts, n);
            && |s.cmds| == threads
            && (t < threads ==> Account(s, t) == Issued(lower, Init(threads), acts, n, t))
            && (t >= threads ==> OpsOf(s.log, t) == [])
  {
    hide Next, Enabled, Account, Asked;
    if n == 0 {
      NothingYet(threads, t);
    } else {
      EveryCommandOnce(lower, threads, acts, n - 1, t);
      var p := At(lower, Init(threads), acts, n - 1);
      if Enabled(p, acts[n - 1]) {
        if t < threads {
          AccountStep(lower, p, acts[n - 1], t);
        } else {
          NoStrangers(lower, p, acts[n - 1], t);
        }
      } else {
        NotAsked(p, acts[n - 1], t);
      }
    }
  }

  // ---------------------------------------------------------------- the last resume decides

  /** Entry i is a pause, continue or step command that took effect. */
  predicate TookEffect(lower: S.Lowering, log: seq<Entry>, i: nat)
    requires i < |log|
  {
    && log[i].Commanded? && !log[i].command.SetFileBreakpoints?
    && S.Accepted(Replay(lower, log[..i]), log[i].command)
  }

  predicate Decided(d: S.State, c: S.Command) {
    match c
    case PauseExecution => d.request == S.StepIn && d.returnsRequired == -1
    case ContinueExecution => d.request == S.NoPause
    case Step(kind) =>
      d.request == kind
      && d.returnsRequired == (match kind case StepOut => 1 case StepOver => 0 case _ => -1)
    case _ => true
  }

  /** Entries that leave the request and the counter alone, or write the counter a pause has still to write. */
  predicate Inert(lower: S.Lowering, log: seq<Entry>, i: nat)
    requires i < |log|
  {
    (log[i].VmDid? ==> log[i].effect == Unparked) && !TookEffect(lower, log, i)
  }

  lemma {:induction false} InertKeeps(lower: S.Lowering, log: seq<Entry>, j: nat)
    requires j < |log| && TookEffect(lower, log, j) && Lawful(lower, log)
    requires forall i: nat | j < i < |log| :: Inert(lower, log, i)
    ensures Decided(Replay(lower, log), log[j].command)
  {
    var front := log[..|log| - 1];
    if j < |log| - 1 {
      assert front[..j] == log[..j];
      forall i: nat | j < i < |front| ensures Inert(lower, front, i) {
        assert front[..i] == log[..i] && Inert(lower, log, i);
      }
      InertKeeps(lower, front, j);
      assert Inert(lower, log, |log| - 1);
    }
  }

  ghost predicate WaitingAt(lower: S.Lowering, s: State, acts: seq<Action>, i: nat)
    requires i <= |acts|
  {
    At(lower, s, acts, i).vm.Waiting?
  }

  /** While the VM thread is in the wait, all it contributes to the history is being woken. */
  lemma WaitStep(lower: S.Lowering, s: State, a: Action)
    requires s.vm.Waiting? && Enabled(s, a) && Next(lower, s, a).vm.Waiting?
    ensures var r := Next(lower, s, a);
            r.log == s.log
            || (|r.log| == |s.log| + 1 && s.log <= r.log
                && (r.log[|s.log|].VmDid? ==> r.log[|s.log|].effect == Unparked))
  {
  }

  lemma {:induction false} WaitingIsSilent(lower: S.Lowering, s: State, acts: seq<Action>, n: nat)
    requires n <= |acts| && (forall i: nat | i <= n :: WaitingAt(lower, s, acts, i))
    ensures s.log <= At(lower, s, acts, n).log
    ensures var log := At(lower, s, acts, n).log;
            forall i: nat | |s.log| <= i < |log| :: log[i].VmDid? ==> log[i].effect == Unparked
  {
    hide Next, Enabled;
    if n > 0 {
      assert WaitingAt(lower, s, acts, n - 1) && WaitingAt(lower, s, acts, n);
      WaitingIsSilent(lower, s, acts, n - 1);
      var p := At(lower, s, acts, n - 1);
      if Enabled(p, acts[n - 1]) {
        WaitStep(lower, p, acts[n - 1]);
      }
    }
  }

  /**
   * When several commands arrive before the VM thread leaves its wait, the last one that took
   * effect decides the request and the counter it wakes up with; it cannot wake up while a pause
   * has the counter still to write.
   */
  lemma LastResumeDecides(lower: S.Lowering, s: State, acts: seq<Action>, n: nat, j: nat)
    requires n <= |acts| && Inv(lower, s) && Inv(lower, At(lower, s, acts, n))
    requires forall i: nat | i <= n :: WaitingAt(lower, s, acts, i)
    requires var log := At(lower, s, acts, n).log;
             && |s.log| <= j < |log| && TookEffect(lower, log, j)
             && forall i: nat | j < i < |log| :: !TookEffect(lower, log, i)
    ensures var r := At(lower, s, acts, n);
            && Decided(r.data.(returnsRequired := Replay(lower, r.log).returnsRequired), r.log[j].command)
            && (!Unsettled(r) ==> Decided(r.data, r.log[j].command))
            && (Unsettled(r) ==> !VmStepEnabled(r))
  {
    WaitingIsSilent(lower, s, acts, n);
    var log := At(lower, s, acts, n).log;
    forall i: nat | j < i < |log| ensures Inert(lower, log, i) {
    }
    InertKeeps(lower, log, j);
    assert WaitingAt(lower, s, acts, n);
  }

  // ---------------------------------------------------------------- uninterrupted runs

  predicate NoSpurious(acts: seq<Action>) {
    forall i | 0 <= i < |acts| :: !acts[i].Spurious?
  }

  /** Some actions, none of them a spurious wake-up, lead from s to r. */
  ghost predicate Reaches(lower: S.Lowering, s: State, r: State) {
    exists acts: seq<Action> :: NoSpurious(acts) && At(lower, s, acts, |acts|) == r
  }

  lemma ReachesSelf(lower: S.Lowering, s: State)
    ensures Reaches(lower, s, s)
  {
    var acts: seq<Action> := [];
    assert NoSpurious(acts) && At(lower, s, acts, |acts|) == s;
  }

  lemma {:induction false} AtPrefix(lower: S.Lowering, s: State, acts: seq<Action>, more: seq<Action>, n: nat)
    requires n <= |acts|
    ensures At(lower, s, acts + more, n) == At(lower, s, acts, n)
  {
    hide Next, Enabled;
    if n > 0 {
      AtPrefix(lower, s, acts, more, n - 1);
    }
  }

  lemma ReachesStep(lower: S.Lowering, s: State, p: State, a: Action)
    requires Reaches(lower, s, p) && Enabled(p, a) && !a.Spurious?
    ensures Reaches(lower, s, Next(lower, p, a))
  {
    hide Next, Enabled;
    var acts: seq<Action> :| NoSpurious(acts) && At(lower, s, acts, |acts|) == p;
    AtPrefix(lower, s, acts, [a], |acts|);
    assert NoSpurious(acts + [a]);
    assert At(lower, s, acts + [a], |acts + [a]|) == Next(lower, p, a);
  }

  ghost predicate SameThreads(p: State, q: State) {
    q.owner == p.owner && q.cmds == p.cmds && q.heap == p.heap
  }

  lemma Take(lower: S.Lowering, s: State, p: State, a: Action) returns (q: State)
    requires Reaches(lower, s, p) && Enabled(p, a) && !a.Spurious?
    ensures q == Next(lower, p, a) && Reaches(lower, s, q)
  {
    hide Reaches, At;
    ReachesStep(lower, s, p, a);
    q := Next(lower, p, a);
  }

  /** A source that is not cached costs the lock and a handle first. */
  lemma CallUpToPush(lower: S.Lowering, s: State, p: State, source: string, line: int, cached: bool) returns (q: State)
    requires Reaches(lower, s, p) && p.vm.Script? && (!cached ==> p.owner == Free)
    ensures Reaches(lower, s, q) && q.vm == CallPush(source, line) && SameThreads(p, q)
    ensures q.data == p.data && q.log == p.log
  {
    hide Reaches, At;
    q := Take(lower, s, p, VmCall(source, line, cached));
    if !cached {
      q := Take(lower, s, q, VmStep);
      q := Take(lower, s, q, VmStep);
    }
  }

  /** A call event nobody interrupts does what StepControl says one call does, whether or not its source is cached. */
  lemma SoloCall(lower: S.Lowering, s: State, p: State, source: string, line: int, cached: bool) returns (q: State)
    requires Reaches(lower, s, p) && p.vm.Script? && (!cached ==> p.owner == Free)
    ensures Reaches(lower, s, q) && q.vm.Script? && SameThreads(p, q)
    ensures q.data == S.OnCall(lower, p.data, source, line)
  {
    hide Reaches, At;
    q := CallUpToPush(lower, s, p, source, line, cached);
    q := Take(lower, s, q, VmStep);
    q := Take(lower, s, q, VmStep);
    if q.vm.CallCompare? {
      q := Take(lower, s, q, VmStep);
    }
    if q.vm.CallLoad? {
      q := Take(lower, s, q, VmStep);
      q := Take(lower, s, q, VmStep);
    }
  }

  /** A return event nobody interrupts does what StepControl says one return does. */
  lemma SoloReturn(lower: S.Lowering, s: State, p: State) returns (q: State)
    requires Reaches(lower, s, p) && p.vm.Script? && p.owner == Free && |p.data.stack| > 0
    ensures Reaches(lower, s, q) && q.vm.Script? && SameThreads(p, q)
    ensures q.data == S.OnReturn(p.data)
  {
    hide Reaches, At;
    q := Take(lower, s, p, VmReturn);
    q := Take(lower, s, q, VmStep);
    q := Take(lower, s, q, VmStep);
    if q.vm.ReturnLock? {
      q := Take(lower, s, q, VmStep);
      q := Take(lower, s, q, VmStep);
    }
  }

  lemma LineUpToCheck(lower: S.Lowering, s: State, p: State, line: int, infos: seq<S.StackEntry>) returns (q: State)
    requires Reaches(lower, s, p) && p.vm.Script? && p.owner == Free && |p.data.stack| > 0
    ensures Reaches(lower, s, q) && q.vm == LineCheck(line, infos)
    ensures q.owner == VmThread && q.cmds == p.cmds && q.heap == p.heap
    ensures var top := |p.data.stack| - 1;
            q.data == p.data.(stack := p.data.stack[top := p.data.stack[top].(line := line)])
    ensures S.BreakpointAt(q.data, line) == S.BreakpointAt(p.data, line)
  {
    hide Reaches, At;
    q := Take(lower, s, p, VmLine(line, infos));
    q := Take(lower, s, q, VmStep);
    q := Take(lower, s, q, VmStep);
  }

  /** The rest of a line event, from the decision on. */
  lemma LineFromDecision(lower: S.Lowering, s: State, p: State) returns (q: State)
    requires Reaches(lower, s, p) && p.vm.LineDecide? && p.owner == VmThread
    ensures Reaches(lower, s, q) && q.owner == Free && q.cmds == p.cmds && q.heap == p.heap
    ensures if p.data.request != S.NoPause && p.data.returnsRequired <= 0 then
              && q.vm.Waiting?
              && q.data == p.data.(isPaused := true, phase := S.Waiting,
                                   status := S.Status(S.Paused, S.PopulateStack(p.vm.infos), p.vm.bpId))
            else q.vm.Script? && q.data == p.data
  {
    hide Reaches, At, S.PopulateStack;
    q := Take(lower, s, p, VmStep);
    if q.vm.LineWait? {
      q := Take(lower, s, q, VmStep);
    }
  }

  /** A line event nobody interrupts does what StepControl says one line event does. */
  lemma SoloLine(lower: S.Lowering, s: State, p: State, line: int, infos: seq<S.StackEntry>) returns (q: State)
    requires Reaches(lower, s, p) && p.vm.Script? && p.owner == Free && |p.data.stack| > 0
    requires p.data.phase == S.Executing && !p.data.isPaused
    ensures Reaches(lower, s, q) && SameThreads(p, q)
    ensures q.data == S.OnLine(p.data, line, infos)
    ensures if q.data.phase == S.Waiting then q.vm.Waiting? else q.vm.Script?
  {
    hide Reaches, At, S.BreakpointAt, S.PopulateStack;
    q := LineUpToCheck(lower, s, p, line, infos);
    q := Take(lower, s, q, VmStep);
    q := LineFromDecision(lower, s, q);
  }

  /** A command nobody interrupts does what StepControl says it does, whether the unlocked check or the lock decides it. */
  lemma SoloCommand(lower: S.Lowering, s: State, p: State, t: nat, c: S.Command) returns (q: State)
    requires Reaches(lower, s, p) && p.owner == Free && t < |p.cmds| && p.cmds[t].Idle?
    requires c.Step? ==> c.kind != S.NoPause
    ensures Reaches(lower, s, q) && q.vm == p.vm && SameThreads(p, q)
    ensures q.data == S.OnCommand(lower, p.data, c)
    ensures q.log == p.log + [Commanded(t, c, S.Code(p.data, c))]
                     + (if c.PauseExecution? && p.data.request == S.NoPause then [Armed(t)] else [])
  {
    hide Reaches, At, S.AddAll, S.Returns, S.Notify;
    q := Take(lower, s, p, Begin(t, Cmd(c)));
    if q.cmds[t].Peek? {
      q := Take(lower, s, q, CmdStep(t));
    }
    if q.cmds[t].Exit? {
      PeekIsAtomic(lower, p.data, Cmd(c));
    } else {
      q := Take(lower, s, q, CmdStep(t));
      q := Take(lower, s, q, CmdStep(t));
    }
    if q.cmds[t].Arming? {
      q := Take(lower, s, q, CmdStep(t));
    }
    q := Take(lower, s, q, CmdStep(t));
  }

  // ---------------------------------------------------------------- resuming under contention

  lemma TakeKeepsInv(lower: S.Lowering, s: State, p: State, a: Action) returns (q: State)
    requires Reaches(lower, s, p) && Inv(lower, p) && Enabled(p, a) && !a.Spurious?
    ensures q == Next(lower, p, a) && Reaches(lower, s, q) && Inv(lower, q)
  {
    hide Reaches, At, Inv, Next, Enabled;
    StepKeepsInv(lower, p, a);
    q := Take(lower, s, p, a);
  }

  /** The VM thread still waits, and the command threads are as many as before. */
  ghost predicate StillWaits(lower: S.Lowering, s: State, p: State, q: State) {
    Reaches(lower, s, q) && Inv(lower, q) && q.vm.Waiting? && |q.cmds| == |p.cmds|
  }

  /** A command thread that holds the lock, whatever it is doing, can finish and give it back. */
  lemma HolderFinishes(lower: S.Lowering, s: State, p: State) returns (q: State)
    requires StillWaits(lower, s, p, p)
    ensures StillWaits(lower, s, p, q) && q.owner == Free
    ensures forall t: nat | t < |p.cmds| && p.cmds[t].Idle? :: q.cmds[t].Idle?
  {
    hide Reaches, At, HistoryExplains, S.OnCommand, S.Code;
    q := p;
    if q.owner != Free {
      var holder := q.owner.t;
      assert CmdHolds(q.cmds[holder]);
      if q.cmds[holder].Body? {
        q := TakeKeepsInv(lower, s, q, CmdStep(holder));
      }
      if q.cmds[holder].Reading? || q.cmds[holder].Arming? {
        q := TakeKeepsInv(lower, s, q, CmdStep(holder));
      }
      q := TakeKeepsInv(lower, s, q, CmdStep(holder));
    }
  }

  lemma HolderFinishesAs(lower: S.Lowering, s: State, p: State, t: nat) returns (q: State)
    requires StillWaits(lower, s, p, p) && t < |p.cmds| && p.owner == Commander(t) && p.cmds[t].Body?
    ensures StillWaits(lower, s, p, q) && q.owner == Free && q.cmds[t].Idle?
  {
    hide Reaches, At, HistoryExplains, S.OnCommand, S.Code;
    q := TakeKeepsInv(lower, s, p, CmdStep(t));
    if q.cmds[t].Reading? || q.cmds[t].Arming? {
      q := TakeKeepsInv(lower, s, q, CmdStep(t));
    }
    q := TakeKeepsInv(lower, s, q, CmdStep(t));
  }

  /** With the lock free, a command thread in the middle of its own command can finish that. */
  lemma ThreadFinishes(lower: S.Lowering, s: State, p: State, t: nat) returns (q: State)
    requires StillWaits(lower, s, p, p) && p.owner == Free && t < |p.cmds|
    ensures StillWaits(lower, s, p, q) && q.owner == Free && q.cmds[t].Idle?
  {
    hide Reaches, At, S.OnCommand, S.Code, PeekDecides, Replay, Lawful;
    q := p;
    assert !CmdHolds(q.cmds[t]) && Linearized(q, t);
    if q.cmds[t].Peek? {
      q := TakeKeepsInv(lower, s, q, CmdStep(t));
    }
    if q.cmds[t].Lock? {
      q := TakeKeepsInv(lower, s, q, CmdStep(t));
      q := HolderFinishesAs(lower, s, q, t);
    } else if q.cmds[t].Exit? {
      q := TakeKeepsInv(lower, s, q, CmdStep(t));
    }
  }

  /** Two steps after the notification, with the lock free, the script goes on. */
  lemma NotifiedWakes(lower: S.Lowering, s: State, p: State) returns (q: State)
    requires Reaches(lower, s, p) && p.vm.Waiting? && p.owner == Free && p.data.phase == S.Notified
    ensures Reaches(lower, s, q) && q.vm.Script? && !q.data.isPaused && q.data.request == p.data.request
  {
    hide Reaches, At;
    q := Take(lower, s, p, VmStep);
    q := Take(lower, s, q, VmStep);
  }

  /**
   * A paused VM can always be resumed: from every reachable state in which the VM thread waits,
   * whoever holds the lock and whatever the command threads are in the middle of, any chosen
   * thread can get the script going again without a spurious wake-up.
   */
  lemma ContinueWakes(lower: S.Lowering, threads: nat, acts: seq<Action>, n: nat, t: nat) returns (q: State)
    requires n <= |acts| && At(lower, Init(threads), acts, n).vm.Waiting?
    requires t < |At(lower, Init(threads), acts, n).cmds|
    ensures Reaches(lower, At(lower, Init(threads), acts, n), q) && q.vm.Script? && !q.data.isPaused
  {
    hide Reaches, At, HistoryExplains, Init;
    var p := At(lower, Init(threads), acts, n);
    Reachable(lower, threads, acts, n);
    ReachesSelf(lower, p);
    q := HolderFinishes(lower, p, p);
    q := ThreadFinishes(lower, p, q, t);
    if q.data.phase == S.Waiting {
      q := SoloCommand(lower, p, q, t, S.ContinueExecution);
    }
    q := NotifiedWakes(lower, p, q);
  }

  // ---------------------------------------------------------------- the unlocked increment

  /** The VM thread has found the counter fit for its unlocked increment and not yet written it back. */
  predicate InWindow(pc: VmPc) {
    pc.CallLoad? || pc.CallStore?
  }

  /** A pending pause that nothing but Continue or a step can keep from the next line event. */
  predicate Latched(s: State) {
    && s.data.request == S.StepIn
    && !InWindow(s.vm) && !s.vm.LineWait?
    && (s.data.returnsRequired < 0 || (s.vm.LineDecide? && s.data.returnsRequired <= 0))
  }

  /** A Continue or step is about to take effect under the lock; a refused one is not a resume. */
  predicate Resuming(s: State, a: Action) {
    && a.CmdStep? && a.t < |s.cmds| && s.cmds[a.t].Body?
    && s.cmds[a.t].op.Cmd? && IsResume(s.cmds[a.t].op.command)
    && S.Accepted(s.data, s.cmds[a.t].op.command)
  }

  /** Step commands in flight name a real step. */
  ghost predicate WellFormedSteps(s: State) {
    forall t: nat | t < |s.cmds| && (s.cmds[t].Peek? || s.cmds[t].Lock? || s.cmds[t].Body?) ::
      s.cmds[t].op.Cmd? && s.cmds[t].op.command.Step? ==> s.cmds[t].op.command.kind != S.NoPause
  }

  lemma LatchStep(lower: S.Lowering, s: State, a: Action)
    requires Latched(s) && Enabled(s, a) && !Resuming(s, a) && WellFormedSteps(s)
    ensures Latched(Next(lower, s, a)) || Next(lower, s, a).vm.LineWait?
    ensures s.vm.LineDecide? && a == VmStep ==> Next(lower, s, a).vm.LineWait?
  {
  }

  lemma WellFormedStepsKept(lower: S.Lowering, s: State, a: Action)
    requires WellFormedSteps(s) && Enabled(s, a)
    ensures WellFormedSteps(Next(lower, s, a))
  {
  }

  /** What the VM thread read for its increment is never below -1. */
  ghost predicate WindowFloor(s: State) {
    && (s.vm.CallLoad? ==> s.data.returnsRequired >= -1)
    && (s.vm.CallStore? ==> s.vm.loaded >= -1)
  }

  lemma WindowFloorKept(lower: S.Lowering, s: State, a: Action)
    requires WindowFloor(s) && PausedAsSeen(s) && Enabled(s, a)
    ensures WindowFloor(Next(lower, s, a))
  {
  }

  lemma {:induction false} ReachableFloor(lower: S.Lowering, threads: nat, acts: seq<Action>, n: nat)
    requires n <= |acts|
    ensures WindowFloor(At(lower, Init(threads), acts, n)) && WellFormedSteps(At(lower, Init(threads), acts, n))
  {
    if n > 0 {
      hide Next, Enabled;
      ReachableFloor(lower, threads, acts, n - 1);
      Reachable(lower, threads, acts, n - 1);
      var p := At(lower, Init(threads), acts, n - 1);
      if Enabled(p, acts[n - 1]) {
        WindowFloorKept(lower, p, acts[n - 1]);
        WellFormedStepsKept(lower, p, acts[n - 1]);
      }
    }
  }

  ghost predicate ResumingAt(lower: S.Lowering, s: State, acts: seq<Action>, i: nat)
    requires i < |acts|
  {
    Resuming(At(lower, s, acts, i), acts[i])
  }

  ghost predicate PausingAt(lower: S.Lowering, s: State, acts: seq<Action>, i: nat)
    requires i <= |acts|
  {
    At(lower, s, acts, i).vm.LineWait?
  }

  /** No Continue or step takes effect, and the VM does not pause, among the first n actions. */
  ghost predicate Undisturbed(lower: S.Lowering, s: State, acts: seq<Action>, n: nat)
    requires n <= |acts|
  {
    && (forall i: nat | i < n :: !ResumingAt(lower, s, acts, i))
    && (forall i: nat | i <= n :: !PausingAt(lower, s, acts, i))
  }

  lemma {:induction false} LatchHolds(lower: S.Lowering, s: State, acts: seq<Action>, n: nat)
    requires n <= |acts| && Latched(s) && WellFormedSteps(s) && Undisturbed(lower, s, acts, n)
    ensures Latched(At(lower, s, acts, n)) && WellFormedSteps(At(lower, s, acts, n))
  {
    hide Next, Enabled, Latched, WellFormedSteps, Resuming;
    if n > 0 {
      assert !ResumingAt(lower, s, acts, n - 1) && !PausingAt(lower, s, acts, n - 1) && !PausingAt(lower, s, acts, n);
      LatchHolds(lower, s, acts, n - 1);
      var p := At(lower, s, acts, n - 1);
      if Enabled(p, acts[n - 1]) {
        LatchStep(lower, p, acts[n - 1]);
        WellFormedStepsKept(lower, p, acts[n - 1]);
      }
    }
  }

  /** The VM thread holds the lock in a line event and is about to go on without pausing. */
  predicate LetsLineThrough(p: State) {
    p.vm.LineDecide? && (p.data.request == S.NoPause || p.data.returnsRequired > 0)
  }

  /** No line event gets through before the VM pauses or somebody resumes it. */
  ghost predicate StopsNextLine(lower: S.Lowering, s: State) {
    forall acts: seq<Action> | Undisturbed(lower, s, acts, |acts|) :: !LetsLineThrough(At(lower, s, acts, |acts|))
  }

  /** Some undisturbed actions lead from s to r. */
  ghost predicate Drifts(lower: S.Lowering, s: State, r: State) {
    exists acts: seq<Action> :: Undisturbed(lower, s, acts, |acts|) && At(lower, s, acts, |acts|) == r
  }

  lemma UndisturbedStep(lower: S.Lowering, s: State, acts: seq<Action>, a: Action)
    requires Undisturbed(lower, s, acts, |acts|)
    requires var p := At(lower, s, acts, |acts|);
             Enabled(p, a) && !Resuming(p, a) && !Next(lower, p, a).vm.LineWait?
    ensures var more := acts + [a];
            Undisturbed(lower, s, more, |more|)
            && At(lower, s, more, |more|) == Next(lower, At(lower, s, acts, |acts|), a)
  {
    hide Next, Enabled, Resuming;
    var more := acts + [a];
    forall i: nat | i <= |acts| ensures At(lower, s, more, i) == At(lower, s, acts, i) {
      AtPrefix(lower, s, acts, [a], i);
    }
    forall i: nat | i < |more| ensures !ResumingAt(lower, s, more, i) {
      if i < |acts| {
        assert !ResumingAt(lower, s, acts, i);
      }
    }
    forall i: nat | i <= |more| ensures !PausingAt(lower, s, more, i) {
      if i <= |acts| {
        assert !PausingAt(lower, s, acts, i);
      }
    }
  }

  lemma Drift(lower: S.Lowering, s: State, p: State, a: Action) returns (q: State)
    requires Drifts(lower, s, p) && Enabled(p, a) && !Resuming(p, a) && !Next(lower, p, a).vm.LineWait?
    ensures q == Next(lower, p, a) && Drifts(lower, s, q)
  {
    hide Next, Enabled, Resuming, Undisturbed, At;
    var acts: seq<Action> :| Undisturbed(lower, s, acts, |acts|) && At(lower, s, acts, |acts|) == p;
    UndisturbedStep(lower, s, acts, a);
    q := Next(lower, p, a);
  }

  lemma DriftsFromSelf(lower: S.Lowering, s: State)
    requires !s.vm.LineWait?
    ensures Drifts(lower, s, s)
  {
    var acts: seq<Action> := [];
    assert At(lower, s, acts, 0) == s;
    assert Undisturbed(lower, s, acts, |acts|);
  }

  lemma LineThroughIsSeen(lower: S.Lowering, r: State, q: State)
    requires Drifts(lower, r, q) && LetsLineThrough(q)
    ensures !StopsNextLine(lower, r)
  {
    hide At, Undisturbed, LetsLineThrough;
  }

  lemma StoreInWindow(lower: S.Lowering, s: State, p: State) returns (q: State)
    requires Drifts(lower, s, p) && InWindow(p.vm) && WindowFloor(p) && p.data.request == S.StepIn && p.owner == Free
    ensures Drifts(lower, s, q) && q.vm.Script? && q.owner == Free
    ensures q.data.request == S.StepIn && q.data.returnsRequired >= 0
  {
    hide Drifts, At;
    q := p;
    if q.vm.CallLoad? {
      q := Drift(lower, s, q, VmStep);
    }
    q := Drift(lower, s, q, VmStep);
  }

  lemma CountedCall(lower: S.Lowering, s: State, p: State) returns (q: State)
    requires Drifts(lower, s, p) && p.vm.Script? && p.owner == Free
    requires p.data.request == S.StepIn && p.data.returnsRequired >= 0
    ensures Drifts(lower, s, q) && q.vm.Script? && q.owner == Free && |q.data.stack| > 0
    ensures q.data.request == S.StepIn && q.data.returnsRequired > 0
  {
    hide Drifts, At;
    q := Drift(lower, s, p, VmCall("", 0, true));
    q := Drift(lower, s, q, VmStep);
    q := Drift(lower, s, q, VmStep);
    q := Drift(lower, s, q, VmStep);
    q := Drift(lower, s, q, VmStep);
    q := Drift(lower, s, q, VmStep);
  }

  lemma PassingLine(lower: S.Lowering, s: State, p: State) returns (q: State)
    requires Drifts(lower, s, p) && p.vm.Script? && p.owner == Free && |p.data.stack| > 0
    requires p.data.request == S.StepIn && p.data.returnsRequired > 0
    ensures Drifts(lower, s, q) && LetsLineThrough(q)
  {
    hide Drifts, At;
    q := Drift(lower, s, p, VmLine(-1, []));
    q := Drift(lower, s, q, VmStep);
    q := Drift(lower, s, q, VmStep);
    q := Drift(lower, s, q, VmStep);
  }

  /**
   * From inside the window: the pausing thread unlocks, the store overwrites the counter, one
   * more call counts it above zero, and the line in that call is let through.
   */
  lemma WindowLetsLineThrough(lower: S.Lowering, r: State, t: nat)
    requires InWindow(r.vm) && WindowFloor(r) && r.data.request == S.StepIn
    requires t < |r.cmds| && r.cmds[t].Exit? && r.cmds[t].locked
    ensures !StopsNextLine(lower, r)
  {
    hide Drifts, At, Undisturbed;
    DriftsFromSelf(lower, r);
    var q := Drift(lower, r, r, CmdStep(t));
    q := StoreInWindow(lower, r, q);
    q := CountedCall(lower, r, q);
    q := PassingLine(lower, r, q);
    LineThroughIsSeen(lower, r, q);
  }

  /**
   * After an accepted PauseExecution no line event is let through, until the VM pauses or
   * somebody resumes it, exactly when the VM thread is not between the comparison and the write
   * of its unlocked increment at the moment of the pause's second write; otherwise the VM thread
   * overwrites the counter. Up to that moment the pause holds the lock, without which no line
   * event is decided.
   */
  lemma PauseStaysDueIff(lower: S.Lowering, s: State, t: nat)
    requires Inv(lower, s) && WindowFloor(s) && WellFormedSteps(s)
    requires t < |s.cmds| && s.cmds[t].Arming?
    ensures StopsNextLine(lower, CmdNext(lower, s, t)) <==> !InWindow(s.vm)
    ensures !LetsLineThrough(s)
  {
    assert s.owner == Commander(t);
    var r := CmdNext(lower, s, t);
    WellFormedStepsKept(lower, s, CmdStep(t));
    WindowFloorKept(lower, s, CmdStep(t));
    if InWindow(s.vm) {
      WindowLetsLineThrough(lower, r, t);
    } else {
      forall acts: seq<Action> | Undisturbed(lower, r, acts, |acts|)
        ensures !LetsLineThrough(At(lower, r, acts, |acts|))
      {
        LatchHolds(lower, r, acts, |acts|);
      }
    }
  }

  lemma StoreBack(lower: S.Lowering, s: State, p: State) returns (q: State)
    requires Reaches(lower, s, p) && p.vm.CallStore? && p.vm.loaded == 0
    ensures Reaches(lower, s, q) && q == Next(lower, p, VmStep) && q.vm.Script? && SameThreads(p, q)
    ensures q.data == p.data.(returnsRequired := 1)
  {
    hide Reaches, At;
    q := Take(lower, s, p, VmStep);
  }

  lemma PositiveCounterRunsOn(d: S.State, line: int, infos: seq<S.StackEntry>)
    requires |d.stack| > 0 && d.files == map[] && d.returnsRequired > 0 && !d.isPaused && d.phase == S.Executing
    ensures var r := S.OnLine(d, line, infos);
            r.request == d.request && !r.isPaused && r.phase == S.Executing
  {
  }

  lemma PausedInMain(lower: S.Lowering, infos: seq<S.StackEntry>) returns (p: State)
    ensures Reaches(lower, Init(1), p) && p.vm.Waiting? && p.owner == Free && p.cmds == [Idle]
    ensures p.data.isPaused && p.data.phase == S.Waiting && |p.data.stack| == 1 && p.data.files == map[]
  {
    var s0 := Init(1);
    ReachesSelf(lower, s0);
    hide Reaches, At;
    p := SoloCall(lower, s0, s0, "main", 1, false);
    p := SoloCommand(lower, s0, p, 0, S.PauseExecution);
    p := SoloLine(lower, s0, p, 1, infos);
  }

  lemma SteppingOver(lower: S.Lowering, s: State, p: State) returns (q: State)
    requires Reaches(lower, s, p) && p.vm.Waiting? && p.owner == Free && p.cmds == [Idle]
    requires p.data.isPaused && p.data.phase == S.Waiting && |p.data.stack| == 1 && p.data.files == map[]
    ensures Reaches(lower, s, q) && q.vm.Script? && q.owner == Free && q.cmds == [Idle]
    ensures q.data.request == S.StepOver && q.data.returnsRequired == 0
    ensures q.data.phase == S.Executing && !q.data.isPaused && |q.data.stack| == 1 && q.data.files == map[]
  {
    hide Reaches, At;
    q := SoloCommand(lower, s, p, 0, S.Step(S.StepOver));
    q := Take(lower, s, q, VmStep);
    q := Take(lower, s, q, VmStep);
  }

  /** The history ends with an accepted PauseExecution of thread 0 and its second write. */
  predicate PauseDone(log: seq<Entry>) {
    && |log| >= 2
    && log[|log| - 2] == Commanded(0, S.PauseExecution, Success) && log[|log| - 1] == Armed(0)
  }

  /** From a running step over: enter a call up to the write of the increment, then Continue and pause. */
  lemma MidIncrement(lower: S.Lowering, s: State, p: State) returns (q: State)
    requires Reaches(lower, s, p) && p.vm.Script? && p.owner == Free && p.cmds == [Idle]
    requires p.data.request == S.StepOver && p.data.returnsRequired == 0
    requires p.data.phase == S.Executing && !p.data.isPaused && p.data.files == map[]
    ensures Reaches(lower, s, q) && q.vm.CallStore? && q.vm.loaded == 0 && q.owner == Free && q.cmds == [Idle]
    ensures q.data.request == S.StepIn && q.data.returnsRequired == -1 && |q.data.stack| == |p.data.stack| + 1
    ensures q.data.phase == S.Executing && !q.data.isPaused && q.data.files == map[]
    ensures PauseDone(q.log)
    ensures |q.data.stack| > 0
  {
    hide Reaches, At;
    q := CallUpToPush(lower, s, p, "callee", 6, false);
    q := Take(lower, s, q, VmStep);
    q := Take(lower, s, q, VmStep);
    q := Take(lower, s, q, VmStep);
    q := Take(lower, s, q, VmStep);
    q := SoloCommand(lower, s, q, 0, S.ContinueExecution);
    q := SoloCommand(lower, s, q, 0, S.PauseExecution);
  }

  /**
   * The overwrite is reachable: a step over has counted into a call, Continue and PauseExecution
   * both succeed while the VM thread is between its read and its write, and the next line event
   * does not pause although the pause was accepted.
   */
  lemma AcceptedPauseCanMissNextLine(lower: S.Lowering, infos: seq<S.StackEntry>)
    returns (accepted: State, overwritten: State, after: State)
    ensures Reaches(lower, Init(1), accepted) && PauseDone(accepted.log)
    ensures accepted.data.request == S.StepIn && accepted.data.returnsRequired == -1
    ensures accepted.vm.CallStore? && accepted.vm.loaded == 0 && |accepted.data.stack| > 0
    ensures overwritten == Next(lower, accepted, VmStep) && overwritten.vm.Script?
    ensures overwritten.data == accepted.data.(returnsRequired := 1)
    ensures Reaches(lower, Init(1), after) && after.vm.Script? && after.data == S.OnLine(overwritten.data, 7, infos)
    ensures after.data.request == S.StepIn && !after.data.isPaused
  {
    hide Reaches, At, Init, S.OnLine;
    var p := PausedInMain(lower, infos);
    p := SteppingOver(lower, Init(1), p);
    accepted := MidIncrement(lower, Init(1), p);
    overwritten := StoreBack(lower, Init(1), accepted);
    after := SoloLine(lower, Init(1), overwritten, 7, infos);
    PositiveCounterRunsOn(overwritten.data, 7, infos);
  }

  /** A PauseExecution of thread 0 up to its first write. */
  lemma HalfPause(lower: S.Lowering, s: State, p: State) returns (q: State)
    requires Reaches(lower, s, p) && p.owner == Free && p.cmds == [Idle] && p.data.request == S.NoPause
    ensures Reaches(lower, s, q) && q.vm == p.vm
    ensures q.owner == Commander(0) && |q.cmds| == 1 && q.cmds[0].Arming?
    ensures q.data == p.data.(request := S.StepIn) && q.log == p.log + [Commanded(0, S.PauseExecution, Success)]
  {
    hide Reaches, At;
    q := Take(lower, s, p, Begin(0, Cmd(S.PauseExecution)));
    q := Take(lower, s, q, CmdStep(0));
    q := Take(lower, s, q, CmdStep(0));
    q := Take(lower, s, q, CmdStep(0));
  }

  /** The first call of the script, with a PauseExecution that has made the first of its two writes. */
  lemma PausingFirstCall(lower: S.Lowering) returns (p: State)
    ensures Reaches(lower, Init(1), p) && p.vm == CallTest("main", 1)
    ensures p.owner == Commander(0) && |p.cmds| == 1 && p.cmds[0].Arming?
    ensures p.data == S.Init.(request := S.StepIn, stack := [S.Frame(lower("main"), 1)])
    ensures p.log == [VmDid(Pushed(S.Frame(lower("main"), 1))), Commanded(0, S.PauseExecution, Success)]
  {
    var s0 := Init(1);
    ReachesSelf(lower, s0);
    hide Reaches, At;
    p := CallUpToPush(lower, s0, s0, "main", 1, true);
    p := Take(lower, s0, p, VmStep);
    p := HalfPause(lower, s0, p);
  }

  /** The hook sees the request but still the old counter, and the pause then finishes. */
  lemma ReadBetweenWrites(lower: S.Lowering, p: State) returns (q: State)
    requires Reaches(lower, Init(1), p) && p.vm.CallTest? && p.owner == Commander(0) && |p.cmds| == 1 && p.cmds[0].Arming?
    requires p.data.request == S.StepIn && p.data.returnsRequired == 0
    ensures Reaches(lower, Init(1), q) && q.vm.CallStore? && q.vm.loaded == 0 && q.owner == Free && q.cmds == [Idle]
    ensures q.data == p.data.(returnsRequired := -1) && q.log == p.log + [Armed(0)]
  {
    hide Reaches, At, Init;
    q := Take(lower, Init(1), p, VmStep);
    q := Take(lower, Init(1), q, VmStep);
    q := Take(lower, Init(1), q, VmStep);
    q := Take(lower, Init(1), q, CmdStep(0));
    q := Take(lower, Init(1), q, CmdStep(0));
  }

  /**
   * No step and no Continue are needed for it: the very first PauseExecution can be missed. Its
   * first write lets the hook of the first call find the initial counter fit for the increment,
   * and the hook's write then comes after the pause's second write.
   */
  lemma FirstPauseCanMissNextLine(lower: S.Lowering, infos: seq<S.StackEntry>)
    returns (accepted: State, overwritten: State, after: State)
    ensures Reaches(lower, Init(1), accepted) && accepted.vm.CallStore? && accepted.cmds == [Idle]
    ensures accepted.log == [VmDid(Pushed(S.Frame(lower("main"), 1))), Commanded(0, S.PauseExecution, Success), Armed(0)]
    ensures accepted.data.request == S.StepIn && accepted.data.returnsRequired == -1
    ensures overwritten == Next(lower, accepted, VmStep) && overwritten.vm.Script?
    ensures overwritten.data == accepted.data.(returnsRequired := 1) && |overwritten.data.stack| > 0
    ensures Reaches(lower, Init(1), after) && after.vm.Script? && after.data == S.OnLine(overwritten.data, 2, infos)
    ensures after.data.request == S.StepIn && !after.data.isPaused
  {
    hide Reaches, At, Init, S.OnLine;
    accepted := PausingFirstCall(lower);
    accepted := ReadBetweenWrites(lower, accepted);
    overwritten := StoreBack(lower, Init(1), accepted);
    after := SoloLine(lower, Init(1), overwritten, 2, infos);
    PositiveCounterRunsOn(overwritten.data, 2, infos);
  }
}
