/**
 * The debugger object: the debug hook and the commands as methods that update its fields, each
 * proved to do to those fields what StepControl says it does. One call is one atomic step here;
 * PauseProtocol interleaves them.
 */
module DebuggerObject {
  import opened Common
  import opened StepControl
  import opened BreakpointTable

  datatype StackInfo = StackInfo(fileNameHandle: FileName, line: int)

  datatype ResolvedBreakpoint = ResolvedBreakpoint(id: nat, line: nat, verified: bool)

  /** The stack with handles read as file names. */
  function Frames(stack: seq<StackInfo>): (frames: seq<Frame>) {
    seq(|stack|, i requires 0 <= i < |stack| => Frame(stack[i].fileNameHandle.text, stack[i].line))
  }

  lemma FramesPush(stack: seq<StackInfo>, info: StackInfo)
    ensures Frames(stack + [info]) == Frames(stack) + [Frame(info.fileNameHandle.text, info.line)]
  {
  }

  lemma FramesPop(stack: seq<StackInfo>)
    requires |stack| > 0
    ensures Frames(stack[..|stack| - 1]) == Frames(stack)[..|stack| - 1]
  {
  }

  lemma FramesLine(stack: seq<StackInfo>, top: nat, line: int)
    requires top < |stack|
    ensures Frames(stack[top := stack[top].(line := line)]) == Frames(stack)[top := Frames(stack)[top].(line := line)]
  {
  }

  lemma PutTwice(table: FileTable, name: string, first: map<nat, Breakpoint>, second: map<nat, Breakpoint>)
    ensures table[name := first][name := second] == table[name := second]
  {
  }

  /** What detaching does to the state: commands answer as for a running VM, and a waiting hook is notified. */
  function Detached(s: State): (r: State) {
    s.(isPaused := false, request := NoPause, stack := [],
       phase := if s.request != NoPause then Notify(s.phase) else s.phase)
  }

  /** What can happen while no VM is attached, short of a new request: the hook does nothing. */
  predicate WhileDetached(a: Action) {
    a.Wake? || (a.Do? && a.command != Command.PauseExecution)
  }

  /**
   * From detaching on, until a new request, nothing is paused: whatever commands arrive and
   * whether or not a waiting hook has woken up, the status is Running and every resume is refused.
   * The only new request possible is PauseExecution, and it is what ends this.
   */
  lemma {:induction false} DetachedIsQuiet(lower: Lowering, s: State, acts: seq<Action>, n: nat, kind: PauseType)
    requires Inv(s) && kind != NoPause && n <= |acts|
    requires forall i | 0 <= i < n :: WhileDetached(acts[i])
    ensures var r := At(lower, Detached(s), acts, n);
            && r.phase != Waiting && r.request == NoPause && !r.isPaused && r.stack == []
            && StepControl.SendStatus(r).runState == Running
            && Code(r, Command.ContinueExecution) == InvalidNotPaused && Code(r, Command.Step(kind)) == InvalidNotPaused
            && StepControl.SendStatus(OnCommand(lower, r, Command.PauseExecution)).runState == Pausing
  {
    if n > 0 {
      DetachedIsQuiet(lower, s, acts, n - 1, kind);
      assert WhileDetached(acts[n - 1]);
    }
  }

  class SquirrelDebugger {
    // PauseMutexDataImpl and the atomic request
    var pauseRequested: PauseType
    var returnsRequired: int
    var isPaused: bool
    var status: Status
    const breakpoints: BreakpointMap
    // SquirrelVmDataImpl
    var attached: bool
    var currentStack: seq<StackInfo>
    var fileNameHandles: map<string, FileName>
    // what the condition variable knows about the VM thread
    var phase: VmPhase

    /** Every handle in use is the table's own, and a cached handle is the one for its source. */
    ghost predicate Valid()
      reads this, breakpoints
    {
      && breakpoints.Valid()
      && (forall i | 0 <= i < |currentStack| :: currentStack[i].fileNameHandle in breakpoints.fileNames)
      && (forall source | source in fileNameHandles ::
            && fileNameHandles[source] in breakpoints.fileNames
            && fileNameHandles[source].text == breakpoints.lower(source))
    }

    ghost function Model(): (s: State)
      reads this, breakpoints
      requires Valid()
    {
      State(pauseRequested, returnsRequired, isPaused, status, Frames(currentStack), breakpoints.Contents(), phase)
    }

    constructor (lower: Lowering)
      ensures Valid() && Model() == Init && !attached && breakpoints.lower == lower && fresh(breakpoints)
    {
      pauseRequested, returnsRequired, isPaused := NoPause, 0, false;
      status := Status(Paused, [], 0);
      breakpoints := new BreakpointMap(lower);
      attached, currentStack, fileNameHandles := false, [], map[];
      phase := Executing;
    }

    method AddVm()
      requires Valid()
      modifies this`attached
      ensures Valid() && attached && Model() == old(Model())
    {
      attached := true;
    }

    method NotifyAll()
      requires Valid()
      modifies this`phase
      ensures Valid() && phase == Notify(old(phase))
    {
      if phase == Waiting {
        phase := Notified;
      }
    }

    /** Detaching resumes the VM, forgets the stack and leaves the breakpoints and the counter alone. */
    method DetachVm()
      requires Valid()
      modifies this
      ensures Valid() && !attached
      ensures Model() == if !old(attached) then old(Model()) else Detached(old(Model()))
      ensures breakpoints.Contents() == old(breakpoints.Contents()) && returnsRequired == old(returnsRequired)
      ensures old(attached) && old(pauseRequested) != NoPause && old(phase) == Waiting ==> phase == Notified
    {
      if attached {
        isPaused := false;
        if pauseRequested != NoPause {
          pauseRequested := NoPause;
          NotifyAll();
        }
        attached := false;
        currentStack := [];
        fileNameHandles := map[];
      }
    }

    method Step(pauseType: PauseType, returns_: int) returns (rc: ReturnCode)
      requires Valid() && pauseType != NoPause && returns_ == Returns(pauseType)
      modifies this
      ensures Valid()
      ensures rc == Code(old(Model()), Command.Step(pauseType))
      ensures Model() == OnCommand(breakpoints.lower, old(Model()), Command.Step(pauseType))
    {
      if !isPaused {
        return InvalidNotPaused;
      }
      returnsRequired := returns_;
      pauseRequested := pauseType;
      NotifyAll();
      return Success;
    }

    method StepIn() returns (rc: ReturnCode)
      requires Valid()
      modifies this
      ensures Valid() && rc == Code(old(Model()), Command.Step(PauseType.StepIn))
      ensures Model() == OnCommand(breakpoints.lower, old(Model()), Command.Step(PauseType.StepIn))
      ensures old(isPaused) ==> pauseRequested == PauseType.StepIn && returnsRequired == -1
    {
      rc := Step(PauseType.StepIn, -1);
    }

    method PauseExecution() returns (rc: ReturnCode)
      requires Valid()
      modifies this
      ensures Valid()
      ensures rc == Code(old(Model()), Command.PauseExecution)
      ensures Model() == OnCommand(breakpoints.lower, old(Model()), Command.PauseExecution)
    {
      if pauseRequested == NoPause {
        pauseRequested := PauseType.StepIn;
        returnsRequired := -1;
      }
      return Success;
    }

    method ContinueExecution() returns (rc: ReturnCode)
      requires Valid()
      modifies this
      ensures Valid()
      ensures rc == Code(old(Model()), Command.ContinueExecution)
      ensures Model() == OnCommand(breakpoints.lower, old(Model()), Command.ContinueExecution)
    {
      if pauseRequested != NoPause {
        pauseRequested := NoPause;
        NotifyAll();
        return Success;
      }
      return InvalidNotPaused;
    }

    method StepOut() returns (rc: ReturnCode)
      requires Valid()
      modifies this
      ensures Valid() && rc == Code(old(Model()), Command.Step(PauseType.StepOut))
      ensures Model() == OnCommand(breakpoints.lower, old(Model()), Command.Step(PauseType.StepOut))
      ensures old(isPaused) ==> pauseRequested == PauseType.StepOut && returnsRequired == 1
    {
      rc := Step(PauseType.StepOut, 1);
    }

    method StepOver() returns (rc: ReturnCode)
      requires Valid()
      modifies this
      ensures Valid() && rc == Code(old(Model()), Command.Step(PauseType.StepOver))
      ensures Model() == OnCommand(breakpoints.lower, old(Model()), Command.Step(PauseType.StepOver))
      ensures old(isPaused) ==> pauseRequested == PauseType.StepOver && returnsRequired == 0
    {
      rc := Step(PauseType.StepOver, 0);
    }

    method SendStatus() returns (published: Status)
      requires Valid()
      ensures published == StepControl.SendStatus(Model())
    {
      published := Status(Running, [], 0);
      if pauseRequested != NoPause {
        if isPaused {
          published := status;
          published := published.(runState := Paused);
        } else if pauseRequested == PauseType.StepIn {
          published := published.(runState := Pausing);
        } else {
          published := published.(runState := Stepping);
        }
      }
    }

    method ResolveAll(entries: seq<Breakpoint>) returns (rc: ReturnCode, resolved: seq<ResolvedBreakpoint>)
      ensures rc == if ValidEntries(entries) then Success else InvalidParameter
      ensures |resolved| <= |entries| && (rc == Success ==> |resolved| == |entries|)
      ensures forall i | 0 <= i < |resolved| ::
                resolved[i] == ResolvedBreakpoint(entries[i].id, entries[i].line, true)
      ensures rc != Success ==>
                |resolved| < |entries| && (entries[|resolved|].id == 0 || entries[|resolved|].line == 0)
    {
      resolved := [];
      for i := 0 to |entries|
        invariant |resolved| == i
        invariant forall j | 0 <= j < i :: entries[j].id != 0 && entries[j].line != 0
        invariant forall j | 0 <= j < i :: resolved[j] == ResolvedBreakpoint(entries[j].id, entries[j].line, true)
      {
        if entries[i].id == 0 || entries[i].line == 0 {
          return InvalidParameter, resolved;
        }
        resolved := resolved + [ResolvedBreakpoint(entries[i].id, entries[i].line, true)];
      }
      return Success, resolved;
    }

    static method ReplaceAll(breakpoints: BreakpointMap, handle: FileName, entries: seq<Breakpoint>)
      requires breakpoints.Valid() && handle in breakpoints.fileNames
      modifies breakpoints
      ensures breakpoints.Valid() && breakpoints.fileNames == old(breakpoints.fileNames)
      ensures breakpoints.Contents() == old(breakpoints.Contents())[handle.text := AddAll(map[], entries)]
    {
      PutTwice(breakpoints.Contents(), handle.text, map[], AddAll(map[], entries));
      breakpoints.Clear(handle);
      breakpoints.AddAll(handle, entries);
    }

    method Install(file: string, entries: seq<Breakpoint>)
      requires Valid()
      modifies breakpoints
      ensures Valid()
      ensures Model() == old(Model()).(files := old(Model()).files[breakpoints.lower(file) := AddAll(map[], entries)])
    {
      hide ByName, Frames, StepControl.AddAll;
      var handle := breakpoints.EnsureFileNameHandle(file);
      assert Valid() && Model() == old(Model());
      ReplaceAll(breakpoints, handle, entries);
    }

    /** A rejected list changes nothing, but the entries before the bad one were already reported back. */
    method SetFileBreakpoints(file: string, entries: seq<Breakpoint>)
      returns (rc: ReturnCode, resolved: seq<ResolvedBreakpoint>)
      requires Valid()
      modifies this, breakpoints
      ensures Valid()
      ensures rc == Code(old(Model()), Command.SetFileBreakpoints(file, entries))
      ensures Model() == OnCommand(breakpoints.lower, old(Model()), Command.SetFileBreakpoints(file, entries))
      ensures rc == if forall i | 0 <= i < |entries| :: entries[i].id > 0 && entries[i].line > 0 then Success
                    else InvalidParameter
      ensures |resolved| <= |entries| && (rc == Success ==> |resolved| == |entries|)
      ensures forall i | 0 <= i < |resolved| ::
                resolved[i] == ResolvedBreakpoint(entries[i].id, entries[i].line, true)
      ensures rc != Success ==>
                |resolved| < |entries| && (entries[|resolved|].id == 0 || entries[|resolved|].line == 0)
    {
      rc, resolved := ResolveAll(entries);
      if rc == Success {
        Install(file, entries);
      }
    }

    /** The cached handle of a source, or a new cache entry. */
    method HandleOf(sourceName: string) returns (handle: FileName)
      requires Valid()
      modifies this`fileNameHandles, breakpoints
      ensures Valid() && Model() == old(Model())
      ensures handle in breakpoints.fileNames && handle.text == breakpoints.lower(sourceName)
    {
      if sourceName !in fileNameHandles {
        handle := breakpoints.EnsureFileNameHandle(sourceName);
        fileNameHandles := fileNameHandles[sourceName := handle];
      } else {
        handle := fileNameHandles[sourceName];
      }
    }

    method HookCall(sourceName: string, line: int)
      requires Valid()
      modifies this, breakpoints
      ensures Valid() && attached == old(attached) && Model() == OnCall(breakpoints.lower, old(Model()), sourceName, line)
    {
      var fileNameHandle := HandleOf(sourceName);
      FramesPush(currentStack, StackInfo(fileNameHandle, line));
      currentStack := currentStack + [StackInfo(fileNameHandle, line)];
      if pauseRequested != NoPause {
        if returnsRequired >= 0 {
          returnsRequired := returnsRequired + 1;
        }
      }
    }

    method HookReturn()
      requires Valid() && |currentStack| > 0
      modifies this
      ensures Valid() && attached == old(attached) && Model() == OnReturn(old(Model()))
    {
      FramesPop(currentStack);
      currentStack := currentStack[..|currentStack| - 1];
      if pauseRequested != NoPause {
        returnsRequired := returnsRequired - 1;
      }
    }

    /** A hit becomes a pause request that is due at once; the default breakpoint (id 0) means no hit. */
    method CheckBreakpoint(handle: FileName, line: int) returns (bp: Breakpoint)
      requires Valid() && handle in breakpoints.fileNames
      modifies this`returnsRequired, this`pauseRequested
      ensures Valid()
      ensures var read := if 0 <= line < INT32_MAX then Lookup(breakpoints.Contents(), handle.text, line) else None;
              && bp == (if read.Some? then read.value else Breakpoint(0, 0))
              && returnsRequired == (if read.Some? then 0 else old(returnsRequired))
              && pauseRequested == (if read.Some? then PauseType.StepIn else old(pauseRequested))
    {
      bp := Breakpoint(0, 0);
      if line >= 0 && line < INT32_MAX {
        var found, read := breakpoints.ReadBreakpoint(handle, line, bp);
        bp := read;
        if found {
          returnsRequired := 0;
          pauseRequested := PauseType.StepIn;
        }
      }
    }

    method HookLine(line: int, infos: seq<StackEntry>)
      requires Valid() && |currentStack| > 0
      modifies this
      ensures Valid() && attached == old(attached) && Model() == OnLine(old(Model()), line, infos)
      ensures phase == Waiting && old(phase) != Waiting ==> status.runState == Paused && ShowsStack(status.stack, infos)
    {
      hide Lookup, ByName;
      var top := |currentStack| - 1;
      var handle := currentStack[top].fileNameHandle;
      FramesLine(currentStack, top, line);
      currentStack := currentStack[top := StackInfo(handle, line)];

      var bp := CheckBreakpoint(handle, line);
      if pauseRequested != NoPause && returnsRequired <= 0 {
        isPaused := true;
        status := Status(Paused, PopulateStack(infos), bp.id);
        phase := Waiting;
      }
    }

    /**
     * The debug hook. On a pause it returns where the original blocks in the condition wait; while
     * no VM is attached it does nothing.
     */
    method SquirrelNativeDebugHook(eventType: char, sourceName: string, line: int, infos: seq<StackEntry>)
      requires Valid() && phase == Executing
      requires attached && eventType in "rl" ==> |currentStack| > 0
      modifies this, breakpoints
      ensures Valid() && attached == old(attached)
      ensures Model() == if !attached then old(Model())
                         else match eventType
                              case 'c' => OnCall(breakpoints.lower, old(Model()), sourceName, line)
                              case 'r' => OnReturn(old(Model()))
                              case 'l' => OnLine(old(Model()), line, infos)
                              case _ => old(Model())
    {
      if !attached {
        return;
      }
      if eventType == 'c' {
        HookCall(sourceName, line);
      } else if eventType == 'r' {
        HookReturn();
      } else if eventType == 'l' {
        HookLine(line, infos);
      }
    }

    /** What the hook does once the condition wait returns. */
    method AfterWait()
      requires Valid() && phase == Notified
      modifies this
      ensures Valid() && Model() == Next(breakpoints.lower, old(Model()), Wake)
    {
      isPaused := false;
      phase := Executing;
    }
  }
}
