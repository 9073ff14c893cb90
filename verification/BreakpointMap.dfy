/**
 * The breakpoint table: file name handles are objects compared by identity, and the table must
 * nevertheless behave like a plain map keyed by lower-cased file name.
 */
module BreakpointTable {
  import opened Common
  import opened StepControl

  /** A shared file name handle; two handles are the same only if they are the same object. */
  class FileName {
    const text: string

    constructor (text: string)
      ensures this.text == text
    {
      this.text := text;
    }
  }

  ghost predicate DistinctNames(handles: set<FileName>) {
    forall f, g | f in handles && g in handles && f.text == g.text :: f == g
  }

  /** A table by handle, read as a table by name. */
  ghost function ByName(table: map<FileName, map<nat, Breakpoint>>): (c: FileTable)
    requires DistinctNames(table.Keys)
  {
    map f | f in table.Keys :: f.text := table[f]
  }

  lemma ByNameHas(table: map<FileName, map<nat, Breakpoint>>, handle: FileName)
    requires DistinctNames(table.Keys + {handle})
    ensures handle.text in ByName(table) <==> handle in table
    ensures handle in table ==> ByName(table)[handle.text] == table[handle]
  {
  }

  lemma ByNamePut(table: map<FileName, map<nat, Breakpoint>>, handle: FileName, lines: map<nat, Breakpoint>)
    requires DistinctNames(table.Keys + {handle})
    ensures DistinctNames(table[handle := lines].Keys)
    ensures ByName(table[handle := lines]) == ByName(table)[handle.text := lines]
  {
  }

  class BreakpointMap {
    const lower: Lowering
    var fileNames: seq<FileName>
    var breakpoints: map<FileName, map<nat, Breakpoint>>

    /** One handle per name, and breakpoints only under known handles. */
    ghost predicate Valid()
      reads this
    {
      && (forall i, j | 0 <= i < j < |fileNames| :: fileNames[i].text != fileNames[j].text)
      && (forall f | f in breakpoints :: f in fileNames)
    }

    /** The table as a plain map from name to lines. */
    ghost function Contents(): (c: FileTable)
      reads this
      requires Valid()
    {
      ByName(breakpoints)
    }

    constructor (lower: Lowering)
      ensures Valid() && Contents() == map[] && this.lower == lower && fileNames == []
    {
      this.lower := lower;
      fileNames := [];
      breakpoints := map[];
    }

    method Clear(handle: FileName?)
      requires Valid() && (handle != null ==> handle in fileNames)
      modifies this
      ensures Valid() && fileNames == old(fileNames)
      ensures Contents() == if handle != null && handle.text in old(Contents())
                            then old(Contents())[handle.text := map[]] else old(Contents())
    {
      if handle == null {
        return;
      }
      ByNameHas(breakpoints, handle);
      if handle !in breakpoints {
        return;
      }
      ByNamePut(breakpoints, handle, map[]);
      breakpoints := breakpoints[handle := map[]];
    }

    method AddAll(handle: FileName?, entries: seq<Breakpoint>)
      requires Valid() && (handle != null ==> handle in fileNames)
      modifies this
      ensures Valid() && fileNames == old(fileNames)
      ensures handle == null ==> Contents() == old(Contents())
      ensures handle != null ==>
                var before := if handle.text in old(Contents()) then old(Contents())[handle.text] else map[];
                Contents() == old(Contents())[handle.text := StepControl.AddAll(before, entries)]
    {
      if handle == null {
        return;
      }
      var lines := if handle in breakpoints then breakpoints[handle] else map[];
      ghost var before := lines;
      for i := 0 to |entries|
        invariant lines == StepControl.AddAll(before, entries[..i])
      {
        lines := lines[entries[i].line := entries[i]];
        assert entries[..i + 1][..i] == entries[..i];
      }
      assert entries[..|entries|] == entries;
      ByNameHas(breakpoints, handle);
      ByNamePut(breakpoints, handle, lines);
      breakpoints := breakpoints[handle := lines];
    }

    /** If none is found `bp` is what the caller passed in. */
    method ReadBreakpoint(handle: FileName?, line: nat, bp: Breakpoint) returns (found: bool, result: Breakpoint)
      requires Valid() && (handle != null ==> handle in fileNames)
      ensures found <==> handle != null && Lookup(Contents(), handle.text, line).Some?
      ensures result == if found then Lookup(Contents(), handle.text, line).value else bp
    {
      if handle == null {
        return false, bp;
      }
      ByNameHas(breakpoints, handle);
      if handle !in breakpoints {
        return false, bp;
      }
      if line !in breakpoints[handle] {
        return false, bp;
      }
      return true, breakpoints[handle][line];
    }

    method FindFileNameHandle(fileName: string) returns (handle: FileName?)
      ensures handle != null ==> handle in fileNames && handle.text == lower(fileName)
      ensures handle == null ==> forall f | f in fileNames :: f.text != lower(fileName)
    {
      var fileNameLower := lower(fileName);
      for i := 0 to |fileNames|
        invariant forall j | 0 <= j < i :: fileNames[j].text != fileNameLower
      {
        if fileNames[i].text == fileNameLower {
          return fileNames[i];
        }
      }
      return null;
    }

    method EnsureFileNameHandle(fileName: string) returns (handle: FileName)
      requires Valid()
      modifies this
      ensures Valid() && Contents() == old(Contents()) && breakpoints == old(breakpoints)
      ensures handle in fileNames && handle.text == lower(fileName)
      ensures forall f | f in old(fileNames) :: f in fileNames
      ensures fileNames == old(fileNames) || (fresh(handle) && fileNames == old(fileNames) + [handle])
    {
      var found := FindFileNameHandle(fileName);
      if found == null {
        handle := new FileName(lower(fileName));
        fileNames := fileNames + [handle];
      } else {
        handle := found;
      }
    }
  }
}
