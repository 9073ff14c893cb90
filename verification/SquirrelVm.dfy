/**
 * The part of the Squirrel VM the debugger talks to: objects with a type tag and raw bits,
 * tables as slots with holes, arrays, and the operand stack with the few API calls used.
 */
module SquirrelVm {
  import opened Common

  datatype Kind = Null | Integer | Float | Bool | String | Table | Array | Instance | UserData | Other

  /** HSQOBJECT: a type and the raw bits of its value (number, or address for counted objects). */
  datatype Obj = Obj(kind: Kind, raw: int)

  datatype Slot = Empty | Entry(key: Obj, val: Obj)

  datatype Local = Local(name: string, value: Obj)

  /** Tables and instances by slots in storage order, arrays by elements. */
  datatype Heap = Heap(slots: map<Obj, seq<Slot>>, arrays: map<Obj, seq<Obj>>)

  /** A key as text, with the iterator from which sq_next yields it. */
  datatype KeyIter = KeyIter(text: string, iter: nat)

  /** What the VM and the C library contribute and the debugger cannot see into. */
  datatype Platform = Platform(
    intern: string -> int,             // address of the interned string
    floatToInt: int -> int,            // conversion of a float's bits
    text: (Heap, Obj) -> string,       // ToString of a key or value
    className: (Heap, Obj) -> string,  // the name of an instance's class, empty when not found
    otherCounted: Obj -> bool,         // whether an object of the remaining types is reference counted
    parseFloat: string -> Option<int>, // stof, as bits
    userDataSize: Obj -> nat,          // what sq_getsize reports for an instance
    delegateSize: Obj -> nat,          // the size of an instance's or user data's delegate
    sort: seq<KeyIter> -> seq<KeyIter>,  // std::sort by text
    longMax: int)                      // LONG_MAX of strtol

  function Int(n: int): (o: Obj) { Obj(Integer, n) }

  function Str(p: Platform, s: string): (o: Obj) { Obj(String, p.intern(s)) }

  predicate IsSlotted(o: Obj) { o.kind == Table || o.kind == Instance }

  predicate IsNumeric(o: Obj) { o.kind == Integer || o.kind == Float }

  function ToInteger(p: Platform, o: Obj): (n: int) {
    if o.kind == Float then p.floatToInt(o.raw) else o.raw
  }

  function SlotsOf(h: Heap, o: Obj): (slots: seq<Slot>) {
    if o in h.slots then h.slots[o] else []
  }

  function ElementsOf(h: Heap, o: Obj): (elements: seq<Obj>) {
    if o in h.arrays then h.arrays[o] else []
  }

  // ---------------------------------------------------------------- tables

  /** The first occupied slot at or after i. */
  function NextSlot(slots: seq<Slot>, i: nat): (r: Option<nat>)
    ensures r.Some? ==> i <= r.value < |slots| && slots[r.value].Entry?
                        && forall j | i <= j < r.value :: slots[j].Empty?
    ensures r.None? ==> forall j | i <= j < |slots| :: slots[j].Empty?
    decreases |slots| - i
  {
    if i >= |slots| then None
    else if slots[i].Entry? then Some(i)
    else NextSlot(slots, i + 1)
  }

  /** Occupied slots. */
  function Used(slots: seq<Slot>): (n: nat)
    ensures n <= |slots|
  {
    if slots == [] then 0 else Used(slots[..|slots| - 1]) + (if slots[|slots| - 1].Entry? then 1 else 0)
  }

  ghost predicate DistinctKeys(slots: seq<Slot>) {
    forall i, j | 0 <= i < j < |slots| && slots[i].Entry? && slots[j].Entry? :: slots[i].key != slots[j].key
  }

  /** The slot a lookup finds: type and raw bits must both match. */
  function FindKey(slots: seq<Slot>, key: Obj, i: nat): (r: Option<nat>)
    ensures r.Some? ==> i <= r.value < |slots| && slots[r.value].Entry? && slots[r.value].key == key
    ensures r.None? ==> forall j | i <= j < |slots| && slots[j].Entry? :: slots[j].key != key
    decreases |slots| - i
  {
    if i >= |slots| then None
    else if slots[i].Entry? && slots[i].key == key then Some(i)
    else FindKey(slots, key, i + 1)
  }

  // ---------------------------------------------------------------- the API's meaning

  /** sq_get. */
  function Get(h: Heap, p: Platform, self: Obj, key: Obj): (r: Option<Obj>) {
    if IsSlotted(self) then
      var slots := SlotsOf(h, self);
      match FindKey(slots, key, 0)
      case None => None
      case Some(i) => Some(slots[i].val)
    else if self.kind == Array && IsNumeric(key) then
      var n := ToInteger(p, key);
      if 0 <= n < |ElementsOf(h, self)| then Some(ElementsOf(h, self)[n]) else None
    else None
  }

  /** What one step of an iteration yields, and the iterator after it. */
  datatype Stepped = Stepped(key: Obj, val: Obj, next: nat)

  /** sq_next from iterator `it`. */
  function Iterate(h: Heap, self: Obj, it: int): (r: Option<Stepped>)
    ensures r.Some? ==> it < r.value.next
  {
    if it < 0 then None
    else if IsSlotted(self) then
      var slots := SlotsOf(h, self);
      match NextSlot(slots, it)
      case None => None
      case Some(i) => Some(Stepped(slots[i].key, slots[i].val, i + 1))
    else if self.kind == Array && it < |ElementsOf(h, self)| then
      Some(Stepped(Int(it), ElementsOf(h, self)[it], it + 1))
    else None
  }

  /** sq_set on an existing member or element. */
  function Put(h: Heap, p: Platform, self: Obj, key: Obj, val: Obj): (r: Option<Heap>) {
    if IsSlotted(self) then
      var slots := SlotsOf(h, self);
      match FindKey(slots, key, 0)
      case None => None
      case Some(i) => Some(h.(slots := h.slots[self := slots[i := Entry(key, val)]]))
    else if self.kind == Array && IsNumeric(key) then
      var elements, n := ElementsOf(h, self), ToInteger(p, key);
      if 0 <= n < |elements| then Some(h.(arrays := h.arrays[self := elements[n := val]])) else None
    else None
  }

  /** sq_rawset: the member is set, or added. */
  function RawPut(h: Heap, self: Obj, key: Obj, val: Obj): (r: Heap) {
    var slots := SlotsOf(h, self);
    match FindKey(slots, key, 0)
    case None => h.(slots := h.slots[self := slots + [Entry(key, val)]])
    case Some(i) => h.(slots := h.slots[self := slots[i := Entry(key, val)]])
  }

  /** sq_getsize. */
  function SizeOf(h: Heap, p: Platform, self: Obj): (n: nat) {
    match self.kind
    case Table => Used(SlotsOf(h, self))
    case Array => |ElementsOf(h, self)|
    case Instance => p.userDataSize(self)
    case _ => 0
  }

  // ---------------------------------------------------------------- the VM object

  /** No table, instance or array holds the object. */
  ghost predicate Unmentioned(h: Heap, t: Obj) {
    && (forall o, i | o in h.slots && 0 <= i < |h.slots[o]| && h.slots[o][i].Entry? :: h.slots[o][i].val != t)
    && (forall o, i | o in h.arrays && 0 <= i < |h.arrays[o]| :: h.arrays[o][i] != t)
  }

  ghost predicate FreshFor(spare: Obj, h: Heap, root: Obj, frames: seq<seq<Local>>) {
    && spare.kind == Table && spare !in h.slots && root != spare && Unmentioned(h, spare)
    && forall f, i | 0 <= f < |frames| && 0 <= i < |frames[f]| :: frames[f][i].value != spare
  }

  class Vm {
    const platform: Platform
    const root: Obj
    const frames: seq<seq<Local>>
    const spare: Obj                   // the table sq_newtable hands out next
    var heap: Heap
    var stack: seq<Obj>

    constructor (platform: Platform, root: Obj, frames: seq<seq<Local>>, spare: Obj, heap: Heap)
      ensures this.platform == platform && this.root == root && this.frames == frames && this.spare == spare
      ensures this.heap == heap && stack == []
    {
      this.platform, this.root, this.frames, this.spare := platform, root, frames, spare;
      this.heap := heap;
      stack := [];
    }

    /** Nothing refers to the table that will be handed out next. */
    ghost predicate SpareIsFresh()
      reads this
    {
      FreshFor(spare, heap, root, frames)
    }

    /** The object at a negative stack index. */
    function Peek(idx: int): (o: Obj)
      reads this
      requires -|stack| <= idx < 0
    {
      stack[|stack| + idx]
    }

    method PushObject(o: Obj)
      modifies this`stack
      ensures stack == old(stack) + [o]
    {
      stack := stack + [o];
    }

    method Push(idx: int)
      requires -|stack| <= idx < 0
      modifies this`stack
      ensures stack == old(stack) + [old(Peek(idx))]
    {
      stack := stack + [Peek(idx)];
    }

    method SqNewTable()
      modifies this`stack, this`heap
      ensures stack == old(stack) + [spare] && heap == old(heap).(slots := old(heap.slots)[spare := []])
    {
      heap := heap.(slots := heap.slots[spare := []]);
      stack := stack + [spare];
    }

    /** Pops the temporary table; as nothing else refers to it, its storage goes with it. */
    method PopNewTable()
      requires |stack| > 0 && Peek(-1) == spare
      modifies this`stack, this`heap
      ensures stack == old(stack)[..|old(stack)| - 1]
      ensures heap == old(heap).(slots := old(heap.slots) - {spare})
    {
      stack := stack[..|stack| - 1];
      heap := heap.(slots := heap.slots - {spare});
    }

    /** Key and value are popped, and stored in the table at idx. */
    method SqRawSet(idx: int)
      requires |stack| >= 3 && -|stack| <= idx < -2 && Peek(idx).kind == Table
      modifies this`stack, this`heap
      ensures heap == RawPut(old(heap), old(Peek(idx)), old(Peek(-2)), old(Peek(-1)))
      ensures stack == old(stack)[..|old(stack)| - 2]
    {
      heap := RawPut(heap, Peek(idx), Peek(-2), Peek(-1));
      stack := stack[..|stack| - 2];
    }

    method Pop(n: nat)
      requires n <= |stack|
      modifies this`stack
      ensures stack == old(stack)[..|old(stack)| - n]
    {
      stack := stack[..|stack| - n];
    }

    /** The key on top becomes the value, or is popped. */
    method SqGet(idx: int) returns (ok: bool)
      requires |stack| >= 2 && -|stack| <= idx < -1
      modifies this`stack
      ensures var found := Get(heap, platform, old(Peek(idx)), old(Peek(-1)));
              && ok == found.Some?
              && stack == old(stack)[..|old(stack)| - 1] + (if ok then [found.value] else [])
    {
      var found := Get(heap, platform, Peek(idx), Peek(-1));
      stack := stack[..|stack| - 1] + if found.Some? then [found.value] else [];
      ok := found.Some?;
    }

    /** The iterator on top is advanced, and key and value are pushed; nothing changes at the end. */
    method SqNext(idx: int) returns (ok: bool)
      requires |stack| >= 2 && -|stack| <= idx < -1
      modifies this`stack
      ensures var step := Iterate(heap, old(Peek(idx)), old(Peek(-1)).raw);
              && ok == step.Some?
              && stack == if ok then old(stack)[..|old(stack)| - 1] + [Int(step.value.next), step.value.key, step.value.val]
                          else old(stack)
    {
      var step := Iterate(heap, Peek(idx), Peek(-1).raw);
      if step.Some? {
        stack := stack[..|stack| - 1] + [Int(step.value.next), step.value.key, step.value.val];
      }
      ok := step.Some?;
    }

    /** Key and value are popped when the member exists and is set; otherwise nothing changes. */
    method SqSet(idx: int) returns (ok: bool)
      requires |stack| >= 3 && -|stack| <= idx < -2
      modifies this`stack, this`heap
      ensures var put := Put(old(heap), platform, old(Peek(idx)), old(Peek(-2)), old(Peek(-1)));
              && ok == put.Some?
              && heap == (if ok then put.value else old(heap))
              && stack == if ok then old(stack)[..|old(stack)| - 2] else old(stack)
    {
      var put := Put(heap, platform, Peek(idx), Peek(-2), Peek(-1));
      if put.Some? {
        heap := put.value;
        stack := stack[..|stack| - 2];
      }
      ok := put.Some?;
    }

    /** Pushes a local and returns its name, or returns None and pushes nothing. */
    method SqGetLocal(frame: nat, index: nat) returns (name: Option<string>)
      modifies this`stack
      ensures var exists_ := frame < |frames| && index < |frames[frame]|;
              && name == (if exists_ then Some(frames[frame][index].name) else None)
              && stack == if exists_ then old(stack) + [frames[frame][index].value] else old(stack)
    {
      if frame < |frames| && index < |frames[frame]| {
        stack := stack + [frames[frame][index].value];
        return Some(frames[frame][index].name);
      }
      return None;
    }
  }
}
