/**
 * Commands that walk a path and then list or assign: WithVariableAtPath with the two callbacks
 * the debugger passes to it, and what an assignment through a path changes.
 */
module PathAccess {
  import opened Common
  import opened SquirrelVm
  import opened Navigation
  import opened Listing
  import opened PathText

  // ---------------------------------------------------------------- places

  /** Where a path ends: a member of a table or instance, or an array element. */
  datatype Place = Member(container: Obj, pos: nat) | Element(container: Obj, index: nat)

  function LastPlace(h: Heap, o: Obj, part: int): (r: Option<Place>) {
    if o.kind == Array then
      var n := ToInt32(part);
      if 0 <= n < |ElementsOf(h, o)| then Some(Element(o, n)) else None
    else if IsSlotted(o) && part >= 0 && NextSlot(SlotsOf(h, o), part).Some? then
      Some(Member(o, NextSlot(SlotsOf(h, o), part).value))
    else None
  }

  function Locate(h: Heap, o: Obj, path: seq<int>): (r: Option<Place>)
    requires path != []
    decreases |path|
  {
    if |path| == 1 then LastPlace(h, o, path[0])
    else
      match Child(h, o, path[0])
      case None => None
      case Some(child) => Locate(h, child, path[1..])
  }

  predicate IsPlace(h: Heap, place: Place) {
    match place
    case Member(c, pos) => IsSlotted(c) && pos < |SlotsOf(h, c)| && SlotsOf(h, c)[pos].Entry?
    case Element(c, index) => c.kind == Array && index < |ElementsOf(h, c)|
  }

  function ValueAt(h: Heap, place: Place): (o: Obj)
    requires IsPlace(h, place)
  {
    match place
    case Member(c, pos) => SlotsOf(h, c)[pos].val
    case Element(c, index) => ElementsOf(h, c)[index]
  }

  /** Locating and navigating agree: one finds the place exactly when the other finds its value. */
  lemma {:induction false} LocateIsNavigate(h: Heap, p: Platform, o: Obj, path: seq<int>)
    requires path != []
    ensures Locate(h, o, path).Some? <==> Navigate(h, p, o, path).Some?
    ensures Locate(h, o, path).Some? ==>
              IsPlace(h, Locate(h, o, path).value)
              && Navigate(h, p, o, path) == Some(ValueAt(h, Locate(h, o, path).value))
    decreases |path|
  {
    match Child(h, o, path[0])
    case None =>
    case Some(child) =>
      if |path| > 1 {
        LocateIsNavigate(h, p, child, path[1..]);
      } else {
        assert path[1..] == [];
      }
  }

  // ---------------------------------------------------------------- new values

  predicate IsPrimitive(o: Obj) {
    o.kind == Bool || o.kind == Integer || o.kind == Float || o.kind == String
  }

  /** The text read as a value of the old value's type; None is a rejection. */
  function Convert(p: Platform, old_: Obj, text: string): (r: Option<Obj>)
    ensures r.Some? ==> r.value.kind == old_.kind && IsPrimitive(r.value)
  {
    match old_.kind
    case Bool => Some(Obj(Bool, if text == "true" || text == "1" then 1 else 0))
    case Integer => (match Stoi(text)
                     case None => None
                     case Some(n) => Some(Int(n)))
    case Float => (match p.parseFloat(text)
                   case None => None
                   case Some(bits) => Some(Obj(Float, bits)))
    case String => Some(Str(p, text))
    case _ => None
  }

  /**
   * Which texts are accepted for a value, and what each is read as, by the kind of the value:
   * "true" and "1" are true and everything else is false; an int in the way of std::stoi; a float;
   * any string as it stands; nothing for values of any other kind.
   */
  lemma ConvertExactly(p: Platform, old_: Obj, text: string)
    ensures match old_.kind
            case Bool => Convert(p, old_, text) == Some(Obj(Bool, if text in ["true", "1"] then 1 else 0))
            case Integer =>
              (match Stoi(text)
               case None => Convert(p, old_, text) == None
               case Some(n) => Convert(p, old_, text) == Some(Obj(Integer, n)))
            case Float =>
              (match p.parseFloat(text)
               case None => Convert(p, old_, text) == None
               case Some(bits) => Convert(p, old_, text) == Some(Obj(Float, bits)))
            case String => Convert(p, old_, text) == Some(Obj(String, p.intern(text)))
            case _ => Convert(p, old_, text) == None
  {
  }

  function Assigned(h: Heap, c: Obj, pos: nat, val: Obj): (r: Heap)
    requires pos < |SlotsOf(h, c)| && SlotsOf(h, c)[pos].Entry?
  {
    h.(slots := h.slots[c := SlotsOf(h, c)[pos := Entry(SlotsOf(h, c)[pos].key, val)]])
  }

  // ---------------------------------------------------------------- what an assignment changes

  /** A primitive member, and the value of the same type that replaces it. */
  predicate Replaceable(h: Heap, c: Obj, pos: nat, val: Obj) {
    IsPlace(h, Member(c, pos)) && IsPrimitive(ValueAt(h, Member(c, pos))) && IsPrimitive(val)
  }

  lemma {:induction false} SameShape(before: seq<Slot>, after: seq<Slot>, i: nat)
    requires |before| == |after| && forall j | 0 <= j < |before| :: before[j].Entry? <==> after[j].Entry?
    ensures NextSlot(before, i) == NextSlot(after, i)
    decreases |before| - i
  {
  }

  /** Every slot stays where it is, with its key. */
  lemma SlotsKeepPlace(h: Heap, c: Obj, pos: nat, val: Obj, o: Obj, part: nat)
    requires Replaceable(h, c, pos, val)
    ensures NextSlot(SlotsOf(Assigned(h, c, pos, val), o), part) == NextSlot(SlotsOf(h, o), part)
  {
    var before, after := SlotsOf(h, o), SlotsOf(Assigned(h, c, pos, val), o);
    SameShape(before, after, part);
  }

  lemma PlacesKept(h: Heap, c: Obj, pos: nat, val: Obj, o: Obj, part: int)
    requires Replaceable(h, c, pos, val)
    ensures LastPlace(Assigned(h, c, pos, val), o, part) == LastPlace(h, o, part)
  {
    hide NextSlot;
    if part >= 0 {
      SlotsKeepPlace(h, c, pos, val, o, part);
    }
  }

  lemma ChildIsAtPlace(h: Heap, o: Obj, part: int)
    ensures match LastPlace(h, o, part)
            case None => Child(h, o, part).None?
            case Some(place) => IsPlace(h, place) && Child(h, o, part) == Some(ValueAt(h, place))
  {
  }

  lemma OtherPlacesKept(h: Heap, c: Obj, pos: nat, val: Obj, place: Place)
    requires Replaceable(h, c, pos, val)
    ensures IsPlace(Assigned(h, c, pos, val), place) <==> IsPlace(h, place)
    ensures IsPlace(h, place) ==>
              ValueAt(Assigned(h, c, pos, val), place) ==
              if place == Member(c, pos) then val else ValueAt(h, place)
  {
  }

  lemma PrimitiveHasNoChildren(h: Heap, p: Platform, o: Obj, path: seq<int>)
    requires IsPrimitive(o) && path != []
    ensures Locate(h, o, path).None? && Navigate(h, p, o, path).None?
  {
  }

  /**
   * After an assignment every path, from any object, ends at the place where it ended before;
   * that place holds the new value if it is the assigned member, and its old value otherwise.
   */
  lemma {:induction false} AssignmentMovesNothing(h: Heap, p: Platform, c: Obj, pos: nat, val: Obj, o: Obj, path: seq<int>)
    requires Replaceable(h, c, pos, val) && path != []
    ensures var h' := Assigned(h, c, pos, val);
            && Locate(h', o, path) == Locate(h, o, path)
            && Navigate(h', p, o, path) ==
               if Locate(h, o, path) == Some(Member(c, pos)) then Some(val) else Navigate(h, p, o, path)
    decreases |path|
  {
    hide Child, LastPlace, Assigned;
    var h' := Assigned(h, c, pos, val);
    PlacesKept(h, c, pos, val, o, path[0]);
    ChildIsAtPlace(h, o, path[0]);
    ChildIsAtPlace(h', o, path[0]);
    var place := LastPlace(h, o, path[0]);
    if place.Some? {
      OtherPlacesKept(h, c, pos, val, place.value);
      if |path| > 1 {
        if place.value == Member(c, pos) {
          PrimitiveHasNoChildren(h, p, ValueAt(h, place.value), path[1..]);
          PrimitiveHasNoChildren(h', p, val, path[1..]);
        } else {
          AssignmentMovesNothing(h, p, c, pos, val, ValueAt(h, place.value), path[1..]);
        }
      } else {
        assert path[1..] == [];
      }
    }
  }

  lemma {:induction false} SameKeys(before: seq<Slot>, after: seq<Slot>, key: Obj, i: nat)
    requires |before| == |after|
    requires forall j | 0 <= j < |before| ::
               (before[j].Entry? <==> after[j].Entry?) && (before[j].Entry? ==> before[j].key == after[j].key)
    ensures FindKey(before, key, i) == FindKey(after, key, i)
    decreases |before| - i
  {
    if i < |before| {
      SameKeys(before, after, key, i + 1);
    }
  }

  /** With distinct keys the lookup of a slot's key finds that slot. */
  lemma KeyIsAt(slots: seq<Slot>, pos: nat)
    requires DistinctKeys(slots) && pos < |slots| && slots[pos].Entry?
    ensures FindKey(slots, slots[pos].key, 0) == Some(pos)
  {
  }

  /** Every key of every table looks up what it looked up before, except the assigned one. */
  lemma OtherKeysKept(h: Heap, p: Platform, c: Obj, pos: nat, val: Obj, o: Obj, key: Obj)
    requires Replaceable(h, c, pos, val) && DistinctKeys(SlotsOf(h, c))
    ensures var h' := Assigned(h, c, pos, val);
            Get(h', p, o, key) == if o == c && key == SlotsOf(h, c)[pos].key then Some(val) else Get(h, p, o, key)
  {
    var before, after := SlotsOf(h, o), SlotsOf(Assigned(h, c, pos, val), o);
    SameKeys(before, after, key, 0);
    if o == c && key == SlotsOf(h, c)[pos].key {
      KeyIsAt(before, pos);
    }
  }

  /** The same path reads the new value back, with the old basic type. */
  lemma AssignmentReadsBack(h: Heap, p: Platform, o: Obj, path: seq<int>, text: string)
    requires path != [] && Locate(h, o, path).Some? && Locate(h, o, path).value.Member?
    ensures var place := Locate(h, o, path).value;
            && IsPlace(h, place)
            && match Convert(p, ValueAt(h, place), text)
               case None => true
               case Some(val) =>
                 var h' := Assigned(h, place.container, place.pos, val);
                 && Navigate(h', p, o, path) == Some(val)
                 && Navigate(h, p, o, path).Some? && Navigate(h, p, o, path).value.kind == val.kind
  {
    LocateIsNavigate(h, p, o, path);
    var place := Locate(h, o, path).value;
    var val := Convert(p, ValueAt(h, place), text);
    if val.Some? {
      AssignmentMovesNothing(h, p, place.container, place.pos, val.value, o, path);
    }
  }

  // ---------------------------------------------------------------- the methods

  /** The two callbacks WithVariableAtPath is called with. */
  datatype Callback = ListChildren(begin: nat, count: nat) | Assign(text: string)

  datatype Output = Nothing | Variables(variables: seq<Variable>) | NewValue(variable: Variable)

  ghost predicate HeapOk(h: Heap) {
    forall o | o in h.slots :: DistinctKeys(h.slots[o])
  }

  function Top(stack: seq<Obj>): (o: Obj)
    requires stack != []
  {
    stack[|stack| - 1]
  }

  /** What one part of a path puts on the operand stack: an element, or iterator, key and value. */
  function OnePushed(h: Heap, o: Obj, part: int): (pushed: seq<Obj>)
    requires Child(h, o, part).Some?
    ensures pushed != [] && Top(pushed) == Child(h, o, part).value
  {
    if o.kind == Array then [Child(h, o, part).value]
    else
      var step := Iterate(h, o, part).value;
      [Int(step.next), step.key, step.val]
  }

  /** What a whole path puts there, up to where it leads nowhere. */
  function Pushed(h: Heap, o: Obj, path: seq<int>): (pushed: seq<Obj>)
    decreases |path|
  {
    if path == [] then []
    else
      match Child(h, o, path[0])
      case None => []
      case Some(child) => OnePushed(h, o, path[0]) + Pushed(h, child, path[1..])
  }

  /**
   * What the assignment callback does with the stack it is called with: the value on top is
   * converted, and stored in the fourth object from the top under the second as the key.
   */
  ghost predicate Sets(h: Heap, h': Heap, p: Platform, stack: seq<Obj>, text: string, rc: ReturnCode, out: Output) {
    && |stack| >= 4
    && match Convert(p, Top(stack), text)
       case None => rc == InvalidParameter && h' == h && out == Nothing
       case Some(val) =>
         match Put(h, p, stack[|stack| - 4], stack[|stack| - 2], val)
         case None => rc == ErrorInternal && h' == h && out == Nothing
         case Some(put) => rc == Success && h' == put && out == NewValue(Described(h', p, val))
  }

  /** What the callback relies on: a page that starts inside, or four objects on the stack. */
  ghost predicate Ready(h: Heap, p: Platform, stack: seq<Obj>, path: seq<int>, cb: Callback) {
    && stack != []
    && (Navigate(h, p, Top(stack), path).Some? ==>
          match cb
          case ListChildren(begin, _) => PageStarts(h, p, Navigate(h, p, Top(stack), path).value, begin)
          case Assign(_) => |stack| + |Pushed(h, Top(stack), path)| >= 4)
  }

  /** What a call leaves behind; only the assignment callback itself replaces the top of the stack. */
  ghost predicate Leaves(h: Heap, stack: seq<Obj>, h': Heap, stack': seq<Obj>, p: Platform,
                         path: seq<int>, cb: Callback, rc: ReturnCode, out: Output)
    requires stack != []
  {
    && |stack'| == |stack| && stack'[..|stack| - 1] == stack[..|stack| - 1]
    && (stack' == stack || (cb.Assign? && path == []))
    && match Navigate(h, p, Top(stack), path)
       case None => rc == InvalidParameter && h' == h && out == Nothing
       case Some(o) =>
         match cb
         case ListChildren(begin, count) =>
           && rc == Success && h' == h && PageStarts(h, p, o, begin)
           && out == Variables(Children(h, p, o, begin, count))
         case Assign(text) => Sets(h, h', p, stack + Pushed(h, Top(stack), path), text, rc, out)
  }

  /** The value on top gives way to the text read as a value of its type. */
  method PushConverted(v: Vm, text: string) returns (rc: ReturnCode)
    requires |v.stack| > 0
    modifies v`stack
    ensures match Convert(v.platform, old(v.Peek(-1)), text)
            case None => rc == InvalidParameter && v.stack == old(v.stack)
            case Some(val) => rc == Success && v.stack == old(v.stack)[..|old(v.stack)| - 1] + [val]
  {
    hide Stoi;
    var o := v.Peek(-1);
    match o.kind
    case Bool =>
      v.Pop(1);
      v.PushObject(Obj(Bool, if text == "true" || text == "1" then 1 else 0));
      return Success;
    case Integer =>
      var n := Stoi(text);
      if n.None? {
        return InvalidParameter;
      }
      v.Pop(1);
      v.PushObject(Int(n.value));
      return Success;
    case Float =>
      var bits := v.platform.parseFloat(text);
      if bits.None? {
        return InvalidParameter;
      }
      v.Pop(1);
      v.PushObject(Obj(Float, bits.value));
      return Success;
    case String =>
      v.Pop(1);
      v.PushObject(Str(v.platform, text));
      return Success;
    case _ => return InvalidParameter;
  }

  /** The value on top is replaced by the text read as its type, and stored under the key below it. */
  method UpdateFromString(v: Vm, objIdx: int, text: string) returns (rc: ReturnCode)
    requires |v.stack| >= 4 && objIdx == -4
    modifies v`stack, v`heap
    ensures match Convert(v.platform, old(v.Peek(-1)), text)
            case None => rc == InvalidParameter && v.stack == old(v.stack) && v.heap == old(v.heap)
            case Some(val) =>
              match Put(old(v.heap), v.platform, old(v.Peek(-4)), old(v.Peek(-2)), val)
              case None => rc == ErrorInternal && |v.stack| == |old(v.stack)| && v.heap == old(v.heap)
                           && v.stack[..|v.stack| - 1] == old(v.stack)[..|v.stack| - 1]
              case Some(h) => rc == Success && v.stack == old(v.stack)[..|old(v.stack)| - 2] && v.heap == h
  {
    hide Convert, Put;
    ghost var base := v.stack;
    rc := PushConverted(v, text);
    if rc != Success {
      return;
    }
    assert v.Peek(-4) == base[|base| - 4] && v.Peek(-2) == base[|base| - 2];
    var ok := v.SqSet(objIdx);
    return if ok then Success else ErrorInternal;
  }

  /** What sq_set stored, sq_get finds. */
  lemma PutThenGet(h: Heap, p: Platform, c: Obj, key: Obj, val: Obj)
    requires Put(h, p, c, key, val).Some?
    ensures Get(Put(h, p, c, key, val).value, p, c, key) == Some(val)
  {
    if IsSlotted(c) {
      SameKeys(SlotsOf(h, c), SlotsOf(Put(h, p, c, key, val).value, c), key, 0);
    }
  }

  method AssignCallback(v: Vm, text: string) returns (rc: ReturnCode, out: Output)
    requires |v.stack| >= 4
    modifies v`stack, v`heap
    ensures |v.stack| == |old(v.stack)| && v.stack[..|v.stack| - 1] == old(v.stack)[..|v.stack| - 1]
    ensures Sets(old(v.heap), v.heap, v.platform, old(v.stack), text, rc, out)
  {
    hide Convert, Put, Get, Described;
    ghost var h, stack := v.heap, v.stack;
    var key := v.Peek(-2);
    ghost var c := v.Peek(-4);
    rc := UpdateFromString(v, -4, text);
    if rc != Success {
      return rc, Nothing;
    }
    ghost var val := Convert(v.platform, Top(stack), text).value;
    PutThenGet(h, v.platform, c, key, val);
    v.PushObject(key);
    v.PushObject(key);
    assert v.Peek(-4) == c;
    var ok := v.SqGet(-4);
    if !ok {
      assert false;
    }
    var variable := CreateChildVariable(v);
    out := NewValue(variable);
  }

  /** The callback, run with the object the path leads to on top. */
  method RunCallback(v: Vm, cb: Callback) returns (rc: ReturnCode, out: Output)
    requires Ready(v.heap, v.platform, v.stack, [], cb)
    modifies v`stack, v`heap
    ensures Leaves(old(v.heap), old(v.stack), v.heap, v.stack, v.platform, [], cb, rc, out)
  {
    hide Sets, Children, PageStarts;
    assert v.stack + Pushed(v.heap, Top(v.stack), []) == v.stack;
    match cb
    case ListChildren(begin, count) =>
      var variables := CreateChildVariables(v, begin, count);
      return Success, Variables(variables);
    case Assign(text) =>
      rc, out := AssignCallback(v, text);
  }

  lemma ReadyMeansNonempty(h: Heap, p: Platform, stack: seq<Obj>, path: seq<int>, cb: Callback)
    requires Ready(h, p, stack, path, cb)
    ensures stack != []
  {
  }

  /** Where no child is found, returning InvalidParameter with nothing touched is right. */
  lemma NothingThere(h: Heap, p: Platform, stack: seq<Obj>, path: seq<int>, cb: Callback)
    requires stack != [] && path != [] && Child(h, Top(stack), path[0]).None?
    ensures Leaves(h, stack, h, stack, p, path, cb, InvalidParameter, Nothing)
  {
  }

  /** `inner` is the stack with what the first part of the path pushes. */
  ghost predicate PartPushed(h: Heap, base: seq<Obj>, inner: seq<Obj>, path: seq<int>) {
    && base != [] && path != [] && Child(h, Top(base), path[0]).Some?
    && inner == base + OnePushed(h, Top(base), path[0])
  }

  lemma PushedUnfolds(h: Heap, stack: seq<Obj>, path: seq<int>)
    requires stack != [] && path != [] && Child(h, Top(stack), path[0]).Some?
    ensures var inner := stack + OnePushed(h, Top(stack), path[0]);
            stack + Pushed(h, Top(stack), path)
            == inner + Pushed(h, Child(h, Top(stack), path[0]).value, path[1..])
  {
    var one, rest := OnePushed(h, Top(stack), path[0]), Pushed(h, Child(h, Top(stack), path[0]).value, path[1..]);
    assert stack + (one + rest) == stack + one + rest;
  }

  /** Walking on from there pushes the rest. */
  lemma PushedStep(h: Heap, p: Platform, base: seq<Obj>, inner: seq<Obj>, path: seq<int>)
    requires PartPushed(h, base, inner, path)
    ensures |inner| > |base| && inner[..|base|] == base && Top(inner) == Child(h, Top(base), path[0]).value
    ensures Navigate(h, p, Top(base), path) == Navigate(h, p, Top(inner), path[1..])
    ensures base + Pushed(h, Top(base), path) == inner + Pushed(h, Top(inner), path[1..])
    ensures |base| + |Pushed(h, Top(base), path)| == |inner| + |Pushed(h, Top(inner), path[1..])|
  {
    hide OnePushed;
    var one := OnePushed(h, Top(base), path[0]);
    assert Top(inner) == Top(one);
    PushedUnfolds(h, base, path);
  }

  lemma ReadyBelow(h: Heap, p: Platform, base: seq<Obj>, inner: seq<Obj>, path: seq<int>, cb: Callback)
    requires Ready(h, p, base, path, cb) && PartPushed(h, base, inner, path)
    ensures Ready(h, p, inner, path[1..], cb)
  {
    hide Pushed, OnePushed, Navigate, PageStarts;
    PushedStep(h, p, base, inner, path);
  }

  lemma LeavesBelow(h: Heap, base: seq<Obj>, inner: seq<Obj>, h': Heap, after: seq<Obj>, p: Platform,
                    path: seq<int>, cb: Callback, rc: ReturnCode, out: Output)
    requires PartPushed(h, base, inner, path)
    requires Leaves(h, inner, h', after, p, path[1..], cb, rc, out)
    ensures |after| == |inner| && after[..|base|] == base
    ensures Leaves(h, base, h', base, p, path, cb, rc, out)
  {
    hide Pushed, OnePushed, Navigate, PageStarts, Children, Sets;
    PushedStep(h, p, base, inner, path);
    assert after[..|base|] == after[..|inner| - 1][..|base|] == inner[..|inner| - 1][..|base|];
  }

  method WithMember(v: Vm, path: seq<int>, cb: Callback) returns (rc: ReturnCode, out: Output)
    requires Ready(v.heap, v.platform, v.stack, path, cb) && path != [] && IsSlotted(Top(v.stack))
    modifies v`stack, v`heap
    ensures Leaves(old(v.heap), old(v.stack), v.heap, v.stack, v.platform, path, cb, rc, out)
    decreases |path|, 0
  {
    hide Ready, Leaves;
    ReadyMeansNonempty(v.heap, v.platform, v.stack, path, cb);
    ghost var h, base := v.heap, v.stack;
    v.PushObject(Int(path[0]));
    var ok := v.SqNext(-2);
    if !ok {
      v.Pop(1);
      assert v.stack == base;
      NothingThere(h, v.platform, base, path, cb);
      return InvalidParameter, Nothing;
    }
    ghost var inner := v.stack;
    assert inner == base + OnePushed(h, Top(base), path[0]);
    ReadyBelow(h, v.platform, base, inner, path, cb);
    rc, out := WithVariableAtPath(v, path[1..], cb);
    LeavesBelow(h, base, inner, v.heap, v.stack, v.platform, path, cb, rc, out);
    v.Pop(3);
    assert v.stack == base;
  }

  /**
   * WithVariableAtPath: on every exit, and whatever the path, the operand stack is as found,
   * given a callback that leaves everything below the top alone.
   */
  method WithVariableAtPath(v: Vm, path: seq<int>, cb: Callback) returns (rc: ReturnCode, out: Output)
    requires Ready(v.heap, v.platform, v.stack, path, cb)
    modifies v`stack, v`heap
    ensures Leaves(old(v.heap), old(v.stack), v.heap, v.stack, v.platform, path, cb, rc, out)
    decreases |path|, 1
  {
    hide Ready, Leaves;
    if path == [] {
      rc, out := RunCallback(v, cb);
      return;
    }
    ReadyMeansNonempty(v.heap, v.platform, v.stack, path, cb);
    match v.Peek(-1).kind
    case Array => rc, out := WithArrayElement(v, path, cb);
    case Table => rc, out := WithMember(v, path, cb);
    case Instance => rc, out := WithMember(v, path, cb);
    case _ =>
      NothingThere(v.heap, v.platform, v.stack, path, cb);
      return InvalidParameter, Nothing;
  }

  method WithArrayElement(v: Vm, path: seq<int>, cb: Callback) returns (rc: ReturnCode, out: Output)
    requires Ready(v.heap, v.platform, v.stack, path, cb) && path != [] && Top(v.stack).kind == Array
    modifies v`stack, v`heap
    ensures Leaves(old(v.heap), old(v.stack), v.heap, v.stack, v.platform, path, cb, rc, out)
    decreases |path|, 0
  {
    hide Ready, Leaves;
    ReadyMeansNonempty(v.heap, v.platform, v.stack, path, cb);
    ghost var h, base := v.heap, v.stack;
    var arrSize := SizeOf(v.heap, v.platform, v.Peek(-1));
    var arrIndex := ToInt32(path[0]);
    if arrIndex >= arrSize {
      NothingThere(h, v.platform, base, path, cb);
      return InvalidParameter, Nothing;
    }
    v.PushObject(Int(arrIndex));
    var ok := v.SqGet(-2);
    if !ok {
      assert v.stack == base;
      NothingThere(h, v.platform, base, path, cb);
      return InvalidParameter, Nothing;
    }
    ghost var inner := v.stack;
    assert inner == base + OnePushed(h, Top(base), path[0]);
    ReadyBelow(h, v.platform, base, inner, path, cb);
    rc, out := WithVariableAtPath(v, path[1..], cb);
    LeavesBelow(h, base, inner, v.heap, v.stack, v.platform, path, cb, rc, out);
    v.Pop(1);
    assert v.stack == base;
  }

  // ---------------------------------------------------------------- the commands

  /** A command's answer, or the exception that std::stoi throws through it. */
  datatype Answer = Answer(rc: ReturnCode, out: Output) | Threw

  function LocalAt(frames: seq<seq<Local>>, frame: nat, index: int): (r: Option<Local>) {
    if frame < |frames| && 0 <= index < |frames[frame]| then Some(frames[frame][index]) else None
  }

  /** The locals of a frame from `begin` up to `end`, none of them editable. */
  function LocalsListed(h: Heap, p: Platform, frames: seq<seq<Local>>, frame: nat, begin: nat, end: nat)
    : (vs: seq<Variable>)
    decreases end - begin
  {
    if begin >= end then []
    else
      match LocalAt(frames, frame, begin)
      case None => []
      case Some(l) =>
        [Described(h, p, l.value).(pathIterator := begin, pathUiString := l.name, editable := false)]
        + LocalsListed(h, p, frames, frame, begin + 1, end)
  }

  lemma LocalsStep(h: Heap, p: Platform, frames: seq<seq<Local>>, frame: nat, begin: nat, end: nat)
    ensures begin < end ==>
              LocalsListed(h, p, frames, frame, begin, end) ==
              match LocalAt(frames, frame, begin)
              case None => []
              case Some(l) =>
                [Described(h, p, l.value).(pathIterator := begin, pathUiString := l.name, editable := false)]
                + LocalsListed(h, p, frames, frame, begin + 1, end)
    ensures begin >= end ==> LocalsListed(h, p, frames, frame, begin, end) == []
  {
  }

  /** WithStackRootVariables; the end of the page is a 32-bit sum. */
  method ListLocals(v: Vm, frame: nat, begin: nat, count: nat) returns (rc: ReturnCode, out: Output)
    modifies v`stack
    ensures v.stack == old(v.stack) && rc == Success
    ensures out == Variables(LocalsListed(v.heap, v.platform, v.frames, frame, begin, ToUint32(begin + count)))
  {
    hide ToUint32, Described, Describes, IsBasic, LocalsListed;
    ghost var base := v.stack;
    var maxNSeq := ToUint32(begin + count);
    var nSeq := begin;
    var variables: seq<Variable> := [];
    while nSeq < maxNSeq
      invariant v.stack == base
      invariant LocalsListed(v.heap, v.platform, v.frames, frame, begin, maxNSeq)
             == variables + LocalsListed(v.heap, v.platform, v.frames, frame, nSeq, maxNSeq)
    {
      LocalsStep(v.heap, v.platform, v.frames, frame, nSeq, maxNSeq);
      var localName := v.SqGetLocal(frame, nSeq);
      if localName.None? {
        return Success, Variables(variables);
      }
      var variable := CreateChildVariable(v);
      v.Pop(1);
      assert v.stack == base;
      variables := variables + [variable.(pathIterator := nSeq, pathUiString := localName.value, editable := false)];
      nSeq := nSeq + 1;
    }
    LocalsStep(v.heap, v.platform, v.frames, frame, nSeq, maxNSeq);
    return Success, Variables(variables);
  }

  lemma LocalIsDescribed(h: Heap, p: Platform, l: Local, index: nat)
    ensures var c := Described(h, p, l.value).(pathIterator := index, pathUiString := l.name, editable := false);
            Describes(h, p, c, l.value)
    ensures Described(h, p, l.value).pathTableKeyType == Null
  {
  }

  /** A page of locals is the stretch of the frame it names, unless its end does not fit 32 bits. */
  lemma {:induction false} LocalsPage(
    h: Heap, p: Platform, frames: seq<seq<Local>>, frame: nat, begin: nat, end: nat, i: nat)
    ensures var vs := LocalsListed(h, p, frames, frame, begin, end);
            && (i < |vs| <==> begin + i < end && LocalAt(frames, frame, begin + i).Some?)
            && (i < |vs| ==>
                  && vs[i].pathIterator == begin + i && vs[i].pathTableKeyType == Null && !vs[i].editable
                  && frame < |frames| && begin + i < |frames[frame]|
                  && vs[i].pathUiString == frames[frame][begin + i].name
                  && Describes(h, p, vs[i], frames[frame][begin + i].value))
    decreases end - begin
  {
    hide Described, Describes;
    if begin < end && LocalAt(frames, frame, begin).Some? {
      LocalIsDescribed(h, p, LocalAt(frames, frame, begin).value, begin);
    }
    if begin < end && LocalAt(frames, frame, begin).Some? && i > 0 {
      LocalsPage(h, p, frames, frame, begin + 1, end, i - 1);
    }
  }

  /**
   * The page that ListLocals returns is the one asked for exactly when its end fits 32 bits or
   * nothing was there to list; otherwise the end wraps around and the page is empty.
   */
  lemma LocalsPageIsAskedForIff(h: Heap, p: Platform, frames: seq<seq<Local>>, frame: nat, begin: nat, count: nat)
    requires begin < UINT32_MODULUS && count < UINT32_MODULUS
    ensures (LocalsListed(h, p, frames, frame, begin, ToUint32(begin + count))
             == LocalsListed(h, p, frames, frame, begin, begin + count))
            <==> (begin + count < UINT32_MODULUS || LocalAt(frames, frame, begin).None?)
    ensures begin + count >= UINT32_MODULUS ==> LocalsListed(h, p, frames, frame, begin, ToUint32(begin + count)) == []
  {
  }

  /** What a command on a local's path needs of its callback. */
  ghost predicate LocalReady(v: Vm, frame: nat, path: string, cb: Callback)
    reads v
  {
    match ParsePath(path)
    case None => true
    case Some(parts) =>
      match LocalAt(v.frames, frame, parts[0])
      case None => true
      case Some(l) =>
        if cb.Assign? && |parts| == 1 then true
        else Ready(v.heap, v.platform, v.stack + [l.value], parts[1..], cb)
  }

  /** What a command on a local's path answers and changes. */
  ghost predicate LocalAnswers(h: Heap, h': Heap, p: Platform, stack: seq<Obj>, frames: seq<seq<Local>>, frame: nat,
                               path: string, cb: Callback, answer: Answer)
  {
    if path == "" then answer == Answer(ErrorInternal, Nothing) && h' == h
    else
      match ParsePath(path)
      case None => answer == Threw && h' == h
      case Some(parts) =>
        match LocalAt(frames, frame, parts[0])
        case None => answer == Answer(InvalidParameter, Nothing) && h' == h
        case Some(l) =>
          var walked := stack + [l.value];
          answer.Answer?
          && if cb.Assign? && |parts| == 1 then answer == Answer(InvalidParameter, Nothing) && h' == h
             else Leaves(h, walked, h', walked, p, parts[1..], cb, answer.rc, answer.out)
  }

  lemma PathHasParts(path: string)
    ensures ParsePath(path).Some? ==> ParsePath(path).value != []
  {
  }

  lemma LeavesStack(h: Heap, stack: seq<Obj>, h': Heap, after: seq<Obj>, p: Platform,
                    path: seq<int>, cb: Callback, rc: ReturnCode, out: Output)
    requires stack != [] && (cb.Assign? ==> path != [])
    requires Leaves(h, stack, h', after, p, path, cb, rc, out)
    ensures after == stack
  {
  }

  /** WithStackVariables: the first part of the path names the local; a local itself cannot be assigned. */
  method WithStackVariables(v: Vm, frame: nat, path: string, cb: Callback) returns (answer: Answer)
    requires LocalReady(v, frame, path, cb)
    modifies v`stack, v`heap
    ensures v.stack == old(v.stack)
    ensures LocalAnswers(old(v.heap), v.heap, v.platform, v.stack, v.frames, frame, path, cb, answer)
  {
    hide ParsePath, Leaves, Ready;
    ghost var h, base := v.heap, v.stack;
    if path == "" {
      return Answer(ErrorInternal, Nothing);
    }
    var pathParts := ReadPath(path);
    if pathParts.None? {
      return Threw;
    }
    var parts := pathParts.value;
    PathHasParts(path);
    if parts[0] < 0 {
      return Answer(InvalidParameter, Nothing);
    }
    var localName := v.SqGetLocal(frame, parts[0]);
    if localName.None? {
      return Answer(InvalidParameter, Nothing);
    }
    var rc, out := InvalidParameter, Nothing;
    ghost var inner := v.stack;
    if cb.ListChildren? || |parts| > 1 {
      rc, out := WithVariableAtPath(v, parts[1..], cb);
      LeavesStack(h, inner, v.heap, v.stack, v.platform, parts[1..], cb, rc, out);
    }
    v.Pop(1);
    assert v.stack == base;
    return Answer(rc, out);
  }

  /** What listing below the root table answers. */
  ghost predicate GlobalAnswers(h: Heap, p: Platform, root: Obj, path: string, begin: nat, count: nat, answer: Answer) {
    match if path == "" then Some([]) else ParsePath(path)
    case None => answer == Threw
    case Some(parts) =>
      match Navigate(h, p, root, parts)
      case None => answer == Answer(InvalidParameter, Nothing)
      case Some(o) =>
        PageStarts(h, p, o, begin) && answer == Answer(Success, Variables(Children(h, p, o, begin, count)))
  }

  /** PopulateGlobalVariables: an empty path means the root table itself. */
  method PopulateGlobalVariables(v: Vm, path: string, begin: nat, count: nat) returns (answer: Answer)
    requires var parts := if path == "" then Some([]) else ParsePath(path);
             parts.Some? ==> Ready(v.heap, v.platform, v.stack + [v.root], parts.value, ListChildren(begin, count))
    modifies v`stack, v`heap
    ensures v.stack == old(v.stack) && v.heap == old(v.heap)
    ensures GlobalAnswers(v.heap, v.platform, v.root, path, begin, count, answer)
  {
    hide ParsePath, Navigate, Children, PageStarts;
    ghost var base := v.stack;
    var parts: seq<int> := [];
    if path != "" {
      var pathParts := ReadPath(path);
      if pathParts.None? {
        return Threw;
      }
      parts := pathParts.value;
    }
    v.PushObject(v.root);
    var rc, out := WithVariableAtPath(v, parts, ListChildren(begin, count));
    v.Pop(1);
    assert v.stack == base;
    return Answer(rc, out);
  }

  /** GetStackVariables: an empty path lists the frame's locals, any other path the children it leads to. */
  method GetStackVariables(v: Vm, isPaused: bool, depth: nat, frame: nat, path: string, begin: nat, count: nat)
    returns (answer: Answer)
    requires isPaused && frame <= depth ==> LocalReady(v, frame, path, ListChildren(begin, count))
    modifies v`stack, v`heap
    ensures v.stack == old(v.stack)
    ensures if !isPaused then answer == Answer(InvalidNotPaused, Nothing) && v.heap == old(v.heap)
            else if frame > depth then answer == Answer(InvalidParameter, Nothing) && v.heap == old(v.heap)
            else if path == "" then
              v.heap == old(v.heap)
              && answer == Answer(Success, Variables(
                             LocalsListed(v.heap, v.platform, v.frames, frame, begin, ToUint32(begin + count))))
            else LocalAnswers(old(v.heap), v.heap, v.platform, v.stack, v.frames, frame, path,
                              ListChildren(begin, count), answer)
  {
    hide LocalAnswers, LocalReady, LocalsListed, ToUint32;
    if !isPaused {
      return Answer(InvalidNotPaused, Nothing);
    }
    if frame > depth {
      return Answer(InvalidParameter, Nothing);
    }
    if path == "" {
      var rc, out := ListLocals(v, frame, begin, count);
      return Answer(rc, out);
    }
    answer := WithStackVariables(v, frame, path, ListChildren(begin, count));
  }

  /** SetStackVariableValue. */
  method SetStackVariableValue(v: Vm, isPaused: bool, depth: nat, frame: nat, path: string, newValue: string)
    returns (answer: Answer)
    requires isPaused && frame <= depth ==> LocalReady(v, frame, path, Assign(newValue))
    modifies v`stack, v`heap
    ensures v.stack == old(v.stack)
    ensures if !isPaused then answer == Answer(InvalidNotPaused, Nothing) && v.heap == old(v.heap)
            else if frame > depth then answer == Answer(InvalidParameter, Nothing) && v.heap == old(v.heap)
            else LocalAnswers(old(v.heap), v.heap, v.platform, v.stack, v.frames, frame, path, Assign(newValue), answer)
  {
    hide LocalAnswers, LocalReady;
    if !isPaused {
      return Answer(InvalidNotPaused, Nothing);
    }
    if frame > depth {
      return Answer(InvalidParameter, Nothing);
    }
    answer := WithStackVariables(v, frame, path, Assign(newValue));
  }

  // ---------------------------------------------------------------- assignment through a path

  /** What an assignment of the member at `pos` must leave alone, seen from any object, path and key. */
  ghost predicate OnlyMemberChanged(h: Heap, h': Heap, p: Platform, c: Obj, pos: nat, val: Obj)
    requires IsPlace(h, Member(c, pos))
  {
    && (forall o, path | path != [] ::
          Navigate(h', p, o, path) ==
          if Locate(h, o, path) == Some(Member(c, pos)) then Some(val) else Navigate(h, p, o, path))
    && (forall o, part: nat :: NextSlot(SlotsOf(h', o), part) == NextSlot(SlotsOf(h, o), part))
    && (forall o, key ::
          Get(h', p, o, key) ==
          if o == c && key == SlotsOf(h, c)[pos].key then Some(val) else Get(h, p, o, key))
  }

  lemma AssignedOnlyMember(h: Heap, p: Platform, c: Obj, pos: nat, val: Obj)
    requires Replaceable(h, c, pos, val) && HeapOk(h)
    ensures IsPlace(h, Member(c, pos)) && OnlyMemberChanged(h, Assigned(h, c, pos, val), p, c, pos, val)
  {
    hide Locate, Navigate, Get, Assigned, NextSlot;
    var h' := Assigned(h, c, pos, val);
    forall o, path | path != []
      ensures Navigate(h', p, o, path) ==
              if Locate(h, o, path) == Some(Member(c, pos)) then Some(val) else Navigate(h, p, o, path)
    {
      AssignmentMovesNothing(h, p, c, pos, val, o, path);
    }
    forall o, part: nat ensures NextSlot(SlotsOf(h', o), part) == NextSlot(SlotsOf(h, o), part) {
      SlotsKeepPlace(h, c, pos, val, o, part);
    }
    forall o, key
      ensures Get(h', p, o, key) ==
              if o == c && key == SlotsOf(h, c)[pos].key then Some(val) else Get(h, p, o, key)
    {
      OtherKeysKept(h, p, c, pos, val, o, key);
    }
  }

  /** Whatever the other commands rely on still holds after an assignment. */
  lemma AssignmentKeepsHeap(h: Heap, c: Obj, pos: nat, val: Obj, spare: Obj, root: Obj, frames: seq<seq<Local>>)
    requires Replaceable(h, c, pos, val) && HeapOk(h) && IntSized(h) && FreshFor(spare, h, root, frames)
    ensures var h' := Assigned(h, c, pos, val);
            HeapOk(h') && IntSized(h') && FreshFor(spare, h', root, frames)
  {
    var h' := Assigned(h, c, pos, val);
    forall o, i | o in h'.slots && 0 <= i < |h'.slots[o]| && h'.slots[o][i].Entry?
      ensures h'.slots[o][i].val != spare
    {
      if o in h.slots && (o != c || i != pos) {
        assert h.slots[o][i].Entry? && h'.slots[o][i].val == h.slots[o][i].val;
      }
    }
  }

  lemma OnePushedShape(h: Heap, o: Obj, part: int)
    requires LastPlace(h, o, part).Some? && Child(h, o, part).Some?
    ensures match LastPlace(h, o, part).value
            case Member(c, pos) =>
              && c == o && pos < |SlotsOf(h, o)| && SlotsOf(h, o)[pos].Entry?
              && OnePushed(h, o, part) == [Int(pos + 1), SlotsOf(h, o)[pos].key, SlotsOf(h, o)[pos].val]
            case Element(c, _) => c == o && OnePushed(h, o, part) == [Child(h, o, part).value]
  {
  }

  lemma PushedNothing(h: Heap, o: Obj)
    ensures Pushed(h, o, []) == []
  {
  }

  /** The callback's stack ends with container, iterator, key and value of a member, or with array and element. */
  lemma {:induction false} CallbackStack(h: Heap, stack: seq<Obj>, path: seq<int>)
    requires stack != [] && path != [] && Locate(h, Top(stack), path).Some?
    ensures var place := Locate(h, Top(stack), path).value;
            var full := stack + Pushed(h, Top(stack), path);
            && |full| > |stack| && IsPlace(h, place) && Top(full) == ValueAt(h, place)
            && match place
               case Member(c, pos) =>
                 && |full| >= 4 && pos < |SlotsOf(h, c)| && SlotsOf(h, c)[pos].Entry?
                 && full[|full| - 4] == c && full[|full| - 3].kind == Integer
                 && full[|full| - 2] == SlotsOf(h, c)[pos].key
               case Element(c, _) => full[|full| - 2] == c
    decreases |path|
  {
    hide Pushed, OnePushed, Child, LastPlace, IsPlace, ValueAt;
    ChildIsAtPlace(h, Top(stack), path[0]);
    OnePushedShape(h, Top(stack), path[0]);
    var one := OnePushed(h, Top(stack), path[0]);
    var inner := stack + one;
    assert Top(inner) == Top(one);
    PushedUnfolds(h, stack, path);
    if |path| > 1 {
      CallbackStack(h, inner, path[1..]);
    } else {
      assert path[1..] == [] && Pushed(h, Top(inner), []) == [] by { PushedNothing(h, Top(inner)); }
      assert inner + [] == inner;
    }
  }

  /** sq_set through the key of a member assigns the very slot the iterator reached. */
  lemma AssignMeansPut(h: Heap, p: Platform, c: Obj, pos: nat, val: Obj)
    requires Replaceable(h, c, pos, val) && DistinctKeys(SlotsOf(h, c))
    ensures Put(h, p, c, SlotsOf(h, c)[pos].key, val) == Some(Assigned(h, c, pos, val))
  {
    KeyIsAt(SlotsOf(h, c), pos);
  }

  /** What the callback does when a member is on top. */
  lemma SetsMember(h: Heap, h': Heap, p: Platform, full: seq<Obj>, c: Obj, pos: nat, text: string,
                   rc: ReturnCode, out: Output)
    requires IsPlace(h, Member(c, pos)) && DistinctKeys(SlotsOf(h, c)) && Sets(h, h', p, full, text, rc, out)
    requires full[|full| - 4] == c && full[|full| - 2] == SlotsOf(h, c)[pos].key
    requires Top(full) == ValueAt(h, Member(c, pos))
    ensures match Convert(p, Top(full), text)
            case None => rc == InvalidParameter && h' == h && out == Nothing
            case Some(val) =>
              rc == Success && h' == Assigned(h, c, pos, val) && out == NewValue(Described(h', p, val))
  {
    hide Assigned, Put, Described, DistinctKeys;
    var val := Convert(p, Top(full), text);
    if val.Some? {
      AssignMeansPut(h, p, c, pos, val.value);
    }
  }

  lemma DistinctIn(h: Heap, c: Obj)
    requires HeapOk(h)
    ensures DistinctKeys(SlotsOf(h, c))
  {
  }

  /** The answer to a set, and what the path reads afterwards, for an old value of a kind. */
  ghost predicate Answered(p: Platform, old_: Obj, text: string, rc: ReturnCode, now: Obj) {
    match old_.kind
    case Bool => rc == Success && now == Obj(Bool, if text in ["true", "1"] then 1 else 0)
    case Integer =>
      (match Stoi(text)
       case None => rc == InvalidParameter && now == old_
       case Some(n) => rc == Success && now == Obj(Integer, n))
    case Float =>
      (match p.parseFloat(text)
       case None => rc == InvalidParameter && now == old_
       case Some(bits) => rc == Success && now == Obj(Float, bits))
    case String => rc == Success && now == Obj(String, p.intern(text))
    case _ => rc == InvalidParameter && now == old_
  }

  lemma ConvertedAnswers(p: Platform, old_: Obj, text: string, rc: ReturnCode)
    requires rc == if Convert(p, old_, text).Some? then Success else InvalidParameter
    ensures Answered(p, old_, text, rc, match Convert(p, old_, text) case None => old_ case Some(val) => val)
  {
    hide Stoi;
    ConvertExactly(p, old_, text);
  }

  /**
   * A set through a path that ends in a table: a boolean becomes true exactly for "true" and "1",
   * a number or string what the text says, and any other text or kind is rejected. The same path
   * then reads the value that was answered, and nothing else that any path, iterator or key can
   * reach has changed. A rejected set changes nothing.
   */
  lemma AssignThroughPath(h: Heap, h': Heap, p: Platform, stack: seq<Obj>, path: seq<int>, text: string,
                          rc: ReturnCode, out: Output)
    requires HeapOk(h) && stack != [] && path != []
    requires Locate(h, Top(stack), path).Some? && Locate(h, Top(stack), path).value.Member?
    requires Leaves(h, stack, h', stack, p, path, Assign(text), rc, out)
    ensures Navigate(h, p, Top(stack), path).Some? && Navigate(h', p, Top(stack), path).Some?
    ensures var old_, now := Navigate(h, p, Top(stack), path).value, Navigate(h', p, Top(stack), path).value;
            var place := Locate(h, Top(stack), path).value;
            && Answered(p, old_, text, rc, now)
            && IsPlace(h, place)
            && (rc == Success ==>
                  && out.NewValue? && Describes(h', p, out.variable, now) && out.variable.editable
                  && now.kind == old_.kind && OnlyMemberChanged(h, h', p, place.container, place.pos, now))
            && (rc != Success ==> h' == h && out == Nothing)
  {
    hide Navigate, Locate, Assigned, OnlyMemberChanged, Pushed, Described, Describes, Convert, Sets, HeapOk, DistinctKeys,
         Answered;
    var o := Top(stack);
    LocateIsNavigate(h, p, o, path);
    CallbackStack(h, stack, path);
    var place := Locate(h, o, path).value;
    DistinctIn(h, place.container);
    SetsMember(h, h', p, stack + Pushed(h, o, path), place.container, place.pos, text, rc, out);
    var val := Convert(p, ValueAt(h, place), text);
    ConvertedAnswers(p, ValueAt(h, place), text, rc);
    if val.Some? {
      AssignmentReadsBack(h, p, o, path, text);
      AssignedOnlyMember(h, p, place.container, place.pos, val.value);
      DescribedDescribes(h', p, val.value);
    }
  }

  /** For an int member: the number the text spells, if there is one and it is an int. */
  lemma AssignInteger(h: Heap, h': Heap, p: Platform, stack: seq<Obj>, path: seq<int>,
                      white: string, sign: string, digits: string, tail: string, rc: ReturnCode, out: Output)
    requires HeapOk(h) && stack != [] && path != []
    requires Locate(h, Top(stack), path).Some? && Locate(h, Top(stack), path).value.Member?
    requires Navigate(h, p, Top(stack), path).Some? && Navigate(h, p, Top(stack), path).value.kind == Integer
    requires AllWhite(white) && (sign == "" || sign == "+" || sign == "-") && AllDigits(digits)
    requires TailStops(sign, digits, tail)
    requires Leaves(h, stack, h', stack, p, path, Assign(white + sign + digits + tail), rc, out)
    ensures var k: int := Spelled(digits);
            var n := if sign == "-" then -k else k;
            if digits != "" && -0x8000_0000 <= n <= 0x7FFF_FFFF
            then rc == Success && Navigate(h', p, Top(stack), path) == Some(Obj(Integer, n))
            else rc == InvalidParameter && h' == h
  {
    hide Navigate, Locate, Leaves, OnlyMemberChanged, Describes, HeapOk, Stoi, Spelled, AllWhite, AllDigits, TailStops;
    StoiExactly(white, sign, digits, tail);
    AssignThroughPath(h, h', p, stack, path, white + sign + digits + tail, rc, out);
  }

  /** sq_set under a key that is no number leaves every array alone. */
  lemma PutUnderObject(h: Heap, p: Platform, self: Obj, key: Obj, val: Obj)
    requires !IsNumeric(key)
    ensures Put(h, p, self, key, val).Some? <==> IsSlotted(self) && FindKey(SlotsOf(h, self), key, 0).Some?
    ensures Put(h, p, self, key, val).Some? ==> Put(h, p, self, key, val).value.arrays == h.arrays
  {
  }

  lemma {:induction false} ArrayIsNoIndex(h: Heap, o: Obj, path: seq<int>)
    requires path != []
    ensures Locate(h, o, path).Some? && Locate(h, o, path).value.Element? ==>
              Locate(h, o, path).value.container.kind == Array
    decreases |path|
  {
    if |path| > 1 && Child(h, o, path[0]).Some? {
      ArrayIsNoIndex(h, Child(h, o, path[0]).value, path[1..]);
    }
  }

  /**
   * A set through a path that ends in an array never assigns the element, because the callback
   * stores under the array, as a key, in whatever is fourth on the stack. It fails with nothing
   * changed unless that object is a table or instance with the array among its keys.
   */
  lemma ElementIsNeverAssigned(h: Heap, h': Heap, p: Platform, stack: seq<Obj>, path: seq<int>, text: string,
                               rc: ReturnCode, out: Output)
    requires stack != [] && path != []
    requires Locate(h, Top(stack), path).Some? && Locate(h, Top(stack), path).value.Element?
    requires Leaves(h, stack, h', stack, p, path, Assign(text), rc, out)
    ensures Navigate(h, p, Top(stack), path).Some? && |stack + Pushed(h, Top(stack), path)| >= 4
    ensures var old_ := Navigate(h, p, Top(stack), path).value;
            var array_ := Locate(h, Top(stack), path).value.container;
            var full := stack + Pushed(h, Top(stack), path);
            var fourth := full[|full| - 4];
            var stores := IsSlotted(fourth) && FindKey(SlotsOf(h, fourth), array_, 0).Some?;
            && h'.arrays == h.arrays && ElementsOf(h', array_) == ElementsOf(h, array_)
            && (rc == Success <==> Convert(p, old_, text).Some? && stores)
            && (rc != Success ==> h' == h && out == Nothing)
            && (rc == InvalidParameter <==> Convert(p, old_, text).None?)
            && (rc == ErrorInternal <==> Convert(p, old_, text).Some? && !stores)
  {
    hide Navigate, Locate, Pushed, Described, Put, Convert, FindKey;
    LocateIsNavigate(h, p, Top(stack), path);
    CallbackStack(h, stack, path);
    ArrayIsNoIndex(h, Top(stack), path);
    var full := stack + Pushed(h, Top(stack), path);
    var val := Convert(p, Top(full), text);
    if val.Some? {
      PutUnderObject(h, p, full[|full| - 4], full[|full| - 2], val.value);
    }
  }

  /** The last part of a path pushes its object or objects above what the rest has pushed. */
  lemma {:induction false} LastPushed(h: Heap, p: Platform, stack: seq<Obj>, path: seq<int>, index: int)
    requires stack != [] && path != []
    requires Locate(h, Top(stack), path + [index]).Some? && Locate(h, Top(stack), path + [index]).value.Element?
    ensures var full, longer := stack + Pushed(h, Top(stack), path), stack + Pushed(h, Top(stack), path + [index]);
            |longer| == |full| + 1 && longer[..|full|] == full
    decreases |path|
  {
    var longer := path + [index];
    assert longer[1..] == path[1..] + [index];
    ChildIsAtPlace(h, Top(stack), path[0]);
    PushedUnfolds(h, stack, path);
    PushedUnfolds(h, stack, longer);
    var inner := stack + OnePushed(h, Top(stack), path[0]);
    assert Top(inner) == Child(h, Top(stack), path[0]).value;
    if |path| > 1 {
      LastPushed(h, p, inner, path[1..], index);
    } else {
      assert longer[1..] == [index] && path[1..] == [];
      assert Pushed(h, Top(inner), [index]) == OnePushed(h, Top(inner), index) + [];
      assert |OnePushed(h, Top(inner), index)| == 1;
      assert inner + [] == inner;
    }
  }

  /** An array that is itself a member: the fourth object is the iterator, so the set always fails. */
  lemma ElementOfMemberAlwaysFails(h: Heap, h': Heap, p: Platform, stack: seq<Obj>, path: seq<int>, index: int,
                                   text: string, rc: ReturnCode, out: Output)
    requires stack != [] && path != [] && Locate(h, Top(stack), path).Some? && Locate(h, Top(stack), path).value.Member?
    requires Locate(h, Top(stack), path + [index]).Some? && Locate(h, Top(stack), path + [index]).value.Element?
    requires Leaves(h, stack, h', stack, p, path + [index], Assign(text), rc, out)
    ensures h' == h && out == Nothing && (rc == InvalidParameter || rc == ErrorInternal)
  {
    hide Navigate, Locate, Pushed, Described, Leaves, Convert;
    var longer := path + [index];
    ElementIsNeverAssigned(h, h', p, stack, longer, text, rc, out);
    CallbackStack(h, stack, path);
    LastPushed(h, p, stack, path, index);
  }

  lemma {:induction false} PushedIsLong(h: Heap, p: Platform, o: Obj, path: seq<int>)
    requires Navigate(h, p, o, path).Some?
    ensures |Pushed(h, o, path)| >= |path|
    decreases |path|
  {
    if path != [] {
      PushedIsLong(h, p, Child(h, o, path[0]).value, path[1..]);
    }
  }

  /** With the two objects of the running function below it, a local's path is deep enough for an assignment. */
  lemma PausedStackIsEnough(v: Vm, frame: nat, path: string, text: string)
    requires |v.stack| >= 2
    ensures LocalReady(v, frame, path, Assign(text))
  {
    hide ParsePath, Pushed, Navigate;
    match ParsePath(path)
    case None =>
    case Some(parts) =>
      PathHasParts(path);
      match LocalAt(v.frames, frame, parts[0])
      case None =>
      case Some(l) =>
        var walked := v.stack + [l.value];
        assert Top(walked) == l.value;
        if Navigate(v.heap, v.platform, l.value, parts[1..]).Some? {
          PushedIsLong(v.heap, v.platform, l.value, parts[1..]);
        }
  }
}
