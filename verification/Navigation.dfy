/**
 * Finding an object by a list of accessors, which also yields the iterator path to it, and
 * walking an iterator path back to the object.
 */
module Navigation {
  import opened Common
  import opened SquirrelVm

  // ---------------------------------------------------------------- walking a path

  /** One path part: an array index, or the iterator before the slot. */
  function Child(h: Heap, o: Obj, part: int): (r: Option<Obj>) {
    if o.kind == Array then
      var n := ToInt32(part);
      if 0 <= n < |ElementsOf(h, o)| then Some(ElementsOf(h, o)[n]) else None
    else if IsSlotted(o) then
      match Iterate(h, o, part)
      case None => None
      case Some(step) => Some(step.val)
    else None
  }

  /** The object an iterator path leads to. */
  function Navigate(h: Heap, p: Platform, o: Obj, path: seq<int>): (r: Option<Obj>)
    decreases |path|
  {
    if path == [] then Some(o)
    else
      match Child(h, o, path[0])
      case None => None
      case Some(child) => Navigate(h, p, child, path[1..])
  }

  // ---------------------------------------------------------------- resolving accessors

  /** The slot where an iteration stops, and the iterator just before that step. */
  datatype Hit = Hit(iter: nat, pos: nat)

  /** The search of the iteration from `it` for a key with the same raw bits; types are not compared. */
  function FindIter(slots: seq<Slot>, it: nat, raw: int): (r: Option<Hit>)
    ensures r.Some? ==> r.value.iter <= r.value.pos < |slots| && NextSlot(slots, r.value.iter) == Some(r.value.pos)
    decreases |slots| - it
  {
    match NextSlot(slots, it)
    case None => None
    case Some(q) => if slots[q].key.raw == raw then Some(Hit(it, q)) else FindIter(slots, q + 1, raw)
  }

  /** One accessor resolved: the path part it appends and the object it leads to. */
  datatype Part = Part(part: int, child: Obj)

  function ResolveStep(h: Heap, p: Platform, o: Obj, key: Obj): (r: Option<Part>) {
    if o.kind == Array then
      if !IsNumeric(key) then None
      else
        match Get(h, p, o, key)
        case None => None
        case Some(element) => Some(Part(ToInteger(p, key), element))
    else if IsSlotted(o) && FindKey(SlotsOf(h, o), key, 0).Some? then
      match FindIter(SlotsOf(h, o), 0, key.raw)
      case None => None
      case Some(hit) => Some(Part(hit.iter, SlotsOf(h, o)[hit.pos].val))
    else None
  }

  datatype Resolved = Found(object_: Obj, path: seq<nat>) | Missing

  function Under(part: int, r: Resolved): (q: Resolved) {
    if r.Found? then Found(r.object_, [ToUint32(part)] + r.path) else Missing
  }

  /** What GetObjectFromExpression finds. */
  function Resolve(h: Heap, p: Platform, o: Obj, accessors: seq<Obj>): (r: Resolved)
    decreases |accessors|
  {
    if accessors == [] then Found(o, [])
    else
      match ResolveStep(h, p, o, accessors[0])
      case None => Missing
      case Some(s) => Under(s.part, Resolve(h, p, s.child, accessors[1..]))
  }

  /** Every table and array is small enough for its iterators to be ints. */
  ghost predicate IntSized(h: Heap) {
    && (forall o | o in h.slots :: |h.slots[o]| <= INT32_MAX + 1)
    && (forall o | o in h.arrays :: |h.arrays[o]| <= INT32_MAX + 1)
  }

  lemma StepLeadsBack(h: Heap, p: Platform, o: Obj, key: Obj)
    requires IntSized(h) && ResolveStep(h, p, o, key).Some?
    ensures var s := ResolveStep(h, p, o, key).value;
            && 0 <= s.part <= INT32_MAX && ToUint32(s.part) == s.part
            && Child(h, o, s.part) == Some(s.child)
  {
  }

  /** The path that comes with a resolved object leads back to that object. */
  lemma {:induction false} ResolvedPathLeadsBack(h: Heap, p: Platform, o: Obj, accessors: seq<Obj>)
    requires IntSized(h) && Resolve(h, p, o, accessors).Found?
    ensures var r := Resolve(h, p, o, accessors);
            && Navigate(h, p, o, r.path) == Some(r.object_)
            && |r.path| == |accessors|
            && forall i | 0 <= i < |r.path| :: r.path[i] <= INT32_MAX
    decreases |accessors|
  {
    hide ResolveStep, Child, IntSized;
    if accessors != [] {
      var s := ResolveStep(h, p, o, accessors[0]).value;
      StepLeadsBack(h, p, o, accessors[0]);
      ResolvedPathLeadsBack(h, p, s.child, accessors[1..]);
      var rest := Resolve(h, p, s.child, accessors[1..]);
      assert ([s.part] + rest.path)[1..] == rest.path;
    }
  }

  // ---------------------------------------------------------------- what the search finds

  /** The iteration from 0 stops at the first occupied slot whose key has these bits. */
  lemma {:induction false} FindIterIsFirst(slots: seq<Slot>, it: nat, raw: int, k: nat)
    requires it <= k < |slots| && slots[k].Entry? && slots[k].key.raw == raw
    ensures FindIter(slots, it, raw).Some?
    ensures var pos := FindIter(slots, it, raw).value.pos;
            && it <= pos <= k && slots[pos].Entry? && slots[pos].key.raw == raw
            && forall j | it <= j < pos && slots[j].Entry? :: slots[j].key.raw != raw
    decreases |slots| - it
  {
    var q := NextSlot(slots, it).value;
    if slots[q].key.raw != raw {
      FindIterIsFirst(slots, q + 1, raw, k);
    }
  }

  /** Some earlier slot has a key of another type with the same bits. */
  ghost predicate Shadowed(slots: seq<Slot>, key: Obj) {
    exists i, j :: 0 <= i < j < |slots| && slots[i].Entry? && slots[j].Entry?
                   && slots[j].key == key && slots[i].key != key && slots[i].key.raw == key.raw
  }

  /**
   * The slot found by raw bits is the slot the key names exactly when no earlier key of another
   * type has the same bits.
   */
  lemma FoundSlotIsKeysSlotIff(slots: seq<Slot>, key: Obj)
    requires DistinctKeys(slots) && FindKey(slots, key, 0).Some?
    ensures FindIter(slots, 0, key.raw).Some?
    ensures FindIter(slots, 0, key.raw).value.pos == FindKey(slots, key, 0).value <==> !Shadowed(slots, key)
  {
    var k := FindKey(slots, key, 0).value;
    FindIterIsFirst(slots, 0, key.raw, k);
    var pos := FindIter(slots, 0, key.raw).value.pos;
    if pos != k {
      assert slots[pos].key != key;
      assert Shadowed(slots, key);
    }
  }

  /** A table with `true` before 1 answers the lookup of 1 with the value of `true`. */
  lemma ShadowedLookup(p: Platform, yes: Obj, one: Obj)
    requires yes != one
    ensures var t := Obj(Table, 1000);
            var h := Heap(map[t := [Entry(Obj(Bool, 1), yes), Entry(Int(1), one)]], map[]);
            && Get(h, p, t, Int(1)) == Some(one)
            && Resolve(h, p, t, [Int(1)]) == Found(yes, [0])
  {
    var t := Obj(Table, 1000);
    var slots := [Entry(Obj(Bool, 1), yes), Entry(Int(1), one)];
    var h := Heap(map[t := slots], map[]);
    assert FindKey(slots, Int(1), 1) == Some(1);
    assert FindKey(slots, Int(1), 0) == Some(1);
    assert NextSlot(slots, 0) == Some(0);
    assert Resolve(h, p, yes, [Int(1)][1..]) == Found(yes, []);
  }

  /** The chain of plain lookups that the accessors spell out. */
  function Lookup(h: Heap, p: Platform, o: Obj, accessors: seq<Obj>): (r: Option<Obj>)
    decreases |accessors|
  {
    if accessors == [] then Some(o)
    else
      match Get(h, p, o, accessors[0])
      case None => None
      case Some(child) => Lookup(h, p, child, accessors[1..])
  }

  /** No table on the way shadows the key it is asked for. */
  ghost predicate Unshadowed(h: Heap, p: Platform, o: Obj, accessors: seq<Obj>)
    decreases |accessors|
  {
    accessors == []
    || (&& (IsSlotted(o) ==> DistinctKeys(SlotsOf(h, o)) && !Shadowed(SlotsOf(h, o), accessors[0]))
        && match Get(h, p, o, accessors[0])
           case None => true
           case Some(child) => Unshadowed(h, p, child, accessors[1..]))
  }

  /** Without shadowing, resolving accessors succeeds exactly when the plain lookups do, on the same object. */
  lemma {:induction false} ResolveIsLookup(h: Heap, p: Platform, o: Obj, accessors: seq<Obj>)
    requires Unshadowed(h, p, o, accessors)
    ensures Resolve(h, p, o, accessors).Found? <==> Lookup(h, p, o, accessors).Some?
    ensures Resolve(h, p, o, accessors).Found? ==>
              Lookup(h, p, o, accessors) == Some(Resolve(h, p, o, accessors).object_)
    decreases |accessors|
  {
    if accessors != [] && Get(h, p, o, accessors[0]).Some? {
      if IsSlotted(o) {
        FoundSlotIsKeysSlotIff(SlotsOf(h, o), accessors[0]);
      }
      ResolveIsLookup(h, p, Get(h, p, o, accessors[0]).value, accessors[1..]);
    }
  }

  // ---------------------------------------------------------------- the method

  /** Success with the resolved object and its path appended, or InvalidParameter. */
  ghost predicate Answers(h: Heap, p: Platform, o: Obj, accessors: seq<Obj>, before: seq<nat>,
                          rc: ReturnCode, found: Obj, path: seq<nat>) {
    match Resolve(h, p, o, accessors)
    case Found(object_, parts) => rc == Success && found == object_ && path == before + parts
    case Missing => rc == InvalidParameter
  }

  /** The rest answered below the first step answers the whole. */
  lemma StepAnswers(h: Heap, p: Platform, o: Obj, accessors: seq<Obj>, before: seq<nat>,
                    rc: ReturnCode, found: Obj, path: seq<nat>)
    requires accessors != []
    requires match ResolveStep(h, p, o, accessors[0])
             case None => rc == InvalidParameter
             case Some(s) =>
               Answers(h, p, s.child, accessors[1..], before + [ToUint32(s.part)], rc, found, path)
    ensures Answers(h, p, o, accessors, before, rc, found, path)
  {
    hide ResolveStep, ToUint32;
    var step := ResolveStep(h, p, o, accessors[0]);
    if step.Some? {
      var rest := Resolve(h, p, step.value.child, accessors[1..]);
      if rest.Found? {
        assert before + [ToUint32(step.value.part)] + rest.path == before + ([ToUint32(step.value.part)] + rest.path);
      }
    }
  }

  lemma ResolveNothing(h: Heap, p: Platform, o: Obj)
    ensures Resolve(h, p, o, []) == Found(o, [])
  {
  }

  lemma NotIterable(h: Heap, p: Platform, o: Obj, key: Obj)
    requires o.kind != Array && !IsSlotted(o)
    ensures ResolveStep(h, p, o, key).None?
  {
  }

  method GetFromArray(v: Vm, accessors: seq<Obj>, before: seq<nat>)
    returns (rc: ReturnCode, found: Obj, path: seq<nat>)
    requires |v.stack| > 0 && accessors != [] && v.Peek(-1).kind == Array
    modifies v`stack
    ensures v.stack == old(v.stack)
    ensures Answers(v.heap, v.platform, old(v.Peek(-1)), accessors, before, rc, found, path)
    decreases |accessors|, 0
  {
    hide Get, FindIter, FindKey, Answers, Resolve, ToUint32;
    ghost var base := v.stack;
    var self, key := v.Peek(-1), accessors[0];
    if !IsNumeric(key) {
      StepAnswers(v.heap, v.platform, self, accessors, before, InvalidParameter, self, before);
      return InvalidParameter, self, before;
    }
    v.PushObject(key);
    var arrIndex := ToInteger(v.platform, key);
    var ok := v.SqGet(-2);
    if !ok {
      assert v.stack == base;
      StepAnswers(v.heap, v.platform, self, accessors, before, InvalidParameter, self, before);
      return InvalidParameter, self, before;
    }
    path := before + [ToUint32(arrIndex)];
    rc, found, path := GetObjectFromExpression(v, accessors[1..], path);
    StepAnswers(v.heap, v.platform, self, accessors, before, rc, found, path);
    v.Pop(1);
    assert v.stack == base;
  }

  /** One step of the iteration is one step of the search. */
  lemma SearchStep(h: Heap, o: Obj, it: nat, raw: int)
    requires IsSlotted(o)
    ensures var slots := SlotsOf(h, o);
            match Iterate(h, o, it)
            case None => FindIter(slots, it, raw).None?
            case Some(step) =>
              && it < step.next <= |slots| && slots[step.next - 1] == Entry(step.key, step.val)
              && FindIter(slots, it, raw) ==
                 if step.key.raw == raw then Some(Hit(it, step.next - 1)) else FindIter(slots, step.next, raw)
  {
  }

  /** The iteration over the table; the stack holds the table, the value sq_get found and the iterator. */
  method SearchTable(v: Vm, accessors: seq<Obj>, before: seq<nat>)
    returns (rc: ReturnCode, found: Obj, path: seq<nat>)
    requires |v.stack| >= 3 && accessors != [] && IsSlotted(v.Peek(-3)) && v.Peek(-1) == Int(0)
    modifies v`stack
    ensures v.stack == old(v.stack)[..|old(v.stack)| - 2]
    ensures match FindIter(SlotsOf(v.heap, old(v.Peek(-3))), 0, accessors[0].raw)
            case None => rc == InvalidParameter
            case Some(hit) =>
              Answers(v.heap, v.platform, SlotsOf(v.heap, old(v.Peek(-3)))[hit.pos].val, accessors[1..],
                      before + [ToUint32(hit.iter)], rc, found, path)
    decreases |accessors|, 0
  {
    hide Resolve, FindKey, Get, Answers, ToUint32, FindIter, Iterate;
    path := before;
    found := v.Peek(-3);
    ghost var base := v.stack[..|v.stack| - 1];
    ghost var self := v.Peek(-3);
    ghost var slots := SlotsOf(v.heap, self);
    var raw := accessors[0].raw;
    var sqIter: nat := 0;
    var more := true;
    while more
      invariant more ==> v.stack == base + [Int(sqIter)] && FindIter(slots, 0, raw) == FindIter(slots, sqIter, raw)
      invariant !more ==> FindIter(slots, 0, raw).None? && v.stack == base + [Int(sqIter)]
      decreases more, |slots| - sqIter
    {
      SearchStep(v.heap, self, sqIter, raw);
      more := v.SqNext(-3);
      if more {
        var iterKey := v.Peek(-2);
        if iterKey.raw == raw {
          path := path + [ToUint32(sqIter)];
          rc, found, path := GetObjectFromExpression(v, accessors[1..], path);
          v.Pop(4);
          assert v.stack == base[..|base| - 1];
          return;
        }
        v.Pop(2);
        sqIter := v.Peek(-1).raw;
        assert v.stack == base + [Int(sqIter)];
      }
    }
    v.Pop(1);
    v.Pop(1);
    assert v.stack == base[..|base| - 1];
    rc := InvalidParameter;
  }

  method GetFromTable(v: Vm, accessors: seq<Obj>, before: seq<nat>)
    returns (rc: ReturnCode, found: Obj, path: seq<nat>)
    requires |v.stack| > 0 && accessors != [] && IsSlotted(v.Peek(-1))
    modifies v`stack
    ensures v.stack == old(v.stack)
    ensures Answers(v.heap, v.platform, old(v.Peek(-1)), accessors, before, rc, found, path)
    decreases |accessors|, 1
  {
    hide FindIter, FindKey, Answers, Resolve, ToUint32;
    ghost var base := v.stack;
    var self, key := v.Peek(-1), accessors[0];
    v.PushObject(key);
    var ok := v.SqGet(-2);
    if !ok {
      assert v.stack == base;
      StepAnswers(v.heap, v.platform, self, accessors, before, InvalidParameter, self, before);
      return InvalidParameter, self, before;
    }
    ghost var first := v.Peek(-1);
    assert v.stack == base + [first];
    v.PushObject(Int(0));
    rc, found, path := SearchTable(v, accessors, before);
    StepAnswers(v.heap, v.platform, self, accessors, before, rc, found, path);
    assert v.stack == base;
  }

  /**
   * GetObjectFromExpression: on every exit the operand stack is as found. The path is appended
   * to the caller's vector.
   */
  method GetObjectFromExpression(v: Vm, accessors: seq<Obj>, before: seq<nat>)
    returns (rc: ReturnCode, found: Obj, path: seq<nat>)
    requires |v.stack| > 0
    modifies v`stack
    ensures v.stack == old(v.stack)
    ensures Answers(v.heap, v.platform, old(v.Peek(-1)), accessors, before, rc, found, path)
    decreases |accessors|, 2
  {
    hide ResolveStep, Resolve;
    if accessors == [] {
      ResolveNothing(v.heap, v.platform, v.Peek(-1));
      return Success, v.Peek(-1), before;
    }
    var self := v.Peek(-1);
    match self.kind
    case Array => rc, found, path := GetFromArray(v, accessors, before);
    case Table => rc, found, path := GetFromTable(v, accessors, before);
    case Instance => rc, found, path := GetFromTable(v, accessors, before);
    case _ =>
      NotIterable(v.heap, v.platform, self, accessors[0]);
      StepAnswers(v.heap, v.platform, self, accessors, before, InvalidParameter, self, before);
      return InvalidParameter, self, before;
  }
}
