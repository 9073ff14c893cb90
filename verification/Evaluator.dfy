/**
 * GetImmediateValue: the worklist that evaluates nested expressions without recursion, proved
 * against their recursive meaning.
 */
module Evaluator {
  import opened Common
  import opened SquirrelVm
  import opened Navigation
  import opened WatchSyntax
  import opened WatchMeaning
  import WatchGrammar
  import Listing
  import PathText
  import PathAccess
  import WatchReader

  /** Where a sub-expression stands: the chain positions of the brackets that enclose it, outermost first. */
  type Address = seq<nat>

  /** The sub-expression at an address; the pointer the code uses. */
  function SubAt(root: Chain, a: Address): (r: Option<Chain>)
    decreases |a|
  {
    if a == [] then Some(root)
    else if a[0] < |root| && root[a[0]].Bracket? then SubAt(root[a[0]].inner, a[1..])
    else None
  }

  function Front(a: Address): (r: Address)
    requires a != []
  {
    a[..|a| - 1]
  }

  lemma {:induction false} SubAtChild(root: Chain, a: Address, j: nat)
    ensures SubAt(root, a + [j]) ==
            match SubAt(root, a)
            case None => None
            case Some(chain) => if j < |chain| && chain[j].Bracket? then Some(chain[j].inner) else None
    decreases |a|
  {
    var b := a + [j];
    if a == [] {
      assert b[1..] == [];
    } else {
      assert b[1..] == a[1..] + [j];
      if a[0] < |root| && root[a[0]].Bracket? {
        SubAtChild(root[a[0]].inner, a[1..], j);
      }
    }
  }

  lemma FrontOfChild(a: Address, j: nat)
    ensures Front(a + [j]) == a
  {
  }

  // ---------------------------------------------------------------- how many there are

  /** Every address in the expression. */
  function Addresses(root: Chain): (s: set<Address>)
    decreases root, 1
  {
    {[]} + AddressesFrom(0, root)
  }

  function AddressesIn(i: nat, n: Node): (s: set<Address>)
    decreases n, 2
  {
    match n
    case Bracket(inner) => set a | a in Addresses(inner) :: [i] + a
    case _ => {}
  }

  /** Those that start at position i or later; nodes are the chain's nodes from i. */
  function AddressesFrom(i: nat, nodes: Chain): (s: set<Address>)
    decreases nodes, 0
  {
    if nodes == [] then {} else AddressesIn(i, nodes[0]) + AddressesFrom(i + 1, nodes[1..])
  }

  lemma StartsWith(i: nat, n: Node, a: Address)
    ensures a in AddressesIn(i, n) ==> a != [] && a[0] == i
  {
  }

  lemma {:induction false} FromIsAt(i: nat, nodes: Chain, a: Address)
    requires a != []
    ensures a in AddressesFrom(i, nodes) <==>
            i <= a[0] < i + |nodes| && a in AddressesIn(a[0], nodes[a[0] - i])
    decreases |nodes|
  {
    hide AddressesIn;
    if nodes != [] {
      FromIsAt(i + 1, nodes[1..], a);
      StartsWith(i, nodes[0], a);
    }
  }

  lemma {:induction false} InIsSub(i: nat, n: Node, a: Address)
    requires a != [] && a[0] == i
    ensures a in AddressesIn(i, n) <==> n.Bracket? && SubAt(n.inner, a[1..]).Some?
    decreases |a|, 0
  {
    if n.Bracket? {
      AddressesAreAll(n.inner, a[1..]);
      assert a == [i] + a[1..];
    }
  }

  lemma {:induction false} AddressesAreAll(root: Chain, a: Address)
    ensures a in Addresses(root) <==> SubAt(root, a).Some?
    decreases |a|
  {
    if a == [] {
    } else {
      FromIsAt(0, root, a);
      if a[0] < |root| {
        InIsSub(a[0], root[a[0]], a);
      }
      assert a in Addresses(root) <==> a in AddressesFrom(0, root);
    }
  }

  // ---------------------------------------------------------------- the worklist's state

  ghost predicate Distinct(s: seq<Address>) {
    forall i, j | 0 <= i < j < |s| :: s[i] != s[j]
  }

  /** Every result is the meaning of the sub-expression it is filed under. */
  ghost predicate ResultsRight(env: Env, root: Chain, results: map<Address, Value>) {
    forall a | a in results :: SubAt(root, a).Some? && Eval(env, AsCoded, SubAt(root, a).value) == Some(results[a])
  }

  /** The expression that encloses entry i is further down the stack. */
  ghost predicate ParentBelow(stack: seq<Address>, i: nat)
    requires i < |stack|
  {
    stack[i] != [] && exists k :: 0 <= k < i && stack[k] == Front(stack[i])
  }

  /**
   * The stack holds distinct unresolved sub-expressions, each above the one that encloses it,
   * with the whole expression at the bottom until it is resolved.
   */
  ghost predicate StackRight(root: Chain, stack: seq<Address>, done: set<Address>) {
    && Distinct(stack)
    && (forall i | 0 <= i < |stack| :: SubAt(root, stack[i]).Some? && stack[i] !in done)
    && (forall i | 1 <= i < |stack| :: ParentBelow(stack, i))
    && (if stack == [] then [] in done else stack[0] == [])
  }

  /** The sub-expressions evaluated so far, in order: each once, and after all those inside it. */
  ghost predicate OrderRight(root: Chain, log: seq<Address>) {
    && Distinct(log)
    && (forall i | 0 <= i < |log| :: SubAt(root, log[i]).Some?)
    && (forall i, j: nat | 0 <= i < |log| && SubAt(root, log[i] + [j]).Some? :: log[i] + [j] in log[..i])
  }

  /** Every sub-expression is in the log. */
  ghost predicate Complete(root: Chain, log: seq<Address>) {
    forall a: Address :: a in log <==> SubAt(root, a).Some?
  }

  ghost predicate LogIs(log: seq<Address>, done: set<Address>) {
    forall a :: a in log <==> a in done
  }

  /** The brackets of a chain, from position j, whose expression has no result yet. */
  function Unresolved(chain: Chain, at: Address, done: set<Address>, j: nat): (kids: seq<Address>)
    ensures forall k | k in kids ::
              && |k| == |at| + 1 && j <= k[|at|] < |chain| && chain[k[|at|]].Bracket?
              && k == at + [k[|at|]] && k !in done
    ensures Distinct(kids)
    ensures kids == [] ==> forall m | j <= m < |chain| && chain[m].Bracket? :: at + [m] in done
    decreases |chain| - j
  {
    if j >= |chain| then []
    else
      var rest := Unresolved(chain, at, done, j + 1);
      if chain[j].Bracket? && at + [j] !in done then [at + [j]] + rest else rest
  }

  /** An address that may be pushed on the stack. */
  ghost predicate Pushable(root: Chain, stack: seq<Address>, done: set<Address>, k: Address)
    requires stack != []
  {
    k !in stack && k != [] && Front(k) == stack[|stack| - 1] && SubAt(root, k).Some? && k !in done
  }

  lemma ParentStaysBelow(stack: seq<Address>, other: seq<Address>, i: nat)
    requires i < |stack| && i < |other| && ParentBelow(stack, i)
    requires forall j | 0 <= j <= i :: stack[j] == other[j]
    ensures ParentBelow(other, i)
  {
  }

  lemma ParentIsAt(stack: seq<Address>, k: nat, i: nat)
    requires k < i < |stack| && stack[i] != [] && Front(stack[i]) == stack[k]
    ensures ParentBelow(stack, i)
  {
  }

  lemma StackGrows(root: Chain, stack: seq<Address>, kids: seq<Address>, done: set<Address>)
    requires stack != [] && StackRight(root, stack, done) && Distinct(kids)
    requires forall i | 0 <= i < |kids| :: Pushable(root, stack, done, kids[i])
    ensures StackRight(root, stack + kids, done)
  {
    hide SubAt, ParentBelow;
    var longer := stack + kids;
    forall i | 1 <= i < |longer| ensures ParentBelow(longer, i) {
      if i < |stack| {
        ParentStaysBelow(stack, longer, i);
      } else {
        assert longer[i] == kids[i - |stack|];
        ParentIsAt(longer, |stack| - 1, i);
      }
    }
  }

  /** A child of the top is not on the stack: it would stand above its parent. */
  lemma ChildIsNew(stack: seq<Address>, m: nat)
    requires stack != [] && Distinct(stack) && stack[0] == []
    requires forall i | 1 <= i < |stack| :: ParentBelow(stack, i)
    ensures stack[|stack| - 1] + [m] !in stack
  {
    var top := stack[|stack| - 1];
    FrontOfChild(top, m);
    forall i | 0 <= i < |stack| ensures stack[i] != top + [m] {
      if i > 0 {
        assert ParentBelow(stack, i);
        var k :| 0 <= k < i && stack[k] == Front(stack[i]);
      }
    }
  }

  /** Pushing what is unresolved keeps the stack right. */
  lemma PushKeepsStack(root: Chain, stack: seq<Address>, done: set<Address>)
    requires stack != [] && StackRight(root, stack, done)
    ensures var top := stack[|stack| - 1];
            StackRight(root, stack + Unresolved(SubAt(root, top).value, top, done, 0), done)
  {
    hide SubAt, Unresolved;
    var top := stack[|stack| - 1];
    var chain := SubAt(root, top).value;
    var kids := Unresolved(chain, top, done, 0);
    forall k | k in kids ensures Pushable(root, stack, done, k) {
      SubAtChild(root, top, k[|top|]);
      FrontOfChild(top, k[|top|]);
      ChildIsNew(stack, k[|top|]);
    }
    StackGrows(root, stack, kids, done);
  }

  lemma PopKeepsStack(root: Chain, stack: seq<Address>, done: set<Address>)
    requires stack != [] && StackRight(root, stack, done)
    ensures StackRight(root, stack[..|stack| - 1], done + {stack[|stack| - 1]})
  {
    hide SubAt, ParentBelow;
    var rest := stack[..|stack| - 1];
    forall i | 1 <= i < |rest| ensures ParentBelow(rest, i) {
      ParentStaysBelow(stack, rest, i);
    }
  }

  lemma LogKeepsOrder(root: Chain, log: seq<Address>, done: set<Address>, a: Address)
    requires OrderRight(root, log) && LogIs(log, done) && a !in done && SubAt(root, a).Some?
    requires forall j: nat | SubAt(root, a + [j]).Some? :: a + [j] in done
    ensures OrderRight(root, log + [a]) && LogIs(log + [a], done + {a})
  {
    hide SubAt;
    var longer := log + [a];
    forall i, j: nat | 0 <= i < |longer| && SubAt(root, longer[i] + [j]).Some?
      ensures longer[i] + [j] in longer[..i]
    {
      if i < |log| {
        assert longer[..i] == log[..i];
      } else {
        assert longer[..i] == log;
      }
    }
  }

  lemma DepsAreIn(root: Chain, log: seq<Address>, a: Address, j: nat)
    requires OrderRight(root, log) && a in log && SubAt(root, a + [j]).Some?
    ensures a + [j] in log
  {
  }

  /** Once the whole expression is in the log, everything is. */
  lemma {:induction false} LogIsComplete(root: Chain, log: seq<Address>, a: Address)
    requires OrderRight(root, log) && [] in log && SubAt(root, a).Some?
    ensures a in log
    decreases |a|
  {
    hide OrderRight;
    if a != [] {
      var j := a[|a| - 1];
      assert a == Front(a) + [j];
      SubAtChild(root, Front(a), j);
      LogIsComplete(root, log, Front(a));
      DepsAreIn(root, log, Front(a), j);
    }
  }

  lemma {:induction false} DistinctSize(s: seq<Address>, all: set<Address>)
    requires Distinct(s) && forall i | 0 <= i < |s| :: s[i] in all
    ensures |s| <= |all|
    decreases |s|
  {
    if s != [] {
      var last := s[|s| - 1];
      DistinctSize(s[..|s| - 1], all - {last});
    }
  }

  // ---------------------------------------------------------------- failure goes up

  lemma {:induction false} OneFailureFails(env: Env, head: Node, nodes: Chain, i: nat)
    requires i < |nodes| && Accessor(env, AsCoded, head, nodes[i]).None?
    ensures Accessors(env, AsCoded, head, nodes).None?
    decreases |nodes|
  {
    hide Accessor;
    if i > 0 {
      OneFailureFails(env, head, nodes[1..], i - 1);
    }
  }

  /** A sub-expression without a value leaves the whole without one. */
  lemma {:induction false} FailureGoesUp(env: Env, root: Chain, a: Address)
    requires SubAt(root, a).Some? && Eval(env, AsCoded, SubAt(root, a).value).None?
    ensures Eval(env, AsCoded, root).None?
    decreases |a|
  {
    if a != [] {
      FailureGoesUp(env, root[a[0]].inner, a[1..]);
      OneFailureFails(env, root[0], root, a[0]);
    }
  }

  // ---------------------------------------------------------------- the temporary table

  /** The heap with the temporary table in it. */
  function WithTemp(h: Heap, spare: Obj, slots: seq<Slot>): (h': Heap) {
    h.(slots := h.slots[spare := slots])
  }

  lemma StepIgnoresSpare(h: Heap, p: Platform, spare: Obj, slots: seq<Slot>, o: Obj, key: Obj)
    requires Unmentioned(h, spare) && o != spare && spare.kind == Table
    ensures var step := ResolveStep(h, p, o, key);
            && ResolveStep(WithTemp(h, spare, slots), p, o, key) == step
            && (step.Some? ==> step.value.child != spare)
  {
  }

  /** A table that nothing refers to plays no part in looking things up. */
  lemma {:induction false} SpareIsIgnored(h: Heap, p: Platform, spare: Obj, slots: seq<Slot>, o: Obj, accessors: seq<Obj>)
    requires Unmentioned(h, spare) && o != spare && spare.kind == Table
    ensures Resolve(WithTemp(h, spare, slots), p, o, accessors) == Resolve(h, p, o, accessors)
    decreases |accessors|
  {
    hide ResolveStep, Unmentioned;
    if accessors != [] {
      StepIgnoresSpare(h, p, spare, slots, o, accessors[0]);
      var step := ResolveStep(h, p, o, accessors[0]);
      if step.Some? {
        SpareIsIgnored(h, p, spare, slots, step.value.child, accessors[1..]);
      }
    }
  }

  /** Looking a name up in a table that holds just that name leads to its value. */
  lemma LookupInTemp(h: Heap, p: Platform, spare: Obj, val: Obj, accessors: seq<Obj>)
    requires Unmentioned(h, spare) && val != spare && spare.kind == Table && accessors != []
    ensures Resolve(WithTemp(h, spare, [Entry(accessors[0], val)]), p, spare, accessors)
         == Under(0, Resolve(h, p, val, accessors[1..]))
  {
    var slots := [Entry(accessors[0], val)];
    var h' := WithTemp(h, spare, slots);
    assert SlotsOf(h', spare) == slots;
    assert FindIter(slots, 0, accessors[0].raw) == Some(Hit(0, 0));
    assert ResolveStep(h', p, spare, accessors[0]) == Some(Part(0, val));
    SpareIsIgnored(h, p, spare, slots, val, accessors[1..]);
  }

  // ---------------------------------------------------------------- the methods

  ghost function EnvOf(v: Vm, frame: int): (env: Env)
    reads v
  {
    Env(v.heap, v.platform, v.root, v.frames, frame)
  }

  /** The chain being evaluated starts with a name that its first accessor stands for, or with a literal. */
  predicate HeadFits(p: Platform, head: Node, accessors: seq<Obj>) {
    && accessors != []
    && (TypeOf(head) == IdentifierType ==> head.Name? && accessors[0] == Str(p, head.value))
  }

  /** One node's object: pushed on the operand stack, taken off it again. */
  method MakeLiteral(v: Vm, node: Node) returns (r: Option<Obj>)
    modifies v`stack
    ensures v.stack == old(v.stack) && r == Literal(v.platform, node)
  {
    ghost var base := v.stack;
    if node.Number? {
      var strtol := PathText.Strtol(node.digits);
      var n := match strtol case None => 0 case Some(n) => n;
      if n > v.platform.longMax {
        return None;
      }
      v.PushObject(Int(ToInt32(n)));
    } else {
      v.PushObject(Str(v.platform, NodeText(node)));
    }
    var o := v.Peek(-1);
    v.Pop(1);
    assert v.stack == base;
    return Some(o);
  }

  lemma AccessorsStep(env: Env, head: Node, nodes: Chain)
    requires nodes != []
    ensures Accessors(env, AsCoded, head, nodes) ==
            match Accessor(env, AsCoded, head, nodes[0])
            case None => None
            case Some(a) => Joined([a], Accessors(env, AsCoded, head, nodes[1..]))
  {
  }

  lemma AccessorsEnd(env: Env, head: Node, objects: seq<Obj>)
    ensures Joined(objects, Accessors(env, AsCoded, head, [])) == Some(objects)
  {
    assert objects + [] == objects;
  }

  lemma ResultAt(env: Env, root: Chain, at: Address, chain: Chain, results: map<Address, Value>, i: nat)
    requires SubAt(root, at) == Some(chain) && i < |chain| && chain[i].Bracket?
    requires ResultsRight(env, root, results) && Unresolved(chain, at, results.Keys, 0) == []
    ensures at + [i] in results && Eval(env, AsCoded, chain[i].inner) == Some(results[at + [i]])
  {
    hide Eval;
    SubAtChild(root, at, i);
  }

  /** The list of objects for a chain whose brackets all have results; the missing-result branch is never taken. */
  method BuildAccessors(v: Vm, frame: int, ghost root: Chain, at: Address, chain: Chain, results: map<Address, Value>)
    returns (r: Option<seq<Obj>>)
    requires SubAt(root, at) == Some(chain) && chain != []
    requires ResultsRight(EnvOf(v, frame), root, results)
    requires Unresolved(chain, at, results.Keys, 0) == []
    modifies v`stack
    ensures v.stack == old(v.stack)
    ensures r == Accessors(EnvOf(v, frame), AsCoded, chain[0], chain)
  {
    hide Literal, Eval, SubAt, Unresolved, ResultsRight, Accessors;
    ghost var env := EnvOf(v, frame);
    var objects: seq<Obj> := [];
    var i := 0;
    JoinNothing(Accessors(env, AsCoded, chain[0], chain));
    while i < |chain|
      invariant i <= |chain| && v.stack == old(v.stack)
      invariant Accessors(env, AsCoded, chain[0], chain) == Joined(objects, Accessors(env, AsCoded, chain[0], chain[i..]))
    {
      var object_: Option<Obj>;
      if chain[i].Bracket? {
        var accessorExpression := at + [i];
        ResultAt(env, root, at, chain, results, i);
        if accessorExpression !in results {
          assert false;
        }
        object_ := Some(results[accessorExpression].object_);
      } else {
        object_ := MakeLiteral(v, chain[0]);
      }
      assert chain[i..][1..] == chain[i + 1..];
      AccessorsStep(env, chain[0], chain[i..]);
      assert object_ == Accessor(env, AsCoded, chain[0], chain[i]);
      if object_.None? {
        return None;
      }
      JoinStep(objects, object_.value, Accessors(env, AsCoded, chain[0], chain[i + 1..]));
      objects := objects + [object_.value];
      i := i + 1;
    }
    assert chain[i..] == [];
    AccessorsEnd(env, chain[0], objects);
    return Some(objects);
  }

  lemma TempGone(h: Heap, spare: Obj, slots: seq<Slot>)
    requires spare !in h.slots
    ensures WithTemp(h, spare, slots).(slots := WithTemp(h, spare, slots).slots - {spare}) == h
  {
  }

  method FillTemp(v: Vm, key: Obj, ghost h: Heap)
    requires |v.stack| >= 2 && v.Peek(-2) == v.spare && v.spare.kind == Table && v.heap == WithTemp(h, v.spare, [])
    modifies v`stack, v`heap
    ensures v.stack == old(v.stack)[..|old(v.stack)| - 1]
    ensures v.heap == WithTemp(h, v.spare, [Entry(key, old(v.Peek(-1)))])
  {
    ghost var base := v.stack;
    ghost var val := v.Peek(-1);
    v.PushObject(key);
    v.Push(-2);
    assert v.stack == base + [key, val];
    v.SqRawSet(-4);
    assert v.stack == base;
    assert [] + [Entry(key, val)] == [Entry(key, val)];
    v.Pop(1);
  }

  lemma FirstReplaced(first: nat, other: nat, rest: seq<nat>)
    ensures [] + ([first] + rest) == [first] + rest
    ensures ([first] + rest)[0 := other] == [other] + rest
  {
  }

  /** The first part of a path found in the temporary table gives way to the local's number. */
  lemma TempPath(h: Heap, p: Platform, spare: Obj, accessors: seq<Obj>, r: Resolved,
                 rc: ReturnCode, found: Obj, path: seq<nat>, nSeq: nat)
    requires Answers(h, p, spare, accessors, [], rc, found, path) && Resolve(h, p, spare, accessors) == Under(0, r)
    ensures rc == Success ==> path != []
    ensures Scoped(r, [ToUint32(nSeq)], LocalScope) ==
            if rc != Success then None else Some(Value(found, path[0 := ToUint32(nSeq)], LocalScope))
  {
    hide Resolve, ToUint32;
    if r.Found? {
      FirstReplaced(ToUint32(0), ToUint32(nSeq), r.path);
    }
  }

  /**
   * With the temporary table and the local's value on top: the value goes into the table under
   * its name, the accessors are looked up there, and the first path part becomes the local's number.
   */
  method ResolveLocal(v: Vm, nSeq: nat, accessors: seq<Obj>, ghost h: Heap) returns (r: Option<Value>)
    requires |v.stack| >= 2 && v.Peek(-2) == v.spare && v.spare.kind == Table && v.Peek(-1) != v.spare
    requires v.spare !in h.slots && Unmentioned(h, v.spare) && v.heap == WithTemp(h, v.spare, [])
    requires accessors != []
    modifies v`stack, v`heap
    ensures v.stack == old(v.stack)[..|old(v.stack)| - 2] && v.heap == h
    ensures r == Scoped(Resolve(h, v.platform, old(v.Peek(-1)), accessors[1..]), [ToUint32(nSeq)], LocalScope)
  {
    hide Resolve, Unmentioned, ToUint32, Answers, WithTemp;
    ghost var base := v.stack[..|v.stack| - 2];
    var val := v.Peek(-1);
    FillTemp(v, accessors[0], h);
    assert v.Peek(-1) == v.spare;
    LookupInTemp(h, v.platform, v.spare, val, accessors);
    var rc, found, path := GetObjectFromExpression(v, accessors, []);
    TempPath(v.heap, v.platform, v.spare, accessors, Resolve(h, v.platform, val, accessors[1..]), rc, found, path, nSeq);
    TempGone(h, v.spare, [Entry(accessors[0], val)]);
    v.PopNewTable();
    assert v.stack == base;
    if rc != Success {
      return None;
    }
    path := path[0 := ToUint32(nSeq)];
    return Some(Value(found, path, LocalScope));
  }

  lemma LocalHead(env: Env, name: string, accessors: seq<Obj>)
    requires accessors != [] && LocalNamed(env, name).Some?
    ensures var k := LocalNamed(env, name).value;
            HeadValue(env, Name(name), accessors)
            == Scoped(Resolve(env.heap, env.platform, env.frames[env.frame][k].value, accessors[1..]), [ToUint32(k)], LocalScope)
  {
  }

  /** A local of that name, if there is one, is put into a temporary table that is searched in its place. */
  method EvaluateLocal(v: Vm, frame: nat, name: string, accessors: seq<Obj>) returns (isLocal: bool, r: Option<Value>)
    requires v.SpareIsFresh() && accessors != [] && accessors[0] == Str(v.platform, name)
    modifies v`stack, v`heap
    ensures v.stack == old(v.stack) && v.heap == old(v.heap)
    ensures isLocal == LocalNamed(EnvOf(v, frame), name).Some?
    ensures isLocal ==> r == HeadValue(EnvOf(v, frame), Name(name), accessors)
  {
    hide Resolve, Unmentioned, ToUint32, HeadValue, Scoped;
    ghost var base, h, env := v.stack, v.heap, EnvOf(v, frame);
    v.SqNewTable();
    ghost var h' := v.heap;
    assert h'.slots - {v.spare} == h.slots;
    var nSeq := 0;
    var more := true;
    while more
      invariant v.stack == base + [v.spare] && v.heap == h'
      invariant 0 <= nSeq && (frame < |v.frames| ==> nSeq <= |v.frames[frame]|)
      invariant frame < |v.frames| ==> LocalNamed(env, name) == FirstLocal(v.frames[frame], name, nSeq)
      invariant !more ==> LocalNamed(env, name).None?
      decreases more, (if frame < |v.frames| then |v.frames[frame]| else 0) - nSeq
    {
      var localName := v.SqGetLocal(frame, nSeq);
      more := localName.Some?;
      if more {
        if localName.value == name {
          r := ResolveLocal(v, nSeq, accessors, h);
          LocalHead(env, name, accessors);
          assert v.stack == base;
          return true, r;
        }
        v.Pop(1);
        assert v.stack == base + [v.spare];
        nSeq := nSeq + 1;
      }
    }
    v.PopNewTable();
    assert v.stack == base;
    return false, None;
  }

  method EvaluateHead(v: Vm, frame: int, head: Node, accessors: seq<Obj>) returns (r: Option<Value>)
    requires v.SpareIsFresh() && HeadFits(v.platform, head, accessors)
    modifies v`stack, v`heap
    ensures v.stack == old(v.stack) && v.heap == old(v.heap)
    ensures r == HeadValue(EnvOf(v, frame), head, accessors)
  {
    hide Resolve, Unmentioned;
    ghost var base := v.stack;
    if TypeOf(head) != IdentifierType {
      return Some(Value(accessors[0], [], EvaluationScope));
    }
    if frame >= 0 {
      var isLocal, local := EvaluateLocal(v, frame, head.value, accessors);
      if isLocal {
        return local;
      }
    }
    v.PushObject(v.root);
    var rc, found, path := GetObjectFromExpression(v, accessors, []);
    v.Pop(1);
    assert v.stack == base;
    if rc != Success {
      return None;
    }
    return Some(Value(found, path, GlobalScope));
  }

  /** What the parser gives: a blank watch, or a well-formed chain. */
  predicate Evaluable(chain: Chain) {
    chain == [Undefined] || WellFormed(chain)
  }

  lemma {:induction false} PartsAreEvaluable(root: Chain, a: Address)
    requires Evaluable(root) && SubAt(root, a).Some?
    ensures Evaluable(SubAt(root, a).value)
    decreases |a|
  {
    if a != [] {
      assert WellFormedTail(root[a[0]]);
      PartsAreEvaluable(root[a[0]].inner, a[1..]);
    }
  }

  lemma EvaluableHeadFits(env: Env, chain: Chain)
    requires Evaluable(chain) && Accessors(env, AsCoded, chain[0], chain).Some?
    ensures HeadFits(env.platform, chain[0], Accessors(env, AsCoded, chain[0], chain).value)
  {
  }

  lemma UnresolvedStep(pushed: seq<Address>, chain: Chain, at: Address, done: set<Address>, j: nat)
    requires j < |chain|
    ensures pushed + Unresolved(chain, at, done, j) ==
            (if chain[j].Bracket? && at + [j] !in done then pushed + [at + [j]] else pushed)
            + Unresolved(chain, at, done, j + 1)
  {
    var rest := Unresolved(chain, at, done, j + 1);
    assert pushed + ([at + [j]] + rest) == pushed + [at + [j]] + rest;
  }

  lemma UnresolvedEnd(chain: Chain, at: Address, done: set<Address>)
    ensures Unresolved(chain, at, done, |chain|) == []
  {
  }

  /** Looks through a chain and pushes the bracket expressions that need evaluating. */
  method PushUnresolved(stack: seq<Address>, chain: Chain, at: Address, results: map<Address, Value>)
    returns (pushed: seq<Address>, hasUnresolvedDependencies: bool)
    ensures pushed == stack + Unresolved(chain, at, results.Keys, 0)
    ensures hasUnresolvedDependencies <==> Unresolved(chain, at, results.Keys, 0) != []
  {
    hide Unresolved;
    pushed := stack;
    hasUnresolvedDependencies := false;
    var j := 0;
    while j < |chain|
      invariant j <= |chain| && |pushed| >= |stack|
      invariant pushed + Unresolved(chain, at, results.Keys, j) == stack + Unresolved(chain, at, results.Keys, 0)
      invariant hasUnresolvedDependencies <==> |pushed| > |stack|
    {
      UnresolvedStep(pushed, chain, at, results.Keys, j);
      if chain[j].Bracket? && at + [j] !in results {
        pushed := pushed + [at + [j]];
        hasUnresolvedDependencies := true;
      }
      j := j + 1;
    }
    UnresolvedEnd(chain, at, results.Keys);
  }

  /** The body of the worklist once everything inside the expression has its result. */
  method EvaluateChain(v: Vm, frame: int, ghost root: Chain, at: Address, chain: Chain, results: map<Address, Value>)
    returns (r: Option<Value>)
    requires v.SpareIsFresh() && Evaluable(chain) && SubAt(root, at) == Some(chain)
    requires ResultsRight(EnvOf(v, frame), root, results)
    requires Unresolved(chain, at, results.Keys, 0) == []
    modifies v`stack, v`heap
    ensures v.stack == old(v.stack) && v.heap == old(v.heap)
    ensures r == Eval(EnvOf(v, frame), AsCoded, chain)
  {
    hide HeadValue, Accessors, FreshFor, Unresolved, SubAt, HeadFits;
    var accessors := BuildAccessors(v, frame, root, at, chain, results);
    if accessors.None? {
      return None;
    }
    EvaluableHeadFits(EnvOf(v, frame), chain);
    r := EvaluateHead(v, frame, chain[0], accessors.value);
  }

  /** What the worklist keeps. */
  ghost predicate Working(env: Env, root: Chain, stack: seq<Address>, results: map<Address, Value>, log: seq<Address>) {
    && StackRight(root, stack, results.Keys) && ResultsRight(env, root, results)
    && OrderRight(root, log) && LogIs(log, results.Keys)
  }

  lemma StartIsRight(env: Env, root: Chain)
    ensures Working(env, root, [[]], map[], [])
  {
  }

  lemma TopIsPart(env: Env, root: Chain, stack: seq<Address>, results: map<Address, Value>, log: seq<Address>)
    requires stack != [] && Working(env, root, stack, results, log)
    ensures SubAt(root, stack[|stack| - 1]).Some? && stack[|stack| - 1] !in results && ResultsRight(env, root, results)
  {
  }

  lemma StackFits(root: Chain, stack: seq<Address>, done: set<Address>)
    requires StackRight(root, stack, done)
    ensures |stack| <= |Addresses(root)|
  {
    hide SubAt, ParentBelow, Addresses;
    forall i | 0 <= i < |stack| ensures stack[i] in Addresses(root) {
      AddressesAreAll(root, stack[i]);
    }
    DistinctSize(stack, Addresses(root));
  }

  lemma RestShrinks(root: Chain, at: Address, done: set<Address>)
    requires SubAt(root, at).Some? && at !in done
    ensures |Addresses(root) - (done + {at})| < |Addresses(root) - done|
  {
    hide SubAt, Addresses;
    AddressesAreAll(root, at);
    var before, after := Addresses(root) - done, Addresses(root) - (done + {at});
    assert before == after + {at};
  }

  /** A new result is right, and its place in the order is too. */
  lemma ResultsGrow(env: Env, root: Chain, results: map<Address, Value>, log: seq<Address>, at: Address, val: Value)
    requires ResultsRight(env, root, results) && OrderRight(root, log) && LogIs(log, results.Keys)
    requires SubAt(root, at).Some? && at !in results
    requires Eval(env, AsCoded, SubAt(root, at).value) == Some(val)
    requires Unresolved(SubAt(root, at).value, at, results.Keys, 0) == []
    ensures results[at := val].Keys == results.Keys + {at}
    ensures ResultsRight(env, root, results[at := val])
    ensures OrderRight(root, log + [at]) && LogIs(log + [at], results[at := val].Keys)
  {
    hide SubAt, Eval, OrderRight, LogIs;
    assert results[at := val].Keys == results.Keys + {at};
    forall j: nat | SubAt(root, at + [j]).Some? ensures at + [j] in results.Keys {
      SubAtChild(root, at, j);
    }
    LogKeepsOrder(root, log, results.Keys, at);
  }

  /** What is still to be resolved, then how much room the stack has left. */
  ghost function ToResolve(root: Chain, results: map<Address, Value>): (n: nat) {
    |Addresses(root) - results.Keys|
  }

  ghost function Room(root: Chain, stack: seq<Address>): (n: int) {
    |Addresses(root)| - |stack|
  }

  lemma PushStep(env: Env, root: Chain, stack: seq<Address>, results: map<Address, Value>, log: seq<Address>)
    requires stack != [] && Working(env, root, stack, results, log) && SubAt(root, stack[|stack| - 1]).Some?
    ensures var top := stack[|stack| - 1];
            Working(env, root, stack + Unresolved(SubAt(root, top).value, top, results.Keys, 0), results, log)
    ensures 0 <= Room(root, stack)
  {
    hide SubAt, Unresolved, StackRight, OrderRight, ResultsRight, LogIs, Addresses;
    PushKeepsStack(root, stack, results.Keys);
    StackFits(root, stack, results.Keys);
  }

  lemma PopStep(env: Env, root: Chain, stack: seq<Address>, results: map<Address, Value>, log: seq<Address>, val: Value)
    requires stack != [] && Working(env, root, stack, results, log)
    requires var top := stack[|stack| - 1];
             && SubAt(root, top).Some? && top !in results && Eval(env, AsCoded, SubAt(root, top).value) == Some(val)
             && Unresolved(SubAt(root, top).value, top, results.Keys, 0) == []
    ensures var top := stack[|stack| - 1];
            && Working(env, root, stack[..|stack| - 1], results[top := val], log + [top])
            && ToResolve(root, results[top := val]) < ToResolve(root, results)
  {
    hide SubAt, Unresolved, StackRight, OrderRight, ResultsRight, LogIs, Addresses, Eval;
    var top := stack[|stack| - 1];
    PopKeepsStack(root, stack, results.Keys);
    ResultsGrow(env, root, results, log, top, val);
    RestShrinks(root, top, results.Keys);
  }

  lemma EndIsRight(env: Env, root: Chain, results: map<Address, Value>, log: seq<Address>)
    requires Working(env, root, [], results, log)
    ensures OrderRight(root, log) && [] in results && Eval(env, AsCoded, root) == Some(results[[]])
    ensures Complete(root, log)
  {
    hide Eval, OrderRight;
    assert SubAt(root, []) == Some(root);
    forall a: Address ensures a in log <==> SubAt(root, a).Some? {
      if SubAt(root, a).Some? {
        LogIsComplete(root, log, a);
      }
    }
  }

  lemma LongerHasLessRoom(root: Chain, stack: seq<Address>, longer: seq<Address>)
    requires |stack| < |longer|
    ensures Room(root, longer) < Room(root, stack)
  {
  }

  lemma LogSoFar(env: Env, root: Chain, stack: seq<Address>, results: map<Address, Value>, log: seq<Address>)
    requires Working(env, root, stack, results, log)
    ensures OrderRight(root, log)
  {
  }

  /**
   * The worklist. On success it returns the meaning of the whole expression, having evaluated
   * every sub-expression exactly once and after all those inside it; it fails exactly when the
   * expression has no meaning.
   */
  method Evaluate(v: Vm, frame: int, root: Chain) returns (r: Option<Value>, ghost log: seq<Address>)
    requires v.SpareIsFresh() && Evaluable(root)
    modifies v`stack, v`heap
    ensures v.stack == old(v.stack) && v.heap == old(v.heap)
    ensures r == Eval(EnvOf(v, frame), AsCoded, root)
    ensures OrderRight(root, log)
    ensures r.Some? ==> Complete(root, log)
  {
    hide Eval, SubAt, OrderRight, Unresolved, ResultsRight, Working, ToResolve, Room, Complete, Evaluable, FreshFor;
    ghost var env := EnvOf(v, frame);
    var stack: seq<Address> := [[]];
    var results: map<Address, Value> := map[];
    log := [];
    StartIsRight(env, root);
    while stack != []
      invariant v.stack == old(v.stack) && v.heap == env.heap
      invariant Working(env, root, stack, results, log)
      decreases ToResolve(root, results), Room(root, stack)
    {
      var node := stack[|stack| - 1];
      TopIsPart(env, root, stack, results, log);
      var chain := SubAt(root, node).value;
      PushStep(env, root, stack, results, log);
      var pushed, hasUnresolvedDependencies := PushUnresolved(stack, chain, node, results);
      if hasUnresolvedDependencies {
        LongerHasLessRoom(root, stack, pushed);
        stack := pushed;
      } else {
        PartsAreEvaluable(root, node);
        var value := EvaluateChain(v, frame, root, node, chain, results);
        if value.None? {
          FailureGoesUp(env, root, node);
          r := None;
          LogSoFar(env, root, stack, results, log);
          return;
        }
        PopStep(env, root, stack, results, log, value.value);
        stack := stack[..|stack| - 1];
        results := results[node := value.value];
        log := log + [node];
      }
    }
    EndIsRight(env, root, results, log);
    r := Some(results[[]]);
  }

  // ---------------------------------------------------------------- the command

  datatype Answer = Answered(variable: Listing.Variable, value: Value) | Failed(rc: ReturnCode)

  /** What a watch answers: the text must be one whole expression, the VM paused, and the expression have a value. */
  function Watch(env: Env, isPaused: bool, watch: string): (r: Answer) {
    match ParseExpression(watch)
    case Rejected(_) => Failed(InvalidParameter)
    case Parsed(chain, rest) =>
      if rest != "" then Failed(InvalidParameter)
      else if !isPaused then Failed(InvalidNotPaused)
      else
        match Eval(env, AsCoded, chain)
        case None => Failed(InvalidParameter)
        case Some(val) =>
          Answered(Listing.Described(env.heap, env.platform, val.object_), val)
  }

  /** GetImmediateValue. */
  method GetImmediateValue(v: Vm, isPaused: bool, stackFrame: int, watch: string) returns (answer: Answer)
    requires v.SpareIsFresh()
    modifies v`stack, v`heap
    ensures v.stack == old(v.stack) && v.heap == old(v.heap)
    ensures answer == Watch(EnvOf(v, stackFrame), isPaused, watch)
  {
    hide Eval, Loop, Unmentioned;
    ghost var base := v.stack;
    var expressionRoot := WatchReader.ParseExpression(watch, 0);
    assert watch[0..] == watch;
    if expressionRoot.NoParse? || expressionRoot.pos != |watch| {
      return Failed(InvalidParameter);
    }
    if !isPaused {
      return Failed(InvalidNotPaused);
    }
    LoopGivesWellFormed([Undefined], watch);
    var result, _ := Evaluate(v, stackFrame, expressionRoot.chain);
    if result.None? {
      return Failed(InvalidParameter);
    }
    v.PushObject(result.value.object_);
    var variable := Listing.CreateChildVariable(v);
    v.Pop(1);
    assert v.stack == base;
    return Answered(variable, result.value);
  }

  /** What a paused VM answers for an expression: its value, described field by field, or a refusal. */
  ghost predicate AnswersFor(env: Env, chain: Chain, answer: Answer) {
    match Eval(env, AsCoded, chain)
    case None => answer == Failed(InvalidParameter)
    case Some(val) =>
      && answer.Answered? && answer.value == val
      && Listing.Describes(env.heap, env.platform, answer.variable, val.object_)
      && (answer.variable.editable <==> Listing.IsBasic(val.object_))
      && answer.variable.pathIterator == 0 && answer.variable.pathUiString == ""
  }

  lemma ParsedAnswers(env: Env, watch: string, chain: Chain)
    requires ParseExpression(watch) == Parsed(chain, "")
    ensures Watch(env, false, watch) == Failed(InvalidNotPaused)
    ensures AnswersFor(env, chain, Watch(env, true, watch))
  {
    hide Eval, ParseExpression, Listing.Describes;
    match Eval(env, AsCoded, chain)
    case None =>
    case Some(val) => Listing.DescribedDescribes(env.heap, env.platform, val.object_);
  }

  /** A watch on a text of the grammar is answered by its meaning, if the VM is paused. */
  lemma WatchIsMeaning(env: Env, watch: string, chain: Chain)
    requires WatchGrammar.Spells(chain, watch, "")
    ensures Watch(env, false, watch) == Failed(InvalidNotPaused)
    ensures AnswersFor(env, chain, Watch(env, true, watch))
  {
    hide WatchGrammar.Spells, AnswersFor, Watch;
    WatchGrammar.AcceptsExactly(watch, chain, "");
    ParsedAnswers(env, watch, chain);
  }

  /** Any other text, paused or not, is refused, except that a blank one is the empty string. */
  lemma OtherWatches(env: Env, isPaused: bool, watch: string)
    requires forall chain: Chain :: !WatchGrammar.Spells(chain, watch, "")
    ensures !AllSpaces(watch) ==> Watch(env, isPaused, watch) == Failed(InvalidParameter)
    ensures AllSpaces(watch) ==>
              if isPaused then
                Watch(env, isPaused, watch).Answered?
                && Watch(env, isPaused, watch).value
                   == Value(Obj(String, env.platform.intern("")), [], EvaluationScope)
              else Watch(env, isPaused, watch) == Failed(InvalidNotPaused)
  {
    hide WatchGrammar.Spells, Eval, Loop;
    var r := ParseExpression(watch);
    if r.Parsed? {
      WatchGrammar.AcceptsExactly(watch, r.chain, r.rest);
    }
    WatchGrammar.AcceptsExactly(watch, [Undefined], "");
    BlankIsEmptyString(env, AsCoded);
  }

  /** A watch on the printed text of any well-formed expression is answered by that expression's meaning. */
  lemma PrintedWatchIsItsMeaning(env: Env, chain: Chain, gap: string -> string)
    requires WellFormed(chain) && Spacing(gap)
    ensures Watch(env, false, Print(chain, gap)) == Failed(InvalidNotPaused)
    ensures AnswersFor(env, chain, Watch(env, true, Print(chain, gap)))
  {
    hide AnswersFor, Watch, Print, ParseExpression;
    ParsePrint(chain, gap);
    ParsedAnswers(env, Print(chain, gap), chain);
  }

  lemma IndexKeys(env: Env, name: string, digits: string) returns (ks: seq<Obj>)
    requires digits != "" && PathText.AllDigits(digits) && PathText.Spelled(digits) <= 0x7FFF_FFFF
    requires PathText.Spelled(digits) <= env.platform.longMax
    ensures ks == [Str(env.platform, name), Int(PathText.Spelled(digits))]
    ensures KeysAre(env, AsCoded, [Name(name), Bracket([Number(digits)])], ks)
  {
    hide Eval, PathText.Spelled;
    NumberIsItself(env, AsCoded, digits);
    ks := [Str(env.platform, name), Int(PathText.Spelled(digits))];
  }

  lemma ResolveElement(h: Heap, p: Platform, root: Obj, key: Obj, it: nat, array_: Obj, n: nat)
    requires ResolveStep(h, p, root, key) == Some(Part(it, array_)) && array_.kind == Array && n < |ElementsOf(h, array_)|
    ensures Resolve(h, p, root, [key, Int(n)])
            == Found(ElementsOf(h, array_)[n], [it % 0x1_0000_0000, n % 0x1_0000_0000])
  {
    hide FindIter, FindKey;
    ResolveTwo(h, p, root, key, Int(n));
  }

  lemma MeaningIsAnswered(env: Env, chain: Chain, answer: Answer)
    requires AnswersFor(env, chain, answer) && Eval(env, AsCoded, chain).Some?
    ensures answer.Answered? && answer.value == Eval(env, AsCoded, chain).value
  {
    hide Eval, Listing.Describes;
  }

  lemma DigitsAreNumber(digits: string)
    requires digits != "" && PathText.AllDigits(digits)
    ensures WatchGrammar.IsNumberText(digits)
  {
  }

  lemma IndexMeaning(env: Env, name: string, digits: string, it: nat, array_: Obj)
    requires NoLocal(env, name)
    requires digits != "" && PathText.AllDigits(digits) && PathText.Spelled(digits) <= env.platform.longMax
    requires ResolveStep(env.heap, env.platform, env.root, Obj(String, env.platform.intern(name))) == Some(Part(it, array_))
    requires array_.kind == Array && PathText.Spelled(digits) < |ElementsOf(env.heap, array_)| <= 0x8000_0000
    ensures var n := PathText.Spelled(digits);
            Eval(env, AsCoded, [Name(name), Bracket([Number(digits)])])
            == Some(Value(ElementsOf(env.heap, array_)[n], [it % 0x1_0000_0000, n], GlobalScope))
  {
    hide Eval, PathText.Spelled, PathText.AllDigits, ResolveStep, Resolve, KeysAre, NoLocal, IsFirstLocal;
    var chain := [Name(name), Bracket([Number(digits)])];
    var ks := IndexKeys(env, name, digits);
    NameIsResolved(env, AsCoded, chain, ks);
    ResolveElement(env.heap, env.platform, env.root, ks[0], it, array_, PathText.Spelled(digits));
  }

  /** name[n] on an array of the root table answers element n, with the path to it. */
  lemma IndexedWatch(env: Env, name: string, digits: string, it: nat, array_: Obj)
    requires WatchGrammar.IsWordText(name) && NoLocal(env, name)
    requires digits != "" && PathText.AllDigits(digits) && PathText.Spelled(digits) <= env.platform.longMax
    requires ResolveStep(env.heap, env.platform, env.root, Obj(String, env.platform.intern(name))) == Some(Part(it, array_))
    requires array_.kind == Array && PathText.Spelled(digits) < |ElementsOf(env.heap, array_)| <= 0x8000_0000
    ensures var n, watch := PathText.Spelled(digits), name + "[" + digits + "]";
            Watch(env, true, watch).Answered?
            && Watch(env, true, watch).value
               == Value(ElementsOf(env.heap, array_)[n], [it % 0x1_0000_0000, n], GlobalScope)
  {
    hide Eval, Watch, PathText.Spelled, PathText.AllDigits, ResolveStep, NoLocal, AnswersFor, WatchGrammar.Spells,
         WatchGrammar.IsWordText;
    var chain := [Name(name), Bracket([Number(digits)])];
    DigitsAreNumber(digits);
    WatchGrammar.IndexIsSpelled(name, digits);
    WatchIsMeaning(env, name + "[" + digits + "]", chain);
    IndexMeaning(env, name, digits, it, array_);
    MeaningIsAnswered(env, chain, Watch(env, true, name + "[" + digits + "]"));
  }

  /** Listing what a watch found, by the text of its path, lists the children of the object found. */
  lemma WatchThenList(env: Env, isPaused: bool, watch: string, begin: nat, count: nat,
                      stack: seq<Obj>, h': Heap, answer: PathAccess.Answer)
    requires IntSizedEnv(env) && Watch(env, isPaused, watch).Answered?
    requires var val := Watch(env, isPaused, watch).value;
             var path := PathText.JoinPath(val.path);
             match val.scope
             case LocalScope =>
               PathAccess.LocalAnswers(env.heap, h', env.platform, stack, env.frames, env.frame, path,
                                       PathAccess.ListChildren(begin, count), answer)
             case GlobalScope =>
               h' == env.heap && PathAccess.GlobalAnswers(env.heap, env.platform, env.root, path, begin, count, answer)
             case EvaluationScope => false
    ensures var o := Watch(env, isPaused, watch).value.object_;
            && h' == env.heap && Listing.PageStarts(env.heap, env.platform, o, begin)
            && answer == PathAccess.Answer(Success, PathAccess.Variables(
                           Listing.Children(env.heap, env.platform, o, begin, count)))
  {
    hide Eval, Navigate, PathText.ParsePath, PathText.JoinPath, IntSized, Listing.PageStarts, Listing.Children;
    EvalPathLeadsBack(env, AsCoded, ParseExpression(watch).chain);
    PathText.JoinPathNotEmpty(Watch(env, isPaused, watch).value.path);
  }
}
