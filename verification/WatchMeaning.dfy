/**
 * The recursive meaning of a watch expression, which the debugger's worklist computes, and where
 * the iterator path of a result leads.
 */
module WatchMeaning {
  import opened Common
  import opened SquirrelVm
  import opened Navigation
  import opened WatchSyntax
  import PathText

  /** Where expressions are evaluated; a negative frame means the root table only. */
  datatype Env = Env(heap: Heap, platform: Platform, root: Obj, frames: seq<seq<Local>>, frame: int)

  datatype Scope = LocalScope | GlobalScope | EvaluationScope

  datatype Value = Value(object_: Obj, path: seq<nat>, scope: Scope)

  /** Whether a dotted name further on in a chain stands for itself, or for the head as in the code. */
  datatype Reading = AsCoded | AsWritten

  /** accessorValue. */
  function NodeText(n: Node): (s: string) {
    match n
    case Text(value) => value
    case Number(digits) => digits
    case Name(value) => value
    case _ => ""
  }

  /** The object made from a node's text; None when strtol overflows. A long becomes an int. */
  function Literal(p: Platform, n: Node): (r: Option<Obj>) {
    if n.Number? then
      var k := match PathText.Strtol(n.digits) case None => 0 case Some(k) => k;
      if k > p.longMax then None else Some(Int(ToInt32(k)))
    else Some(Str(p, NodeText(n)))
  }

  function Scoped(r: Resolved, front: seq<nat>, scope: Scope): (v: Option<Value>) {
    match r
    case Found(object_, path) => Some(Value(object_, front + path, scope))
    case Missing => None
  }

  function FirstLocal(locals: seq<Local>, name: string, i: nat): (r: Option<nat>)
    ensures r.Some? ==> i <= r.value < |locals| && locals[r.value].name == name
                        && forall j | i <= j < r.value :: locals[j].name != name
    ensures r.None? ==> forall j | i <= j < |locals| :: locals[j].name != name
    decreases |locals| - i
  {
    if i >= |locals| then None else if locals[i].name == name then Some(i) else FirstLocal(locals, name, i + 1)
  }

  /** The first local of the frame with this name. */
  function LocalNamed(env: Env, name: string): (r: Option<nat>)
    ensures r.Some? ==> 0 <= env.frame < |env.frames| && r.value < |env.frames[env.frame]|
                        && env.frames[env.frame][r.value].name == name
  {
    if 0 <= env.frame < |env.frames| then FirstLocal(env.frames[env.frame], name, 0) else None
  }

  /** A literal is its own value, whatever follows it; a name is looked up. */
  function HeadValue(env: Env, head: Node, accessors: seq<Obj>): (r: Option<Value>)
    requires accessors != []
  {
    if TypeOf(head) != IdentifierType then Some(Value(accessors[0], [], EvaluationScope))
    else
      match LocalNamed(env, NodeText(head))
      case Some(k) =>
        Scoped(Resolve(env.heap, env.platform, env.frames[env.frame][k].value, accessors[1..]), [ToUint32(k)], LocalScope)
      case None => Scoped(Resolve(env.heap, env.platform, env.root, accessors), [], GlobalScope)
  }

  /** The object one node of a chain contributes; head is the chain's first node. */
  function Accessor(env: Env, reading: Reading, head: Node, n: Node): (r: Option<Obj>)
    decreases n, 2
  {
    match n
    case Bracket(inner) =>
      (match Eval(env, reading, inner)
       case None => None
       case Some(val) => Some(val.object_))
    case _ => Literal(env.platform, if reading.AsCoded? then head else n)
  }

  function Accessors(env: Env, reading: Reading, head: Node, nodes: Chain): (r: Option<seq<Obj>>)
    ensures r.Some? ==> |r.value| == |nodes|
    decreases nodes, 0
  {
    if nodes == [] then Some([])
    else
      match (Accessor(env, reading, head, nodes[0]), Accessors(env, reading, head, nodes[1..]))
      case (Some(a), Some(rest)) => Some([a] + rest)
      case _ => None
  }

  /** The meaning of an expression; None is an error. A chain is never empty. */
  function Eval(env: Env, reading: Reading, chain: Chain): (r: Option<Value>)
    decreases chain, 1
  {
    if chain == [] then None
    else
      match Accessors(env, reading, chain[0], chain)
      case None => None
      case Some(accessors) => HeadValue(env, chain[0], accessors)
  }

  // ---------------------------------------------------------------- results have paths

  ghost predicate IntSizedEnv(env: Env) {
    && IntSized(env.heap)
    && (0 <= env.frame < |env.frames| ==> |env.frames[env.frame]| <= INT32_MAX + 1)
  }

  /** A result's path leads back to the result: from the root table, or from the local it names. */
  ghost predicate LeadsBack(env: Env, val: Value) {
    match val.scope
    case EvaluationScope => val.path == []
    case GlobalScope => val.path != [] && Navigate(env.heap, env.platform, env.root, val.path) == Some(val.object_)
    case LocalScope =>
      && val.path != [] && 0 <= env.frame < |env.frames| && val.path[0] < |env.frames[env.frame]|
      && Navigate(env.heap, env.platform, env.frames[env.frame][val.path[0]].value, val.path[1..]) == Some(val.object_)
  }

  /**
   * The path round trip: the path of every successful evaluation leads back to the same object,
   * also after it has been joined with commas and read again.
   */
  lemma EvalPathLeadsBack(env: Env, reading: Reading, chain: Chain)
    requires IntSizedEnv(env) && Eval(env, reading, chain).Some?
    ensures var val := Eval(env, reading, chain).value;
            && LeadsBack(env, val)
            && (val.path != [] ==> PathText.ParsePath(PathText.JoinPath(val.path)) == Some(val.path))
  {
    hide Navigate, Resolve, PathText.ParsePath, PathText.JoinPath, IntSized;
    var val := Eval(env, reading, chain).value;
    var accessors := Accessors(env, reading, chain[0], chain).value;
    match val.scope {
      case EvaluationScope =>
      case GlobalScope =>
        ResolvedPathLeadsBack(env.heap, env.platform, env.root, accessors);
        var path := Resolve(env.heap, env.platform, env.root, accessors).path;
        assert [] + path == path;
      case LocalScope =>
        var k := LocalNamed(env, NodeText(chain[0])).value;
        var local := env.frames[env.frame][k].value;
        ResolvedPathLeadsBack(env.heap, env.platform, local, accessors[1..]);
        var rest := Resolve(env.heap, env.platform, local, accessors[1..]).path;
        assert val.path == [k] + rest && val.path[1..] == rest;
    }
    if val.path != [] {
      assert PathText.AllInts(val.path);
      PathText.PathRoundTrip(val.path);
    }
  }

  // ---------------------------------------------------------------- what expressions mean

  ghost predicate KeyIs(env: Env, reading: Reading, chain: Chain, i: nat, k: Obj)
    requires i < |chain|
  {
    match chain[i]
    case Name(value) =>
      k == Obj(String, env.platform.intern(
                         if reading.AsCoded? && chain[0].Name? then chain[0].value else value))
    case Bracket(inner) => Eval(env, reading, inner).Some? && Eval(env, reading, inner).value.object_ == k
    case _ => false
  }

  /**
   * The keys a chain on a name stands for: where there are brackets, the object that the expression
   * in them evaluates to; otherwise the text of the name, or of the head as the code has it.
   */
  ghost predicate KeysAre(env: Env, reading: Reading, chain: Chain, ks: seq<Obj>) {
    && chain != [] && |ks| == |chain|
    && forall i | 0 <= i < |chain| :: KeyIs(env, reading, chain, i, ks[i])
  }

  /** The first local of the frame that has this name. */
  predicate IsFirstLocal(env: Env, name: string, k: nat) {
    && 0 <= env.frame < |env.frames| && k < |env.frames[env.frame]|
    && env.frames[env.frame][k].name == name
    && forall j | 0 <= j < k :: env.frames[env.frame][j].name != name
  }

  predicate NoLocal(env: Env, name: string) {
    0 <= env.frame < |env.frames| ==>
      forall j | 0 <= j < |env.frames[env.frame]| :: env.frames[env.frame][j].name != name
  }

  lemma LocalNamedExactly(env: Env, name: string)
    ensures match LocalNamed(env, name)
            case None => NoLocal(env, name)
            case Some(k) => IsFirstLocal(env, name, k)
  {
  }

  lemma FirstLocalIsOne(env: Env, name: string, k: nat, l: nat)
    requires IsFirstLocal(env, name, k) && IsFirstLocal(env, name, l)
    ensures k == l
  {
  }

  lemma AccessorIsKey(env: Env, reading: Reading, chain: Chain, i: nat, k: Obj)
    requires i < |chain| && chain[0].Name? && KeyIs(env, reading, chain, i, k)
    ensures Accessor(env, reading, chain[0], chain[i]) == Some(k)
  {
    hide Eval;
  }

  lemma NoAccessors(env: Env, reading: Reading, head: Node)
    ensures Accessors(env, reading, head, []) == Some([])
  {
  }

  lemma AccessorsCons(env: Env, reading: Reading, head: Node, nodes: Chain)
    requires nodes != []
    ensures Accessors(env, reading, head, nodes) ==
            match (Accessor(env, reading, head, nodes[0]), Accessors(env, reading, head, nodes[1..]))
            case (Some(a), Some(rest)) => Some([a] + rest)
            case _ => None
  {
    hide Accessor;
  }

  lemma {:induction false} AccessorsAreKeys(env: Env, reading: Reading, chain: Chain, ks: seq<Obj>, i: nat)
    requires KeysAre(env, reading, chain, ks) && chain[0].Name? && i <= |chain|
    ensures Accessors(env, reading, chain[0], chain[i..]) == Some(ks[i..])
    decreases |chain| - i
  {
    hide Eval, Accessor, Accessors, KeyIs;
    if i < |chain| {
      AccessorsAreKeys(env, reading, chain, ks, i + 1);
      AccessorIsKey(env, reading, chain, i, ks[i]);
      AccessorsCons(env, reading, chain[0], chain[i..]);
      assert chain[i..][1..] == chain[i + 1..];
      assert [ks[i]] + ks[i + 1..] == ks[i..];
    } else {
      NoAccessors(env, reading, chain[0]);
      assert chain[i..] == [] && ks[i..] == [];
    }
  }

  lemma EvalByAccessors(env: Env, reading: Reading, chain: Chain, ks: seq<Obj>)
    requires KeysAre(env, reading, chain, ks) && chain[0].Name?
    ensures Eval(env, reading, chain) == HeadValue(env, chain[0], ks)
  {
    hide Accessors, KeyIs, HeadValue;
    AccessorsAreKeys(env, reading, chain, ks, 0);
    assert chain[0..] == chain && ks[0..] == ks;
  }

  lemma KeysAreNotEmpty(env: Env, reading: Reading, chain: Chain, ks: seq<Obj>)
    requires KeysAre(env, reading, chain, ks)
    ensures chain != [] && ks != []
  {
  }

  lemma NoFirstLocal(env: Env, name: string)
    requires NoLocal(env, name)
    ensures forall k: nat :: !IsFirstLocal(env, name, k)
  {
  }

  lemma HasLocal(env: Env, name: string, k: nat)
    requires IsFirstLocal(env, name, k)
    ensures !NoLocal(env, name)
  {
  }

  lemma GlobalIsScoped(r: Resolved)
    ensures r.Found? ==> [] + r.path == r.path
  {
  }

  /**
   * The meaning of an expression on a name, whatever its brackets hold: its keys, resolved from
   * the root table; or, if there is a local of that name, all but the first resolved from the
   * value of the first such local, with the local's number in front of the path.
   */
  lemma NameIsResolved(env: Env, reading: Reading, chain: Chain, ks: seq<Obj>)
    requires KeysAre(env, reading, chain, ks) && chain[0].Name?
    ensures NoLocal(env, chain[0].value) ==>
              Eval(env, reading, chain) ==
              match Resolve(env.heap, env.platform, env.root, ks)
              case Missing => None
              case Found(object_, path) => Some(Value(object_, path, GlobalScope))
    ensures forall k: nat | IsFirstLocal(env, chain[0].value, k) ::
              Eval(env, reading, chain) ==
              match Resolve(env.heap, env.platform, env.frames[env.frame][k].value, ks[1..])
              case Missing => None
              case Found(object_, path) => Some(Value(object_, [k % 0x1_0000_0000] + path, LocalScope))
  {
    hide Resolve, Accessors, KeysAre, IsFirstLocal, NoLocal, Eval;
    KeysAreNotEmpty(env, reading, chain, ks);
    var name := chain[0].value;
    LocalNamedExactly(env, name);
    EvalByAccessors(env, reading, chain, ks);
    match LocalNamed(env, name)
    case None =>
      NoFirstLocal(env, name);
      GlobalIsScoped(Resolve(env.heap, env.platform, env.root, ks));
    case Some(k) =>
      HasLocal(env, name, k);
      forall l: nat | IsFirstLocal(env, name, l) ensures l == k {
        FirstLocalIsOne(env, name, k, l);
      }
  }

  /**
   * Where no table on the way shadows a key, an expression on a name is the chain of plain
   * lookups of its keys, from the first local of that name or else from the root table.
   */
  lemma NamesAreLookups(env: Env, reading: Reading, chain: Chain, ks: seq<Obj>, start: Obj, keys: seq<Obj>)
    requires KeysAre(env, reading, chain, ks) && chain[0].Name?
    requires (NoLocal(env, chain[0].value) && start == env.root && keys == ks)
             || exists k: nat :: IsFirstLocal(env, chain[0].value, k)
                                 && start == env.frames[env.frame][k].value && keys == ks[1..]
    requires Unshadowed(env.heap, env.platform, start, keys)
    ensures match Eval(env, reading, chain)
            case None => Lookup(env.heap, env.platform, start, keys).None?
            case Some(val) => Lookup(env.heap, env.platform, start, keys) == Some(val.object_)
  {
    hide Lookup, Resolve, Unshadowed, Accessors, Eval, KeyIs, IsFirstLocal, NoLocal;
    NameIsResolved(env, reading, chain, ks);
    ResolveIsLookup(env.heap, env.platform, start, keys);
  }

  lemma FirstAccessor(env: Env, reading: Reading, chain: Chain)
    requires chain != [] && !chain[0].Bracket?
    ensures match (Literal(env.platform, chain[0]), Accessors(env, reading, chain[0], chain[1..]))
            case (Some(a), Some(rest)) => Accessors(env, reading, chain[0], chain) == Some([a] + rest)
            case _ => Accessors(env, reading, chain[0], chain) == None
  {
  }

  /** A number alone is the int its digits spell, wrapped to 32 bits, unless a long cannot hold it. */
  lemma NumberIsItself(env: Env, reading: Reading, digits: string)
    requires digits != "" && PathText.AllDigits(digits)
    ensures var n := PathText.Spelled(digits);
            var val := Eval(env, reading, [Number(digits)]);
            if n > env.platform.longMax then val == None
            else
              && val.Some? && val.value.path == [] && val.value.scope == EvaluationScope
              && val.value.object_.kind == Integer
              && -0x8000_0000 <= val.value.object_.raw <= 0x7FFF_FFFF
              && (val.value.object_.raw - n) % 0x1_0000_0000 == 0
              && (n <= 0x7FFF_FFFF ==> val.value.object_ == Obj(Integer, n))
  {
    hide PathText.Spelled, PathText.Decimal, PathText.Strtol, Accessors;
    PathText.DigitsAreDigits(digits);
    PathText.StrtolReads("", "", digits, "");
    PathText.DecimalIsSpelled(digits);
    assert "" + "" + digits + "" == digits;
    assert [Number(digits)][1..] == [];
    NoAccessors(env, reading, Number(digits));
    FirstAccessor(env, reading, [Number(digits)]);
  }

  lemma {:induction false} AllBracketsMean(env: Env, reading: Reading, head: Node, nodes: Chain)
    requires forall i | 0 <= i < |nodes| :: nodes[i].Bracket? && Eval(env, reading, nodes[i].inner).Some?
    ensures Accessors(env, reading, head, nodes).Some?
    decreases |nodes|
  {
    hide Eval;
    if nodes != [] {
      AllBracketsMean(env, reading, head, nodes[1..]);
    }
  }

  /** A string is itself, even with brackets behind it, as long as these have values. */
  lemma StringIsItself(env: Env, reading: Reading, value: string, more: Chain)
    requires forall i | 0 <= i < |more| :: more[i].Bracket? && Eval(env, reading, more[i].inner).Some?
    ensures Eval(env, reading, [Text(value)] + more)
            == Some(Value(Obj(String, env.platform.intern(value)), [], EvaluationScope))
  {
    hide Accessors;
    var chain := [Text(value)] + more;
    assert chain[1..] == more;
    AllBracketsMean(env, reading, chain[0], more);
    FirstAccessor(env, reading, chain);
  }

  /** A blank watch is the empty string. */
  lemma BlankIsEmptyString(env: Env, reading: Reading)
    ensures Eval(env, reading, [Undefined]) == Some(Value(Obj(String, env.platform.intern("")), [], EvaluationScope))
  {
    hide Accessors;
    NoAccessors(env, reading, Undefined);
    assert [Undefined][1..] == [];
    FirstAccessor(env, reading, [Undefined]);
  }

  // ---------------------------------------------------------------- dotted names

  /** Different texts are interned at different addresses. */
  ghost predicate InternsApart(p: Platform) {
    forall s, t | s != t :: p.intern(s) != p.intern(t)
  }

  /** The digit of a character. */
  function DigitOf(c: char): (d: nat)
    ensures 1 <= d <= 0x11_0000
  {
    c as int + 1
  }

  /** A text as a number: its characters are digits from 1 on. */
  function Numbered(s: string): (n: int)
    ensures n >= 0
  {
    if s == "" then 0 else 0x11_0000 * Numbered(s[..|s| - 1]) + DigitOf(s[|s| - 1])
  }

  lemma SameDigits(q: nat, d: nat, r: nat, e: nat)
    requires 1 <= d <= 0x11_0000 && 1 <= e <= 0x11_0000 && 0x11_0000 * q + d == 0x11_0000 * r + e
    ensures q == r && d == e
  {
  }

  lemma DigitsApart(c: char, d: char)
    requires DigitOf(c) == DigitOf(d)
    ensures c == d
  {
  }

  lemma NumberedStep(s: string)
    ensures s == "" <==> Numbered(s) == 0
    ensures s != "" ==> Numbered(s) == 0x11_0000 * Numbered(s[..|s| - 1]) + DigitOf(s[|s| - 1])
  {
    hide DigitOf;
  }

  lemma {:induction false} NumberedApart(s: string, t: string)
    requires Numbered(s) == Numbered(t)
    ensures s == t
  {
    NumberedStep(s);
    NumberedStep(t);
    hide DigitOf, Numbered;
    if s != "" && t != "" {
      var front, last := s[..|s| - 1], s[|s| - 1];
      var front', last' := t[..|t| - 1], t[|t| - 1];
      SameDigits(Numbered(front), DigitOf(last), Numbered(front'), DigitOf(last'));
      DigitsApart(last, last');
      NumberedApart(front, front');
      assert s == front + [last] && t == front' + [last'];
    }
  }

  /** Texts can be interned apart. */
  lemma InterningExists(p: Platform)
    ensures InternsApart(p.(intern := Numbered))
  {
    var q := p.(intern := Numbered);
    forall s, t | s != t ensures q.intern(s) != q.intern(t) {
      assert q.intern(s) == Numbered(s) && q.intern(t) == Numbered(t);
      if Numbered(s) == Numbered(t) {
        NumberedApart(s, t);
      }
    }
  }

  /** Every bracket in the chain evaluates, and to what is written in it. */
  ghost predicate BracketsAgree(env: Env, nodes: Chain) {
    forall i | 0 <= i < |nodes| && nodes[i].Bracket? ::
      Eval(env, AsCoded, nodes[i].inner).Some?
      && Eval(env, AsCoded, nodes[i].inner) == Eval(env, AsWritten, nodes[i].inner)
  }

  lemma {:induction false} WrittenAreLiterals(env: Env, head: Node, nodes: Chain)
    requires BracketsAgree(env, nodes)
    requires forall i | 0 <= i < |nodes| :: nodes[i].Name? || nodes[i].Bracket?
    ensures Accessors(env, AsWritten, head, nodes).Some?
    decreases |nodes|
  {
    hide Eval;
    if nodes != [] {
      WrittenAreLiterals(env, head, nodes[1..]);
    }
  }

  /**
   * The code reads the text of the head for every dotted name of a chain on a name. It looks up
   * what is written exactly when all the dotted names are the head's own.
   */
  lemma {:induction false} CodeReadsWhatIsWrittenIff(env: Env, head: Node, nodes: Chain)
    requires InternsApart(env.platform) && head.Name? && BracketsAgree(env, nodes)
    requires forall i | 0 <= i < |nodes| :: nodes[i].Name? || nodes[i].Bracket?
    ensures Accessors(env, AsCoded, head, nodes).Some?
    ensures Accessors(env, AsCoded, head, nodes) == Accessors(env, AsWritten, head, nodes)
            <==> forall i | 0 <= i < |nodes| && nodes[i].Name? :: nodes[i].value == head.value
    decreases |nodes|
  {
    hide Eval;
    if nodes != [] {
      var n, rest := nodes[0], nodes[1..];
      CodeReadsWhatIsWrittenIff(env, head, rest);
      assert Accessors(env, AsWritten, head, rest).Some? by { WrittenAreLiterals(env, head, rest); }
      var c, w := Accessors(env, AsCoded, head, rest).value, Accessors(env, AsWritten, head, rest).value;
      var a, b := Accessor(env, AsCoded, head, n).value, Accessor(env, AsWritten, head, n).value;
      assert a == b <==> (n.Name? ==> n.value == head.value);
      assert ([a] + c)[0] == a && ([b] + w)[0] == b && ([a] + c)[1..] == c && ([b] + w)[1..] == w;
      assert nodes == [n] + rest;
    }
  }

  predicate HonestNode(head: Node, n: Node, first: bool)
    decreases n, 2
  {
    match n
    case Bracket(inner) => Honest(inner)
    case Name(_) => n == head
    case _ => first
  }

  /** No chain anywhere in the expression has a dotted name other than its head's. */
  predicate Honest(chain: Chain)
    decreases chain, 1
  {
    chain != [] && forall i | 0 <= i < |chain| :: HonestNode(chain[0], chain[i], i == 0)
  }

  /** Such expressions mean what is written; bracket chains are among them. */
  lemma {:induction false} HonestChainsMeanWhatIsWritten(env: Env, chain: Chain)
    requires Honest(chain)
    ensures Eval(env, AsCoded, chain) == Eval(env, AsWritten, chain)
    decreases chain, 1
  {
    HonestAccessor(env, chain[0], chain[0], true);
    HonestAccessors(env, chain[0], chain[1..]);
  }

  lemma {:induction false} HonestAccessor(env: Env, head: Node, n: Node, first: bool)
    requires HonestNode(head, n, first) && (first ==> n == head)
    ensures Accessor(env, AsCoded, head, n) == Accessor(env, AsWritten, head, n)
    decreases n, 2
  {
    match n
    case Bracket(inner) => HonestChainsMeanWhatIsWritten(env, inner);
    case _ =>
  }

  lemma {:induction false} HonestAccessors(env: Env, head: Node, nodes: Chain)
    requires forall i | 0 <= i < |nodes| :: HonestNode(head, nodes[i], false)
    ensures Accessors(env, AsCoded, head, nodes) == Accessors(env, AsWritten, head, nodes)
    decreases nodes, 0
  {
    if nodes != [] {
      assert HonestNode(head, nodes[0], false);
      HonestAccessor(env, head, nodes[0], false);
      HonestAccessors(env, head, nodes[1..]);
    }
  }

  /** A root table { foo = { foo = 1, bar = 2 } }. */
  function FooBar(p: Platform): (env: Env) {
    var inner, root := Obj(Table, 1000), Obj(Table, 2000);
    var foo, bar := Str(p, "foo"), Str(p, "bar");
    var slots := map[root := [Entry(foo, inner)], inner := [Entry(foo, Int(1)), Entry(bar, Int(2))]];
    Env(Heap(slots, map[]), p, root, [], -1)
  }

  lemma FooBarSteps(p: Platform)
    requires InternsApart(p)
    ensures var env := FooBar(p);
            var inner, foo, bar := Obj(Table, 1000), Str(p, "foo"), Str(p, "bar");
            && ResolveStep(env.heap, p, env.root, foo) == Some(Part(0, inner))
            && ResolveStep(env.heap, p, inner, foo) == Some(Part(0, Int(1)))
            && ResolveStep(env.heap, p, inner, bar) == Some(Part(1, Int(2)))
  {
    var env := FooBar(p);
    var inner, foo, bar := Obj(Table, 1000), Str(p, "foo"), Str(p, "bar");
    var outer, slots := [Entry(foo, inner)], [Entry(foo, Int(1)), Entry(bar, Int(2))];
    assert foo.raw != bar.raw by { assert "foo" != "bar"; }
    assert SlotsOf(env.heap, env.root) == outer && SlotsOf(env.heap, inner) == slots;
    assert FindIter(outer, 0, foo.raw) == Some(Hit(0, 0));
    assert FindIter(slots, 0, foo.raw) == Some(Hit(0, 0));
    assert FindKey(slots, bar, 1) == Some(1) && FindKey(slots, bar, 0) == Some(1);
    assert NextSlot(slots, 1) == Some(1) && FindIter(slots, 1, bar.raw) == Some(Hit(1, 1));
    assert NextSlot(slots, 0) == Some(0) && FindIter(slots, 0, bar.raw) == Some(Hit(1, 1));
  }

  lemma AccessorsOfTwo(env: Env, reading: Reading, head: Node, m: Node, n: Node)
    ensures Accessors(env, reading, head, [m, n]) ==
            match (Accessor(env, reading, head, m), Accessor(env, reading, head, n))
            case (Some(a), Some(b)) => Some([a, b])
            case _ => None
  {
    hide Accessor;
    assert [m, n][1..] == [n] && [n][1..] == [];
    assert Accessors(env, reading, head, []) == Some([]);
    match Accessor(env, reading, head, n)
    case None => assert Accessors(env, reading, head, [n]).None?;
    case Some(b) =>
      assert [b] + [] == [b];
      assert Accessors(env, reading, head, [n]) == Some([b]);
      assert forall a: Obj :: [a] + [b] == [a, b];
  }

  lemma ResolveTwo(h: Heap, p: Platform, o: Obj, k: Obj, l: Obj)
    ensures Resolve(h, p, o, [k, l]) ==
            match ResolveStep(h, p, o, k)
            case None => Missing
            case Some(s) =>
              match ResolveStep(h, p, s.child, l)
              case None => Missing
              case Some(t) => Found(t.child, [ToUint32(s.part), ToUint32(t.part)])
  {
    hide ResolveStep, ToUint32;
    assert [k, l][1..] == [l] && [l][1..] == [];
    match ResolveStep(h, p, o, k)
    case None =>
    case Some(s) =>
      match ResolveStep(h, p, s.child, l)
      case None => assert Resolve(h, p, s.child, [l]).Missing?;
      case Some(t) =>
        assert Resolve(h, p, t.child, []) == Found(t.child, []);
        assert Resolve(h, p, s.child, [l]) == Found(t.child, [ToUint32(t.part)]);
  }

  /** The watch foo.bar on { foo = { foo = 1, bar = 2 } } answers 1. */
  lemma DottedNameIsHead(p: Platform)
    requires InternsApart(p)
    ensures var chain := [Name("foo"), Name("bar")];
            && WellFormed(chain)
            && Eval(FooBar(p), AsCoded, chain) == Some(Value(Int(1), [0, 0], GlobalScope))
            && Eval(FooBar(p), AsWritten, chain) == Some(Value(Int(2), [0, 1], GlobalScope))
  {
    hide ResolveStep, Resolve, Accessors, InternsApart;
    var env := FooBar(p);
    var chain := [Name("foo"), Name("bar")];
    AccessorsOfTwo(env, AsCoded, chain[0], chain[0], chain[1]);
    AccessorsOfTwo(env, AsWritten, chain[0], chain[0], chain[1]);
    FooBarSteps(p);
    ResolveTwo(env.heap, p, env.root, Str(p, "foo"), Str(p, "foo"));
    ResolveTwo(env.heap, p, env.root, Str(p, "foo"), Str(p, "bar"));
    assert forall path: seq<nat> :: [] + path == path;
  }
}
