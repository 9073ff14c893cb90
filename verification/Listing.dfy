/**
 * Listing the children of an array, table or instance, one page at a time: by raw iterator, or,
 * for small tables, sorted by key text.
 */
module Listing {
  import opened Common
  import opened SquirrelVm
  import opened Navigation

  const MAX_TABLE_SIZE_TO_SORT: nat := 1000

  datatype Variable = Variable(
    pathIterator: nat,
    pathUiString: string,
    pathTableKeyType: Kind,
    value: Obj,
    valueText: string,
    valueRawAddress: int,
    instanceClassName: string,
    childCount: nat,
    editable: bool)

  function ChildCount(h: Heap, p: Platform, o: Obj): (n: nat) {
    match o.kind
    case Array => ToUint32(SizeOf(h, p, o))
    case Table => ToUint32(SizeOf(h, p, o))
    case Instance => ToUint32(p.delegateSize(o))
    case UserData => ToUint32(p.delegateSize(o))
    case _ => 0
  }

  predicate IsEditable(o: Obj) {
    o.kind == Bool || o.kind == Float || o.kind == Integer || o.kind == String
  }

  /** ISREFCOUNTED. */
  predicate IsCounted(p: Platform, o: Obj) {
    match o.kind
    case String => true
    case Table => true
    case Array => true
    case Instance => true
    case UserData => true
    case Other => p.otherCounted(o)
    case _ => false
  }

  /** The variable for a value, before the caller says where it was found. */
  function Described(h: Heap, p: Platform, o: Obj): (c: Variable) {
    Variable(0, "", Null, o, p.text(h, o), if IsCounted(p, o) then o.raw else 0,
             if o.kind == Instance then p.className(h, o) else "", ChildCount(h, p, o), IsEditable(o))
  }

  /** The variable for one step of an iteration that stood at `it`. */
  function Listed(h: Heap, p: Platform, o: Obj, it: nat, key: Obj, val: Obj): (c: Variable) {
    Described(h, p, val).(pathIterator := it, pathUiString := p.text(h, key),
                          pathTableKeyType := if o.kind == Array then Null else key.kind)
  }

  function ListedAt(h: Heap, p: Platform, o: Obj, it: nat): (c: Variable)
    requires Iterate(h, o, it).Some?
  {
    var step := Iterate(h, o, it).value;
    Listed(h, p, o, it, step.key, step.val)
  }

  /** What a client is told about a value, field by field; where it was found is for the caller to say. */
  predicate Describes(h: Heap, p: Platform, c: Variable, o: Obj) {
    && c.value == o && c.valueText == p.text(h, o)
    && c.valueRawAddress == (match o.kind
                             case String => o.raw
                             case Table => o.raw
                             case Array => o.raw
                             case Instance => o.raw
                             case UserData => o.raw
                             case Other => if p.otherCounted(o) then o.raw else 0
                             case _ => 0)
    && c.instanceClassName == (if o.kind == Instance then p.className(h, o) else "")
    && c.childCount == (match o.kind
                        case Table => Used(SlotsOf(h, o)) % 0x1_0000_0000
                        case Array => |ElementsOf(h, o)| % 0x1_0000_0000
                        case Instance => p.delegateSize(o) % 0x1_0000_0000
                        case UserData => p.delegateSize(o) % 0x1_0000_0000
                        case _ => 0)
  }

  /** The values of a basic type. */
  predicate IsBasic(o: Obj) {
    match o.kind
    case Bool => true
    case Integer => true
    case Float => true
    case String => true
    case _ => false
  }

  lemma DescribedDescribes(h: Heap, p: Platform, o: Obj)
    ensures Describes(h, p, Described(h, p, o), o) && (Described(h, p, o).editable <==> IsBasic(o))
  {
  }

  /** The variable shows a member of a container: its value, its key, and the iterator that finds it. */
  predicate ShowsMember(h: Heap, p: Platform, c: Variable, it: nat, key: Obj, val: Obj) {
    && c.pathIterator == it && c.pathUiString == p.text(h, key) && c.pathTableKeyType == key.kind
    && Describes(h, p, c, val) && (c.editable <==> IsBasic(val))
  }

  /** The variable shows an array element: the index stands for the key, and has no key type. */
  predicate ShowsElement(h: Heap, p: Platform, c: Variable, index: nat, val: Obj) {
    && c.pathIterator == index && c.pathUiString == p.text(h, Int(index)) && c.pathTableKeyType == Null
    && Describes(h, p, c, val) && (c.editable <==> IsBasic(val))
  }

  lemma ListedShows(h: Heap, p: Platform, o: Obj, it: nat, key: Obj, val: Obj)
    ensures o.kind != Array ==> ShowsMember(h, p, Listed(h, p, o, it, key, val), it, key, val)
    ensures o.kind == Array && key == Int(it) ==> ShowsElement(h, p, Listed(h, p, o, it, key, val), it, val)
  {
    DescribedDescribes(h, p, val);
  }

  /** How far an iteration over the object can go. */
  function Extent(h: Heap, o: Obj): (n: nat) {
    if o.kind == Array then |ElementsOf(h, o)| else |SlotsOf(h, o)|
  }

  lemma IterateStaysInside(h: Heap, o: Obj, it: nat)
    ensures Iterate(h, o, it).Some? ==> Iterate(h, o, it).value.next <= Extent(h, o)
  {
  }

  /** Up to `count` children, in iteration order from `it`. */
  function Raw(h: Heap, p: Platform, o: Obj, it: nat, count: nat): (cs: seq<Variable>)
    decreases count
  {
    if count == 0 then []
    else
      match Iterate(h, o, it)
      case None => []
      case Some(step) => [ListedAt(h, p, o, it)] + Raw(h, p, o, step.next, count - 1)
  }

  /** Every key of the iteration from `it`, with the iterator just before it. */
  function Keys(h: Heap, p: Platform, o: Obj, it: nat): (ks: seq<KeyIter>)
    decreases Extent(h, o) - it
  {
    match Iterate(h, o, it)
    case None => []
    case Some(step) => [KeyIter(p.text(h, step.key), it)] + Keys(h, p, o, step.next)
  }

  /** Up to `count` children, in the order of the given iterators, stopping at one that yields nothing. */
  function ByKeys(h: Heap, p: Platform, o: Obj, keys: seq<KeyIter>, count: nat): (cs: seq<Variable>)
    decreases count
  {
    if count == 0 || keys == [] then []
    else
      match Iterate(h, o, keys[0].iter)
      case None => []
      case Some(step) => [ListedAt(h, p, o, keys[0].iter)] + ByKeys(h, p, o, keys[1..], count - 1)
  }

  function SortedKeys(h: Heap, p: Platform, o: Obj): (ks: seq<KeyIter>) {
    p.sort(Keys(h, p, o, 0))
  }

  predicate IsSmall(h: Heap, p: Platform, o: Obj) {
    IsSlotted(o) && SizeOf(h, p, o) < MAX_TABLE_SIZE_TO_SORT
  }

  /** A page that starts beyond the end of a sorted listing is undefined behaviour in the original. */
  predicate PageStarts(h: Heap, p: Platform, o: Obj, begin: nat) {
    IsSmall(h, p, o) ==> begin <= |SortedKeys(h, p, o)|
  }

  /** What CreateChildVariables lists. */
  function Children(h: Heap, p: Platform, o: Obj, begin: nat, count: nat): (cs: seq<Variable>)
    requires PageStarts(h, p, o, begin)
  {
    if IsSmall(h, p, o) then ByKeys(h, p, o, SortedKeys(h, p, o)[begin..], count)
    else if IsSlotted(o) || o.kind == Array then Raw(h, p, o, begin, count)
    else []
  }

  // ---------------------------------------------------------------- sorting

  /** `operator<` of std::string. */
  predicate TextLess(a: string, b: string) {
    b != "" && (a == "" || a[0] < b[0] || (a[0] == b[0] && TextLess(a[1..], b[1..])))
  }

  predicate PrecedesAt(a: string, b: string, k: nat) {
    && k <= |a| && k < |b| && a[..k] == b[..k]
    && (k == |a| || (k < |a| && a[k] < b[k]))
  }

  /** A common front, then the end of the first text or a smaller character. */
  ghost predicate Precedes(a: string, b: string) {
    exists k: nat :: PrecedesAt(a, b, k)
  }

  lemma PrecedesTail(a: string, b: string, k: nat)
    requires a != "" && b != "" && a[0] == b[0]
    ensures PrecedesAt(a, b, k + 1) <==> PrecedesAt(a[1..], b[1..], k)
  {
    if k < |a| && k < |b| {
      assert a[..k + 1] == [a[0]] + a[1..][..k] && b[..k + 1] == [b[0]] + b[1..][..k];
      assert a[..k + 1] == b[..k + 1] ==> a[1..][..k] == a[..k + 1][1..] == b[..k + 1][1..];
      assert b[..k + 1][1..] == b[1..][..k];
    }
  }

  lemma PrecedesFirst(a: string, b: string, k: nat)
    requires PrecedesAt(a, b, k)
    ensures b != "" && (a == "" || a[0] <= b[0])
  {
    if k > 0 {
      assert a[0] == a[..k][0] == b[..k][0] == b[0];
    }
  }

  /** The order is that of a dictionary, by character code. */
  lemma {:induction false} TextLessExactly(a: string, b: string)
    ensures TextLess(a, b) <==> Precedes(a, b)
  {
    if a != "" && b != "" && a[0] == b[0] {
      TextLessExactly(a[1..], b[1..]);
      if Precedes(a, b) {
        var k: nat :| PrecedesAt(a, b, k);
        PrecedesTail(a, b, k - 1);
      }
      if Precedes(a[1..], b[1..]) {
        var k: nat :| PrecedesAt(a[1..], b[1..], k);
        PrecedesTail(a, b, k);
      }
    } else if b != "" && (a == "" || a[0] < b[0]) {
      assert PrecedesAt(a, b, 0);
    } else if Precedes(a, b) {
      var k: nat :| PrecedesAt(a, b, k);
      PrecedesFirst(a, b, k);
    }
  }

  ghost predicate SortedByText(ks: seq<KeyIter>) {
    forall i, j | 0 <= i < j < |ks| :: !TextLess(ks[j].text, ks[i].text)
  }

  /** Any function that does what std::sort promises; the order of equal texts is its own. */
  ghost predicate IsSorter(sort: seq<KeyIter> -> seq<KeyIter>) {
    forall ks :: SortedByText(sort(ks)) && multiset(sort(ks)) == multiset(ks)
  }

  lemma {:induction false} TextLessTransitive(a: string, b: string, c: string)
    requires !TextLess(b, a) && !TextLess(c, b)
    ensures !TextLess(c, a)
  {
    if a != "" && b != "" && c != "" && a[0] == b[0] == c[0] {
      TextLessTransitive(a[1..], b[1..], c[1..]);
    }
  }

  lemma {:induction false} TextLessAsymmetric(a: string, b: string)
    requires TextLess(a, b)
    ensures !TextLess(b, a)
  {
    if a != "" && a[0] == b[0] {
      TextLessAsymmetric(a[1..], b[1..]);
    }
  }

  function Insert(k: KeyIter, ks: seq<KeyIter>): (r: seq<KeyIter>) {
    if ks == [] || !TextLess(ks[0].text, k.text) then [k] + ks else [ks[0]] + Insert(k, ks[1..])
  }

  function InsertionSort(ks: seq<KeyIter>): (r: seq<KeyIter>) {
    if ks == [] then [] else Insert(ks[0], InsertionSort(ks[1..]))
  }

  lemma TailSorted(ks: seq<KeyIter>)
    requires SortedByText(ks) && ks != []
    ensures SortedByText(ks[1..])
    ensures forall x | x in ks[1..] :: !TextLess(x.text, ks[0].text)
  {
  }

  lemma SortedCons(k: KeyIter, ks: seq<KeyIter>)
    requires SortedByText(ks) && forall x: KeyIter | x in multiset(ks) :: !TextLess(x.text, k.text)
    ensures SortedByText([k] + ks)
  {
  }

  lemma {:induction false} InsertSorts(k: KeyIter, ks: seq<KeyIter>)
    requires SortedByText(ks)
    ensures SortedByText(Insert(k, ks)) && multiset(Insert(k, ks)) == multiset(ks) + multiset{k}
  {
    var r := Insert(k, ks);
    if ks == [] {
    } else if !TextLess(ks[0].text, k.text) {
      forall j | 0 <= j < |ks| ensures !TextLess(ks[j].text, k.text) {
        if j > 0 {
          TextLessTransitive(k.text, ks[0].text, ks[j].text);
        }
      }
    } else {
      var rest := Insert(k, ks[1..]);
      TailSorted(ks);
      InsertSorts(k, ks[1..]);
      assert ks == [ks[0]] + ks[1..];
      forall x: KeyIter | x in multiset(rest) ensures !TextLess(x.text, ks[0].text) {
        if x == k {
          TextLessAsymmetric(ks[0].text, k.text);
        } else {
          assert x in ks[1..];
        }
      }
      SortedCons(ks[0], rest);
    }
  }

  lemma {:induction false} InsertionSortSorts(ks: seq<KeyIter>)
    ensures SortedByText(InsertionSort(ks)) && multiset(InsertionSort(ks)) == multiset(ks)
  {
    hide TextLess, Insert;
    if ks != [] {
      InsertionSortSorts(ks[1..]);
      InsertSorts(ks[0], InsertionSort(ks[1..]));
      assert ks == [ks[0]] + ks[1..];
    }
  }

  /** The assumption on std::sort can be met. */
  lemma SortersExist()
    ensures IsSorter(InsertionSort)
  {
    forall ks ensures SortedByText(InsertionSort(ks)) && multiset(InsertionSort(ks)) == multiset(ks) {
      InsertionSortSorts(ks);
    }
  }

  // ---------------------------------------------------------------- what the keys are

  /** Iterators that yield something. */
  predicate Live(h: Heap, o: Obj, ks: seq<KeyIter>) {
    forall i | 0 <= i < |ks| :: Iterate(h, o, ks[i].iter).Some?
  }

  lemma {:induction false} KeysAreLive(h: Heap, p: Platform, o: Obj, it: nat)
    ensures Live(h, o, Keys(h, p, o, it))
    decreases Extent(h, o) - it
  {
    match Iterate(h, o, it)
    case None =>
    case Some(step) => KeysAreLive(h, p, o, step.next);
  }

  lemma LiveIsAboutContents(h: Heap, o: Obj, ks: seq<KeyIter>, ls: seq<KeyIter>)
    requires multiset(ks) == multiset(ls) && Live(h, o, ks)
    ensures Live(h, o, ls) && |ls| == |ks|
  {
    assert |ks| == |multiset(ks)| == |multiset(ls)| == |ls|;
    forall i | 0 <= i < |ls| ensures Iterate(h, o, ls[i].iter).Some? {
      assert ls[i] in multiset(ls);
      assert ls[i] in ks;
    }
  }

  lemma SortedAreLive(h: Heap, p: Platform, o: Obj)
    requires IsSorter(p.sort)
    ensures Live(h, o, SortedKeys(h, p, o)) && |SortedKeys(h, p, o)| == |Keys(h, p, o, 0)|
  {
    KeysAreLive(h, p, o, 0);
    LiveIsAboutContents(h, o, Keys(h, p, o, 0), SortedKeys(h, p, o));
  }

  /** The occupied slots of a table, in storage order: what it contains, whatever lists it. */
  function Entries(slots: seq<Slot>): (r: seq<Slot>)
    ensures |r| == Used(slots)
  {
    if slots == [] then []
    else Entries(slots[..|slots| - 1]) + (if slots[|slots| - 1].Entry? then [slots[|slots| - 1]] else [])
  }

  /** The entry an iterator yields. */
  function EntryAt(h: Heap, o: Obj, k: KeyIter): (slot: Slot) {
    match Iterate(h, o, k.iter)
    case None => Slot.Empty
    case Some(step) => Entry(step.key, step.val)
  }

  function EntriesAt(h: Heap, o: Obj, ks: seq<KeyIter>): (r: seq<Slot>) {
    seq(|ks|, i requires 0 <= i < |ks| => EntryAt(h, o, ks[i]))
  }

  lemma EntriesLast(slots: seq<Slot>, i: nat)
    requires i < |slots|
    ensures Entries(slots[..i + 1]) == Entries(slots[..i]) + (if slots[i].Entry? then [slots[i]] else [])
  {
    assert slots[..i + 1][..i] == slots[..i];
  }

  lemma {:induction false} EntriesOverEmpty(slots: seq<Slot>, i: nat, j: nat)
    requires i <= j <= |slots| && forall k | i <= k < j :: slots[k].Empty?
    ensures Entries(slots[..j]) == Entries(slots[..i])
    decreases j
  {
    hide Entries;
    if i < j {
      EntriesLast(slots, j - 1);
      EntriesOverEmpty(slots, i, j - 1);
    }
  }

  lemma EntriesToSlot(slots: seq<Slot>, it: nat, i: nat)
    requires NextSlot(slots, it) == Some(i)
    ensures Entries(slots[..i + 1]) == Entries(slots[..it]) + [slots[i]]
  {
    hide Entries, NextSlot;
    EntriesOverEmpty(slots, it, i);
    EntriesLast(slots, i);
  }

  lemma EntriesToEnd(slots: seq<Slot>, it: nat)
    requires it <= |slots| && NextSlot(slots, it).None?
    ensures Entries(slots) == Entries(slots[..it])
  {
    hide Entries, NextSlot;
    EntriesOverEmpty(slots, it, |slots|);
    assert slots[..|slots|] == slots;
  }

  lemma EntriesCons(h: Heap, o: Obj, k: KeyIter, ks: seq<KeyIter>)
    ensures EntriesAt(h, o, [k] + ks) == [EntryAt(h, o, k)] + EntriesAt(h, o, ks)
  {
    hide EntryAt;
  }

  lemma KeysStep(h: Heap, p: Platform, o: Obj, it: nat)
    requires IsSlotted(o)
    ensures match NextSlot(SlotsOf(h, o), it)
            case None => Keys(h, p, o, it) == []
            case Some(i) =>
              EntriesAt(h, o, Keys(h, p, o, it)) == [SlotsOf(h, o)[i]] + EntriesAt(h, o, Keys(h, p, o, i + 1))
  {
    hide NextSlot;
    match NextSlot(SlotsOf(h, o), it)
    case None =>
    case Some(i) =>
      var k, rest := KeyIter(p.text(h, SlotsOf(h, o)[i].key), it), Keys(h, p, o, i + 1);
      assert Keys(h, p, o, it) == [k] + rest;
      assert EntryAt(h, o, k) == SlotsOf(h, o)[i];
      EntriesCons(h, o, k, rest);
  }

  /** The iteration from `it` meets exactly the entries from there on. */
  lemma {:induction false} KeysMeetEntries(h: Heap, p: Platform, o: Obj, it: nat)
    requires IsSlotted(o) && it <= |SlotsOf(h, o)|
    ensures Entries(SlotsOf(h, o)) == Entries(SlotsOf(h, o)[..it]) + EntriesAt(h, o, Keys(h, p, o, it))
    decreases |SlotsOf(h, o)| - it
  {
    hide Keys, Entries, NextSlot, EntryAt;
    var slots := SlotsOf(h, o);
    KeysStep(h, p, o, it);
    match NextSlot(slots, it)
    case None => EntriesToEnd(slots, it);
    case Some(i) =>
      EntriesToSlot(slots, it, i);
      KeysMeetEntries(h, p, o, i + 1);
      var before, rest := Entries(slots[..it]), EntriesAt(h, o, Keys(h, p, o, i + 1));
      assert before + [slots[i]] + rest == before + ([slots[i]] + rest);
  }

  function Without<T>(s: seq<T>, j: nat): (r: seq<T>)
    requires j < |s|
    ensures |r| == |s| - 1
  {
    s[..j] + s[j + 1..]
  }

  lemma DropOne<T>(s: seq<T>, j: nat)
    requires j < |s|
    ensures multiset(s) == multiset(Without(s, j)) + multiset{s[j]}
    ensures multiset(Without(s, j)) == multiset(s) - multiset{s[j]}
  {
    assert s == s[..j] + [s[j]] + s[j + 1..];
  }

  lemma EntriesDrop(h: Heap, o: Obj, ks: seq<KeyIter>, j: nat)
    requires j < |ks|
    ensures multiset(EntriesAt(h, o, ks)) == multiset(EntriesAt(h, o, Without(ks, j))) + multiset{EntryAt(h, o, ks[j])}
  {
    hide EntryAt;
    var all := EntriesAt(h, o, ks);
    assert EntriesAt(h, o, Without(ks, j)) == Without(all, j);
    DropOne(all, j);
  }

  /** Reordering iterators reorders the entries they yield. */
  lemma {:induction false} EntriesAreAboutContents(h: Heap, o: Obj, ks: seq<KeyIter>, ls: seq<KeyIter>)
    requires multiset(ks) == multiset(ls)
    ensures multiset(EntriesAt(h, o, ks)) == multiset(EntriesAt(h, o, ls))
    decreases |ks|
  {
    hide EntryAt;
    assert |ks| == |multiset(ks)| == |multiset(ls)| == |ls|;
    if ks != [] {
      var k := ks[0];
      assert k in multiset(ls);
      var j :| 0 <= j < |ls| && ls[j] == k;
      DropOne(ks, 0);
      DropOne(ls, j);
      EntriesAreAboutContents(h, o, Without(ks, 0), Without(ls, j));
      EntriesDrop(h, o, ks, 0);
      EntriesDrop(h, o, ls, j);
    }
  }

  // ---------------------------------------------------------------- paging

  /** The pages of size n from `begin` on, one after the other. */
  function Pages(h: Heap, p: Platform, o: Obj, begin: nat, n: nat): (cs: seq<Variable>)
    requires n > 0 && IsSmall(h, p, o) && begin <= |SortedKeys(h, p, o)|
    decreases |SortedKeys(h, p, o)| - begin
  {
    if begin + n >= |SortedKeys(h, p, o)| then Children(h, p, o, begin, n)
    else Children(h, p, o, begin, n) + Pages(h, p, o, begin + n, n)
  }

  /** Listing live keys lists one variable for each, in order. */
  lemma {:induction false} ByKeysIsPointwise(h: Heap, p: Platform, o: Obj, ks: seq<KeyIter>, count: nat)
    requires Live(h, o, ks)
    ensures var cs := ByKeys(h, p, o, ks, count);
            && |cs| == (if count < |ks| then count else |ks|)
            && forall i | 0 <= i < |cs| :: cs[i] == ListedAt(h, p, o, ks[i].iter)
    decreases count
  {
    hide Iterate, Listed;
    if count != 0 && ks != [] {
      ByKeysIsPointwise(h, p, o, ks[1..], count - 1);
    }
  }

  lemma ByKeysSplits(h: Heap, p: Platform, o: Obj, ks: seq<KeyIter>, n: nat, count: nat)
    requires Live(h, o, ks) && n <= |ks| && n <= count
    ensures ByKeys(h, p, o, ks, count) == ByKeys(h, p, o, ks, n) + ByKeys(h, p, o, ks[n..], count - n)
  {
    hide ByKeys, Iterate, ListedAt;
    ByKeysIsPointwise(h, p, o, ks, count);
    ByKeysIsPointwise(h, p, o, ks, n);
    ByKeysIsPointwise(h, p, o, ks[n..], count - n);
  }

  lemma ByKeysEnough(h: Heap, p: Platform, o: Obj, ks: seq<KeyIter>, a: nat, b: nat)
    requires Live(h, o, ks) && |ks| <= a && |ks| <= b
    ensures ByKeys(h, p, o, ks, a) == ByKeys(h, p, o, ks, b)
  {
  }

  lemma {:induction false} PagesJoin(h: Heap, p: Platform, o: Obj, begin: nat, n: nat)
    requires n > 0 && IsSmall(h, p, o) && IsSorter(p.sort) && begin <= |SortedKeys(h, p, o)|
    ensures var ks := SortedKeys(h, p, o);
            Pages(h, p, o, begin, n) == ByKeys(h, p, o, ks[begin..], |ks| - begin)
    decreases |SortedKeys(h, p, o)| - begin
  {
    hide ByKeys, Iterate, Keys, IsSorter, ListedAt;
    var ks := SortedKeys(h, p, o);
    SortedAreLive(h, p, o);
    if begin + n >= |ks| {
      ByKeysEnough(h, p, o, ks[begin..], n, |ks| - begin);
    } else {
      PagesJoin(h, p, o, begin + n, n);
      ByKeysSplits(h, p, o, ks[begin..], n, |ks| - begin);
      assert ks[begin..][n..] == ks[begin + n..];
    }
  }

  lemma KeysAreEntries(h: Heap, p: Platform, o: Obj)
    requires IsSlotted(o)
    ensures EntriesAt(h, o, Keys(h, p, o, 0)) == Entries(SlotsOf(h, o))
    ensures |Keys(h, p, o, 0)| == Used(SlotsOf(h, o))
  {
    hide Keys, EntryAt;
    KeysMeetEntries(h, p, o, 0);
    assert SlotsOf(h, o)[..0] == [] && Entries([]) == [];
  }

  /** Every key's text is the text of the key its iterator yields. */
  predicate TextsRight(h: Heap, p: Platform, o: Obj, ks: seq<KeyIter>) {
    forall i | 0 <= i < |ks| ::
      EntryAt(h, o, ks[i]).Entry? && ks[i].text == p.text(h, EntryAt(h, o, ks[i]).key)
  }

  lemma {:induction false} KeysHaveTexts(h: Heap, p: Platform, o: Obj, it: nat)
    ensures TextsRight(h, p, o, Keys(h, p, o, it))
    decreases Extent(h, o) - it
  {
    match Iterate(h, o, it)
    case None =>
    case Some(step) => KeysHaveTexts(h, p, o, step.next);
  }

  lemma TextsAreAboutContents(h: Heap, p: Platform, o: Obj, ks: seq<KeyIter>, ls: seq<KeyIter>)
    requires multiset(ks) == multiset(ls) && TextsRight(h, p, o, ks)
    ensures TextsRight(h, p, o, ls)
  {
    hide EntryAt;
    forall i | 0 <= i < |ls| ensures EntryAt(h, o, ls[i]).Entry? && ls[i].text == p.text(h, EntryAt(h, o, ls[i]).key) {
      assert ls[i] in multiset(ls);
      assert ls[i] in ks;
    }
  }

  lemma ListedShowsEntry(h: Heap, p: Platform, o: Obj, ks: seq<KeyIter>, i: nat)
    requires i < |ks| && Live(h, o, ks) && TextsRight(h, p, o, ks)
    ensures var entry := EntryAt(h, o, ks[i]);
            && entry.Entry? && ks[i].text == p.text(h, entry.key)
            && (o.kind != Array ==> ShowsMember(h, p, ListedAt(h, p, o, ks[i].iter), ks[i].iter, entry.key, entry.val))
  {
    hide Listed, ShowsMember, ShowsElement;
    var entry := EntryAt(h, o, ks[i]);
    ListedShows(h, p, o, ks[i].iter, entry.key, entry.val);
  }

  /**
   * Pages of any size partition a small table or instance: together they list every occupied slot
   * exactly once, in the order of the key texts, for a table as many as the size counts.
   */
  lemma PagesPartition(h: Heap, p: Platform, o: Obj, n: nat)
    requires n > 0 && IsSlotted(o) && SizeOf(h, p, o) < 1000 && IsSorter(p.sort)
    ensures var ks := SortedKeys(h, p, o);
            var all := Pages(h, p, o, 0, n);
            var entries := EntriesAt(h, o, ks);
            && SortedByText(ks) && |all| == |ks| == Used(SlotsOf(h, o))
            && (o.kind == Table ==> |all| == SizeOf(h, p, o) == ChildCount(h, p, o))
            && multiset(entries) == multiset(Entries(SlotsOf(h, o)))
            && (forall i | 0 <= i < |ks| ::
                  && entries[i].Entry? && ks[i].text == p.text(h, entries[i].key)
                  && ShowsMember(h, p, all[i], ks[i].iter, entries[i].key, entries[i].val))
            && all == Children(h, p, o, 0, |ks|)
  {
    hide Iterate, ByKeys, Keys, ListedAt, Used, Entries, EntryAt, TextsRight, Listed, ShowsMember;
    var ks := SortedKeys(h, p, o);
    SortedAreLive(h, p, o);
    PagesJoin(h, p, o, 0, n);
    assert ks[0..] == ks;
    ByKeysIsPointwise(h, p, o, ks, |ks|);
    KeysAreEntries(h, p, o);
    EntriesAreAboutContents(h, o, ks, Keys(h, p, o, 0));
    KeysHaveTexts(h, p, o, 0);
    TextsAreAboutContents(h, p, o, Keys(h, p, o, 0), ks);
    forall i | 0 <= i < |ks|
      ensures && EntryAt(h, o, ks[i]).Entry? && ks[i].text == p.text(h, EntryAt(h, o, ks[i]).key)
              && ShowsMember(h, p, ListedAt(h, p, o, ks[i].iter), ks[i].iter, EntryAt(h, o, ks[i]).key,
                             EntryAt(h, o, ks[i]).val)
    {
      ListedShowsEntry(h, p, o, ks, i);
    }
  }

  // ---------------------------------------------------------------- the two algorithms agree

  lemma {:induction false} RawIsByKeys(h: Heap, p: Platform, o: Obj, it: nat, count: nat)
    ensures Raw(h, p, o, it, count) == ByKeys(h, p, o, Keys(h, p, o, it), count)
    decreases count
  {
    if count != 0 {
      match Iterate(h, o, it)
      case None =>
      case Some(step) =>
        RawIsByKeys(h, p, o, step.next, count - 1);
        assert Keys(h, p, o, it)[1..] == Keys(h, p, o, step.next);
    }
  }

  lemma SortedHaveTexts(h: Heap, p: Platform, o: Obj)
    requires IsSorter(p.sort)
    ensures Live(h, o, SortedKeys(h, p, o)) && TextsRight(h, p, o, SortedKeys(h, p, o))
  {
    SortedAreLive(h, p, o);
    KeysHaveTexts(h, p, o, 0);
    TextsAreAboutContents(h, p, o, Keys(h, p, o, 0), SortedKeys(h, p, o));
  }

  /** A page of a smaller one: members `begin` up to `begin + count` in the order of the key texts. */
  lemma SmallPage(h: Heap, p: Platform, o: Obj, begin: nat, count: nat)
    requires IsSlotted(o) && SizeOf(h, p, o) < 1000 && IsSorter(p.sort) && begin <= |SortedKeys(h, p, o)|
    ensures var vs, ks := Children(h, p, o, begin, count), SortedKeys(h, p, o)[begin..];
            var entries := EntriesAt(h, o, ks);
            && |vs| == (if count < |ks| then count else |ks|)
            && forall i | 0 <= i < |vs| ::
                 entries[i].Entry? && ShowsMember(h, p, vs[i], ks[i].iter, entries[i].key, entries[i].val)
  {
    hide Iterate, ByKeys, Keys, ListedAt, Used, EntryAt, TextsRight, Listed, ShowsMember, SortedKeys;
    var all := SortedKeys(h, p, o);
    var vs, ks := Children(h, p, o, begin, count), all[begin..];
    SortedHaveTexts(h, p, o);
    ByKeysIsPointwise(h, p, o, ks, count);
    forall i | 0 <= i < |vs|
      ensures EntryAt(h, o, ks[i]).Entry?
              && ShowsMember(h, p, vs[i], ks[i].iter, EntryAt(h, o, ks[i]).key, EntryAt(h, o, ks[i]).val)
    {
      ListedShowsEntry(h, p, o, all, begin + i);
    }
  }

  /**
   * A page of a table or instance with 1000 members or more, from an iterator on: the next `count`
   * occupied slots from there in storage order, as far as there are any, each shown with its key.
   */
  lemma LargePage(h: Heap, p: Platform, o: Obj, begin: nat, count: nat)
    requires IsSlotted(o) && SizeOf(h, p, o) >= 1000 && begin <= |SlotsOf(h, o)|
    ensures var vs, ks := Children(h, p, o, begin, count), Keys(h, p, o, begin);
            var entries := EntriesAt(h, o, ks);
            && Entries(SlotsOf(h, o)) == Entries(SlotsOf(h, o)[..begin]) + entries
            && |vs| == (if count < |entries| then count else |entries|)
            && forall i | 0 <= i < |vs| ::
                 entries[i].Entry? && ShowsMember(h, p, vs[i], ks[i].iter, entries[i].key, entries[i].val)
  {
    hide Iterate, ByKeys, Keys, ListedAt, Used, Entries, EntryAt, TextsRight, Listed, ShowsMember, Raw;
    var vs, ks := Children(h, p, o, begin, count), Keys(h, p, o, begin);
    KeysAreLive(h, p, o, begin);
    KeysHaveTexts(h, p, o, begin);
    KeysMeetEntries(h, p, o, begin);
    RawIsByKeys(h, p, o, begin, count);
    ByKeysIsPointwise(h, p, o, ks, count);
    forall i | 0 <= i < |vs|
      ensures EntryAt(h, o, ks[i]).Entry?
              && ShowsMember(h, p, vs[i], ks[i].iter, EntryAt(h, o, ks[i]).key, EntryAt(h, o, ks[i]).val)
    {
      ListedShowsEntry(h, p, o, ks, i);
    }
  }

  lemma {:induction false} ElementsListed(h: Heap, p: Platform, o: Obj, begin: nat, count: nat, i: nat)
    requires o.kind == Array
    ensures var vs := Raw(h, p, o, begin, count);
            && (i < |vs| <==> i < count && begin + i < |ElementsOf(h, o)|)
            && (i < |vs| ==> vs[i] == Listed(h, p, o, begin + i, Int(begin + i), ElementsOf(h, o)[begin + i]))
    decreases count
  {
    hide Listed;
    if count > 0 && begin < |ElementsOf(h, o)| && i > 0 {
      ElementsListed(h, p, o, begin + 1, count - 1, i - 1);
    }
  }

  /** A page of an array: the elements from that index on, up to `count` of them. */
  lemma ArrayPage(h: Heap, p: Platform, o: Obj, begin: nat, count: nat, i: nat)
    requires o.kind == Array
    ensures var vs := Children(h, p, o, begin, count);
            && (i < |vs| <==> i < count && begin + i < |ElementsOf(h, o)|)
            && (i < |vs| ==> ShowsElement(h, p, vs[i], begin + i, ElementsOf(h, o)[begin + i]))
  {
    hide Raw, Listed, ShowsElement;
    ElementsListed(h, p, o, begin, count, i);
    if begin + i < |ElementsOf(h, o)| {
      ListedShows(h, p, o, begin + i, Int(begin + i), ElementsOf(h, o)[begin + i]);
    }
  }

  /** Nothing else has children to list. */
  lemma NothingElseIsListed(h: Heap, p: Platform, o: Obj, begin: nat, count: nat)
    requires o.kind != Table && o.kind != Instance && o.kind != Array
    ensures Children(h, p, o, begin, count) == []
  {
  }

  lemma LiveWithout(h: Heap, o: Obj, ks: seq<KeyIter>, j: nat)
    requires Live(h, o, ks) && j < |ks|
    ensures Live(h, o, Without(ks, j))
  {
    hide Iterate;
  }

  /** Leaving one key out leaves exactly its variable out. */
  lemma ByKeysDrop(h: Heap, p: Platform, o: Obj, ks: seq<KeyIter>, j: nat, count: nat)
    requires Live(h, o, ks) && j < |ks| <= count
    ensures Iterate(h, o, ks[j].iter).Some?
    ensures multiset(ByKeys(h, p, o, ks, count)) ==
            multiset(ByKeys(h, p, o, Without(ks, j), count)) + multiset{ListedAt(h, p, o, ks[j].iter)}
  {
    hide ByKeys, Iterate, ListedAt;
    var rest := Without(ks, j);
    var all, most := ByKeys(h, p, o, ks, count), ByKeys(h, p, o, rest, count);
    ByKeysIsPointwise(h, p, o, ks, count);
    ByKeysIsPointwise(h, p, o, rest, count);
    forall i | 0 <= i < |most| ensures most[i] == Without(all, j)[i] {
      assert rest[i] == ks[if i < j then i else i + 1];
    }
    assert most == Without(all, j);
    DropOne(all, j);
  }

  lemma {:induction false} ByKeysIsAboutContents(h: Heap, p: Platform, o: Obj, ks: seq<KeyIter>, ls: seq<KeyIter>, count: nat)
    requires multiset(ks) == multiset(ls) && Live(h, o, ks) && count >= |ks|
    ensures multiset(ByKeys(h, p, o, ks, count)) == multiset(ByKeys(h, p, o, ls, count))
    decreases |ks|
  {
    hide ByKeys, Iterate, ListedAt, Live, Without;
    LiveIsAboutContents(h, o, ks, ls);
    if ks != [] {
      var k := ks[0];
      assert k in multiset(ls);
      var j :| 0 <= j < |ls| && ls[j] == k;
      DropOne(ks, 0);
      DropOne(ls, j);
      LiveWithout(h, o, ks, 0);
      ByKeysIsAboutContents(h, p, o, Without(ks, 0), Without(ls, j), count);
      ByKeysDrop(h, p, o, ks, 0, count);
      ByKeysDrop(h, p, o, ls, j, count);
    }
  }

  /** From 0 with a large enough count, the sorted and the raw algorithm list the same variables. */
  lemma SortedAndRawAgree(h: Heap, p: Platform, o: Obj, count: nat)
    requires IsSmall(h, p, o) && IsSorter(p.sort) && count >= |Keys(h, p, o, 0)|
    ensures multiset(Children(h, p, o, 0, count)) == multiset(Raw(h, p, o, 0, count))
  {
    var ks := SortedKeys(h, p, o);
    KeysAreLive(h, p, o, 0);
    RawIsByKeys(h, p, o, 0, count);
    ByKeysIsAboutContents(h, p, o, Keys(h, p, o, 0), ks, count);
    assert ks[0..] == ks;
  }

  // ---------------------------------------------------------------- children resolve

  /** A path part that finds the variable's own value again. */
  predicate Resolves(h: Heap, o: Obj, c: Variable) {
    Child(h, o, c.pathIterator) == Some(c.value)
  }

  lemma StepResolves(h: Heap, p: Platform, o: Obj, it: nat)
    requires IntSized(h) && Iterate(h, o, it).Some?
    ensures Resolves(h, o, ListedAt(h, p, o, it))
  {
  }

  lemma {:induction false} RawResolves(h: Heap, p: Platform, o: Obj, it: nat, count: nat)
    requires IntSized(h)
    ensures forall c | c in Raw(h, p, o, it, count) :: Resolves(h, o, c)
    decreases count
  {
    if count != 0 && Iterate(h, o, it).Some? {
      StepResolves(h, p, o, it);
      RawResolves(h, p, o, Iterate(h, o, it).value.next, count - 1);
    }
  }

  lemma {:induction false} ByKeysResolves(h: Heap, p: Platform, o: Obj, ks: seq<KeyIter>, count: nat)
    requires IntSized(h)
    ensures forall c | c in ByKeys(h, p, o, ks, count) :: Resolves(h, o, c)
    decreases count
  {
    if count != 0 && ks != [] && Iterate(h, o, ks[0].iter).Some? {
      StepResolves(h, p, o, ks[0].iter);
      ByKeysResolves(h, p, o, ks[1..], count - 1);
    }
  }

  predicate ListsAt(h: Heap, o: Obj, k: KeyIter, it: nat, slot: Slot) {
    k.iter == it && EntryAt(h, o, k) == slot
  }

  /** One of the keys has this iterator and yields this slot. */
  ghost predicate Lists(h: Heap, o: Obj, ks: seq<KeyIter>, it: nat, slot: Slot) {
    exists i: nat :: i < |ks| && ListsAt(h, o, ks[i], it, slot)
  }

  lemma KeysCons(h: Heap, p: Platform, o: Obj, it: nat)
    requires IsSlotted(o) && NextSlot(SlotsOf(h, o), it).Some?
    ensures var q, ks := NextSlot(SlotsOf(h, o), it).value, Keys(h, p, o, it);
            ks != [] && ks[1..] == Keys(h, p, o, q + 1) && ListsAt(h, o, ks[0], it, SlotsOf(h, o)[q])
  {
  }

  lemma ListsInRest(h: Heap, o: Obj, ks: seq<KeyIter>, it: nat, slot: Slot)
    requires ks != [] && Lists(h, o, ks[1..], it, slot)
    ensures Lists(h, o, ks, it, slot)
  {
    hide ListsAt;
    var i: nat :| i < |ks[1..]| && ListsAt(h, o, ks[1..][i], it, slot);
    assert ListsAt(h, o, ks[i + 1], it, slot);
  }

  lemma {:induction false} HitIsListed(h: Heap, p: Platform, o: Obj, it: nat, raw: int)
    requires IsSlotted(o) && FindIter(SlotsOf(h, o), it, raw).Some?
    ensures var hit := FindIter(SlotsOf(h, o), it, raw).value;
            Lists(h, o, Keys(h, p, o, it), hit.iter, SlotsOf(h, o)[hit.pos])
    decreases |SlotsOf(h, o)| - it
  {
    hide Keys, ListsAt;
    var slots, ks := SlotsOf(h, o), Keys(h, p, o, it);
    var q := NextSlot(slots, it).value;
    KeysCons(h, p, o, it);
    if slots[q].key.raw != raw {
      var hit := FindIter(slots, q + 1, raw).value;
      HitIsListed(h, p, o, q + 1, raw);
      ListsInRest(h, o, ks, hit.iter, slots[hit.pos]);
    }
  }

  /** The path part that comes with a member found by its key is the iterator under which the member is listed. */
  lemma FoundIsListed(h: Heap, p: Platform, o: Obj, key: Obj)
    requires IsSlotted(o) && ResolveStep(h, p, o, key).Some?
    ensures var s := ResolveStep(h, p, o, key).value;
            s.part >= 0 && exists k :: Lists(h, o, Keys(h, p, o, 0), s.part, Entry(k, s.child))
  {
    hide Keys, Lists, FindKey;
    HitIsListed(h, p, o, 0, key.raw);
    var slots, hit := SlotsOf(h, o), FindIter(SlotsOf(h, o), 0, key.raw).value;
    assert slots[hit.pos] == Entry(slots[hit.pos].key, slots[hit.pos].val);
  }

  lemma {:induction false} NavigateAppend(h: Heap, p: Platform, o: Obj, path: seq<int>, part: int)
    ensures Navigate(h, p, o, path + [part]) ==
            match Navigate(h, p, o, path)
            case None => None
            case Some(parent) => Child(h, parent, part)
    decreases |path|
  {
    if path == [] {
      assert (path + [part])[1..] == [];
    } else {
      assert (path + [part])[1..] == path[1..] + [part];
      match Child(h, o, path[0])
      case None =>
      case Some(child) => NavigateAppend(h, p, child, path[1..], part);
    }
  }

  /** Every listed child's iterator, appended to its parent's path, leads back to that child. */
  lemma ListedChildrenResolve(h: Heap, p: Platform, start: Obj, path: seq<int>, begin: nat, count: nat, c: Variable)
    requires IntSized(h) && Navigate(h, p, start, path).Some?
    requires var o := Navigate(h, p, start, path).value;
             PageStarts(h, p, o, begin) && c in Children(h, p, o, begin, count)
    ensures Navigate(h, p, start, path + [c.pathIterator]) == Some(c.value)
  {
    var o := Navigate(h, p, start, path).value;
    if IsSmall(h, p, o) {
      ByKeysResolves(h, p, o, SortedKeys(h, p, o)[begin..], count);
    } else {
      RawResolves(h, p, o, begin, count);
    }
    NavigateAppend(h, p, start, path, c.pathIterator);
  }

  // ---------------------------------------------------------------- the methods

  /** The variable for the value on top; the caller fills in where it was found. */
  method CreateChildVariable(v: Vm) returns (variable: Variable)
    requires |v.stack| > 0
    ensures variable == Described(v.heap, v.platform, v.Peek(-1))
    ensures Describes(v.heap, v.platform, variable, v.Peek(-1)) && (variable.editable <==> IsBasic(v.Peek(-1)))
    ensures variable.pathIterator == 0 && variable.pathUiString == "" && variable.pathTableKeyType == Null
  {
    var o := v.Peek(-1);
    var valueRawAddress := 0;
    if IsCounted(v.platform, o) {
      valueRawAddress := o.raw;
    }
    var valueText := v.platform.text(v.heap, o);
    var instanceClassName, childCount := "", 0;
    match o.kind {
      case Instance =>
        instanceClassName := v.platform.className(v.heap, o);
        childCount := ToUint32(v.platform.delegateSize(o));
      case UserData => childCount := ToUint32(v.platform.delegateSize(o));
      case Array => childCount := ToUint32(SizeOf(v.heap, v.platform, o));
      case Table => childCount := ToUint32(SizeOf(v.heap, v.platform, o));
      case _ => childCount := 0;
    }
    var editable := o.kind == Bool || o.kind == Float || o.kind == Integer || o.kind == String;
    variable := Variable(0, "", Null, o, valueText, valueRawAddress, instanceClassName, childCount, editable);
  }

  /** With key and value of a step on top: makes the variable and pops both. */
  method TakeChild(v: Vm, container: Obj, it: nat) returns (variable: Variable)
    requires |v.stack| >= 2
    modifies v`stack
    ensures v.stack == old(v.stack)[..|old(v.stack)| - 2]
    ensures variable == Listed(v.heap, v.platform, container, it, old(v.Peek(-2)), old(v.Peek(-1)))
  {
    hide Described, Describes, IsBasic;
    variable := CreateChildVariable(v);
    v.Pop(1);
    variable := variable.(pathUiString := v.platform.text(v.heap, v.Peek(-1)));
    if container.kind != Array {
      variable := variable.(pathTableKeyType := v.Peek(-1).kind);
    }
    variable := variable.(pathIterator := it);
    v.Pop(1);
  }

  /**
   * With an iterator on top of the container: takes one step and makes the variable for it,
   * leaving the advanced iterator; at the end of the iteration nothing changes.
   */
  method TakeNext(v: Vm, sqIter: nat, ghost base: seq<Obj>) returns (variable: Option<Variable>, next: nat)
    requires base != [] && v.stack == base + [Int(sqIter)]
    modifies v`stack
    ensures v.stack == base + [Int(next)]
    ensures match Iterate(v.heap, base[|base| - 1], sqIter)
            case None => variable == None
            case Some(step) =>
              && next == step.next
              && variable == Some(Listed(v.heap, v.platform, base[|base| - 1], sqIter, step.key, step.val))
  {
    hide Iterate, Listed;
    var container := v.Peek(-2);
    var ok := v.SqNext(-2);
    if !ok {
      return None, sqIter;
    }
    next := v.Peek(-3).raw;
    assert v.stack[..|v.stack| - 2] == base + [Int(next)];
    var child := TakeChild(v, container, sqIter);
    variable := Some(child);
  }

  lemma RawNothing(h: Heap, p: Platform, o: Obj, it: nat)
    ensures Raw(h, p, o, it, 0) == []
  {
  }

  lemma RawStep(h: Heap, p: Platform, o: Obj, front: seq<Variable>, it: nat, count: nat)
    requires count > 0
    ensures front + Raw(h, p, o, it, count) ==
            match Iterate(h, o, it)
            case None => front
            case Some(step) => front + [Listed(h, p, o, it, step.key, step.val)] + Raw(h, p, o, step.next, count - 1)
  {
    hide Iterate, Listed;
    if Iterate(h, o, it).Some? {
      var one, rest := [ListedAt(h, p, o, it)], Raw(h, p, o, Iterate(h, o, it).value.next, count - 1);
      assert front + (one + rest) == front + one + rest;
    }
  }

  method ListFrom(v: Vm, begin: nat, count: nat) returns (variables: seq<Variable>)
    requires |v.stack| > 0
    modifies v`stack
    ensures v.stack == old(v.stack)
    ensures variables == Raw(v.heap, v.platform, old(v.Peek(-1)), begin, count)
  {
    hide Iterate, Listed, Raw;
    ghost var base := v.stack;
    var o := v.Peek(-1);
    variables := [];
    v.PushObject(Int(begin));
    var i := 0;
    var sqIter: nat := begin;
    while i < count
      invariant i <= count && v.stack == base + [Int(sqIter)]
      invariant Raw(v.heap, v.platform, o, begin, count)
             == variables + Raw(v.heap, v.platform, o, sqIter, count - i)
    {
      RawStep(v.heap, v.platform, o, variables, sqIter, count - i);
      var variable, next := TakeNext(v, sqIter, base);
      if variable.None? {
        v.Pop(1);
        assert v.stack == base;
        return;
      }
      variables := variables + [variable.value];
      sqIter := next;
      i := i + 1;
    }
    RawNothing(v.heap, v.platform, o, sqIter);
    v.Pop(1);
    assert v.stack == base;
  }

  lemma KeysNext(h: Heap, p: Platform, o: Obj, front: seq<KeyIter>, it: nat)
    ensures front + Keys(h, p, o, it) ==
            match Iterate(h, o, it)
            case None => front
            case Some(step) => front + [KeyIter(p.text(h, step.key), it)] + Keys(h, p, o, step.next)
  {
    hide Iterate, Extent;
    if Iterate(h, o, it).Some? {
      var step := Iterate(h, o, it).value;
      var one, rest := [KeyIter(p.text(h, step.key), it)], Keys(h, p, o, step.next);
      assert front + (one + rest) == front + one + rest;
    }
  }

  /** One step of the iteration for its key only: the value is dropped, the key's text taken. */
  method TakeKey(v: Vm, sqIter: nat, ghost base: seq<Obj>) returns (key: Option<KeyIter>, next: nat)
    requires base != [] && v.stack == base + [Int(sqIter)]
    modifies v`stack
    ensures v.stack == base + [Int(next)]
    ensures match Iterate(v.heap, base[|base| - 1], sqIter)
            case None => key == None && next == sqIter
            case Some(step) => next == step.next && key == Some(KeyIter(v.platform.text(v.heap, step.key), sqIter))
  {
    hide Iterate;
    var ok := v.SqNext(-2);
    if !ok {
      return None, sqIter;
    }
    next := v.Peek(-3).raw;
    v.Pop(1);
    key := Some(KeyIter(v.platform.text(v.heap, v.Peek(-1)), sqIter));
    v.Pop(1);
  }

  method CollectKeys(v: Vm) returns (keys: seq<KeyIter>)
    requires |v.stack| > 0
    modifies v`stack
    ensures v.stack == old(v.stack)
    ensures keys == Keys(v.heap, v.platform, old(v.Peek(-1)), 0)
  {
    hide Iterate, Extent, Keys;
    ghost var base := v.stack;
    var o := v.Peek(-1);
    keys := [];
    v.PushObject(Int(0));
    var sqIter: nat := 0;
    var more := true;
    while more
      invariant v.stack == base + [Int(sqIter)]
      invariant more ==> Keys(v.heap, v.platform, o, 0) == keys + Keys(v.heap, v.platform, o, sqIter)
      invariant !more ==> Keys(v.heap, v.platform, o, 0) == keys
      decreases more, Extent(v.heap, o) - sqIter
    {
      KeysNext(v.heap, v.platform, o, keys, sqIter);
      IterateStaysInside(v.heap, o, sqIter);
      var key, next := TakeKey(v, sqIter, base);
      more := key.Some?;
      if more {
        keys := keys + [key.value];
      }
      sqIter := next;
    }
    v.Pop(1);
    assert v.stack == base;
  }

  /** The child that one step from the iterator yields. */
  method ListOne(v: Vm, iter: nat) returns (variable: Option<Variable>)
    requires |v.stack| > 0
    modifies v`stack
    ensures v.stack == old(v.stack)
    ensures variable == if Iterate(v.heap, v.Peek(-1), iter).Some? then Some(ListedAt(v.heap, v.platform, v.Peek(-1), iter))
                        else None
  {
    hide Iterate, Listed;
    ghost var base := v.stack;
    var o := v.Peek(-1);
    v.PushObject(Int(iter));
    var next;
    variable, next := TakeNext(v, iter, base);
    v.Pop(1);
    assert v.stack == base;
  }

  method ListByKeys(v: Vm, keys: seq<KeyIter>, count: nat) returns (variables: seq<Variable>)
    requires |v.stack| > 0
    modifies v`stack
    ensures v.stack == old(v.stack)
    ensures variables == ByKeys(v.heap, v.platform, old(v.Peek(-1)), keys, count)
  {
    hide Iterate, ListedAt;
    variables := [];
    var i := 0;
    while i < count && i < |keys|
      invariant i <= count && i <= |keys| && v.stack == old(v.stack)
      invariant ByKeys(v.heap, v.platform, v.Peek(-1), keys, count)
             == variables + ByKeys(v.heap, v.platform, v.Peek(-1), keys[i..], count - i)
    {
      var variable := ListOne(v, keys[i].iter);
      if variable.None? {
        break;
      }
      variables := variables + [variable.value];
      assert keys[i..][1..] == keys[i + 1..];
      i := i + 1;
    }
  }

  method ListSlotted(v: Vm, begin: nat, count: nat) returns (variables: seq<Variable>)
    requires |v.stack| > 0 && IsSlotted(v.Peek(-1)) && PageStarts(v.heap, v.platform, v.Peek(-1), begin)
    modifies v`stack
    ensures v.stack == old(v.stack)
    ensures variables == Children(v.heap, v.platform, old(v.Peek(-1)), begin, count)
  {
    var keyCount := SizeOf(v.heap, v.platform, v.Peek(-1));
    if keyCount < MAX_TABLE_SIZE_TO_SORT {
      var keys := CollectKeys(v);
      keys := v.platform.sort(keys);
      variables := ListByKeys(v, keys[begin..], count);
    } else {
      variables := ListFrom(v, begin, count);
    }
  }

  method CreateChildVariables(v: Vm, begin: nat, count: nat) returns (variables: seq<Variable>)
    requires |v.stack| > 0 && PageStarts(v.heap, v.platform, v.Peek(-1), begin)
    modifies v`stack
    ensures v.stack == old(v.stack)
    ensures variables == Children(v.heap, v.platform, old(v.Peek(-1)), begin, count)
  {
    var o := v.Peek(-1);
    match o.kind
    case Array => variables := ListFrom(v, begin, count);
    case Table => variables := ListSlotted(v, begin, count);
    case Instance => variables := ListSlotted(v, begin, count);
    case _ => variables := [];
  }
}
