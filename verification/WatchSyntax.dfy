/**
 * Watch expressions: what the parser accepts and builds, and a printer that is its inverse.
 * Characters are those of the C locale; a cursor into the input is the suffix still to be read.
 */
module WatchSyntax {
  import opened Common

  /** One ExpressionNode; `next` is the following element of the chain. */
  datatype Node =
    | Undefined
    | Text(value: string)                // String
    | Number(digits: string)
    | Name(value: string)                // Identifier
    | Bracket(inner: seq<Node>)          // Identifier with an accessorExpression

  type Chain = seq<Node>

  datatype NodeType = UndefinedType | StringType | NumberType | IdentifierType

  datatype ParseError =
    | FieldOfNonIdentifier
    | EofAfterDot
    | NoIdentifierAfterDot
    | BracketAfterNothing
    | EmptyAccessor
    | ClosingWithoutExpression
    | StringAfterExpression
    | WordAfterExpression
    | InvalidCharacter
    | EofInString
    | HexExpected
    | UnknownEscape
    | NewlineInString
    | OverlongEscape        // \u with more than four digits writes past its buffer: not modelled further

  datatype Parse = Parsed(chain: Chain, rest: string) | Rejected(why: ParseError)

  datatype Operand = Operand(node: Node, rest: string) | NoOperand(why: ParseError)

  datatype ReadText = Read(value: string, rest: string) | Unreadable(why: ParseError)

  // ---------------------------------------------------------------- characters

  predicate IsAlpha(c: char) { 'a' <= c <= 'z' || 'A' <= c <= 'Z' }

  predicate IsHex(c: char) { IsDigit(c) || 'a' <= c <= 'f' || 'A' <= c <= 'F' }

  predicate IsNameStart(c: char) { IsAlpha(c) || c == '_' }

  predicate IsNameChar(c: char) { IsAlpha(c) || IsDigit(c) || c == '_' }

  predicate IsQuote(c: char) { c == '"' || c == '\'' }

  function HexDigit(c: char): (d: nat)
    requires IsHex(c)
    ensures d < 16
  {
    if IsDigit(c) then (c - '0') as nat
    else if 'a' <= c <= 'f' then (c - 'a') as nat + 10
    else (c - 'A') as nat + 10
  }

  function HexValue(s: string): (n: nat)
    requires forall i | 0 <= i < |s| :: IsHex(s[i])
  {
    if s == "" then 0 else 16 * HexValue(s[..|s| - 1]) + HexDigit(s[|s| - 1])
  }

  // ---------------------------------------------------------------- strings

  /** The simple escapes: the letter after the backslash and the character it stands for. */
  function Unescape(letter: char): (c: Option<char>) {
    match letter
    case 't' => Some('\t')
    case 'a' => Some(7 as char)
    case 'b' => Some(8 as char)
    case 'n' => Some('\n')
    case 'r' => Some('\r')
    case 'v' => Some(11 as char)
    case 'f' => Some(12 as char)
    case '0' => Some('\0')
    case '\\' => Some('\\')
    case '"' => Some('"')
    case '\'' => Some('\'')
    case _ => None
  }

  function Zeros(n: nat): (s: string)
    ensures |s| == n && forall i | 0 <= i < n :: s[i] == '0'
  {
    seq(n, _ => '0')
  }

  /** How many digits a numeric escape reads: the run of hexadecimal digits, up to a limit. */
  function DigitsTaken(s: string, maxRead: nat): (n: nat)
    ensures n <= |s| && n <= maxRead && forall i | 0 <= i < n :: IsHex(s[i])
    ensures n < maxRead && n < |s| ==> !IsHex(s[n])
  {
    var span := Span(IsHex, s);
    if span < maxRead then span else maxRead
  }

  /**
   * A numeric escape; s is what follows the letter. At most maxRead digits are read into a
   * buffer of `size` zeros, so a short run is padded on the right, and the character after the
   * run is skipped.
   */
  function ReadHex(s: string, size: nat, maxRead: nat): (r: ReadText)
    requires size <= maxRead
    ensures r.Read? ==>
              var n := DigitsTaken(s, maxRead);
              |r.value| == 1 && n <= size && n < |s| && r.rest == s[n + 1..]
  {
    if s == "" then Unreadable(EofInString)
    else if !IsHex(s[0]) then Unreadable(HexExpected)
    else
      var n := DigitsTaken(s, maxRead);
      if n > size then Unreadable(OverlongEscape)
      else if n == |s| then Unreadable(EofInString)
      else
        var digits := s[..n] + Zeros(size - n);
        Read([(HexValue(digits) % 256) as char], s[n + 1..])
  }

  /** The number of digits an escape letter promises, and how many it reads at most. */
  function EscapeSize(letter: char): (n: nat) {
    match letter
    case 'x' => 2
    case 'u' => 4
    case _ => 8
  }

  function EscapeLimit(letter: char): (n: nat)
    ensures EscapeSize(letter) <= n
  {
    if letter == 'x' then 2 else 8
  }

  predicate IsNumericLetter(letter: char) { letter == 'x' || letter == 'u' || letter == 'U' }

  function ReadNumeric(letter: char, s: string): (r: ReadText)
    ensures r.Read? ==> |r.rest| < |s|
  {
    if IsNumericLetter(letter) then ReadHex(s, EscapeSize(letter), EscapeLimit(letter)) else Unreadable(UnknownEscape)
  }

  function Prepend(front: string, r: ReadText): (q: ReadText) {
    if r.Read? then r.(value := front + r.value) else r
  }

  /** What follows the opening quote. A missing closing quote at the end of the input is accepted. */
  function ReadBody(quote: char, s: string): (r: ReadText)
    ensures r.Read? ==> |r.rest| <= |s|
    decreases |s|
  {
    if s == "" then Read("", "")
    else if s[0] == '\\' then
      if |s| == 1 then Unreadable(EofInString)
      else
        var simple := Unescape(s[1]);
        if simple.Some? then Prepend([simple.value], ReadBody(quote, s[2..]))
        else
          var numeric := ReadNumeric(s[1], s[2..]);
          if numeric.Unreadable? then numeric
          else Prepend(numeric.value, ReadBody(quote, numeric.rest))
    else if s[0] == quote then Read("", s[1..])
    else if s[0] == '\n' then Unreadable(NewlineInString)
    else Prepend([s[0]], ReadBody(quote, s[1..]))
  }

  /** What the first character of a string's body decides. */
  lemma BodyStep(quote: char, s: string)
    ensures ReadBody(quote, s) ==
            if s == "" then Read("", "")
            else if s[0] == '\\' then
              if |s| == 1 then Unreadable(EofInString)
              else if Unescape(s[1]).Some? then Prepend([Unescape(s[1]).value], ReadBody(quote, s[2..]))
              else if ReadNumeric(s[1], s[2..]).Unreadable? then ReadNumeric(s[1], s[2..])
              else Prepend(ReadNumeric(s[1], s[2..]).value, ReadBody(quote, ReadNumeric(s[1], s[2..]).rest))
            else if s[0] == quote then Read("", s[1..])
            else if s[0] == '\n' then Unreadable(NewlineInString)
            else Prepend([s[0]], ReadBody(quote, s[1..]))
  {
  }

  // ---------------------------------------------------------------- expressions

  function TypeOf(n: Node): (t: NodeType) {
    match n
    case Undefined => UndefinedType
    case Text(_) => StringType
    case Number(_) => NumberType
    case _ => IdentifierType
  }

  function Last(chain: Chain): (n: Node)
    requires chain != []
  {
    chain[|chain| - 1]
  }

  function SetLast(chain: Chain, n: Node): (r: Chain)
    requires chain != []
    ensures |r| == |chain|
  {
    chain[|chain| - 1 := n]
  }

  /** A string, a number or a name at the cursor. */
  function ReadOperand(s: string): (r: Operand)
    requires s != ""
    ensures r.Operand? ==> |r.rest| < |s|
  {
    if IsQuote(s[0]) then
      var text := ReadBody(s[0], s[1..]);
      if text.Unreadable? then NoOperand(text.why) else Operand(Text(text.value), text.rest)
    else if IsDigit(s[0]) then
      var n := Span(IsDigit, s);
      Operand(Number(s[..n]), s[n..])
    else if IsNameStart(s[0]) then
      var n := Span(IsNameChar, s);
      Operand(Name(s[..n]), s[n..])
    else NoOperand(InvalidCharacter)
  }

  /** The parser's loop: the chain built so far, whose last node is the current one, and the input left. */
  function Loop(chain: Chain, s: string): (r: Parse)
    requires chain != []
    ensures r.Parsed? ==> r.chain != [] && |r.rest| <= |s|
    decreases |s|
  {
    var current := TypeOf(Last(chain));
    if s == "" then Parsed(chain, "")
    else
      match s[0]
      case ' ' => Loop(chain, s[1..])
      case '.' =>
        if current != IdentifierType then Rejected(FieldOfNonIdentifier)
        else if |s| == 1 then Rejected(EofAfterDot)
        else if !IsNameStart(s[1]) then Rejected(NoIdentifierAfterDot)
        else Loop(chain + [Undefined], s[1..])
      case '[' =>
        if current != StringType && current != IdentifierType then Rejected(BracketAfterNothing)
        else
          var inner := Loop([Undefined], s[1..]);
          if inner.Rejected? then inner
          else if inner.chain[0] == Undefined then Rejected(EmptyAccessor)
          else Loop(chain + [Bracket(inner.chain)], inner.rest)
      case ']' =>
        if current == UndefinedType then Rejected(ClosingWithoutExpression) else Parsed(chain, s[1..])
      case _ =>
        if current != UndefinedType then Rejected(if IsQuote(s[0]) then StringAfterExpression else WordAfterExpression)
        else
          var operand := ReadOperand(s);
          if operand.NoOperand? then Rejected(operand.why)
          else Loop(SetLast(chain, operand.node), operand.rest)
  }

  /** ParseExpression. */
  function ParseExpression(s: string): (r: Parse)
    ensures r.Parsed? ==> r.chain != [] && |r.rest| <= |s|
  {
    Loop([Undefined], s)
  }

  // ---------------------------------------------------------------- well-formed trees

  predicate IsWord(s: string) {
    s != "" && IsNameStart(s[0]) && forall i | 0 <= i < |s| :: IsNameChar(s[i])
  }

  predicate IsNumeral(s: string) {
    s != "" && forall i | 0 <= i < |s| :: IsDigit(s[i])
  }

  /** A name, a dotted or bracketed chain on a name, a string with brackets first, or a lone number. */
  predicate WellFormed(chain: Chain) {
    && chain != []
    && (match chain[0]
        case Text(_) => |chain| > 1 ==> chain[1].Bracket?
        case Number(digits) => IsNumeral(digits) && |chain| == 1
        case Name(value) => IsWord(value)
        case _ => false)
    && forall i | 1 <= i < |chain| :: WellFormedTail(chain[i])
  }

  predicate WellFormedTail(n: Node) {
    match n
    case Name(value) => IsWord(value)
    case Bracket(inner) => WellFormed(inner)
    case _ => false
  }

  /** A suffix of the input: the cursor only moves forward. */
  predicate IsSuffix(rest: string, s: string) {
    |rest| <= |s| && s[|s| - |rest|..] == rest
  }

  lemma SuffixStep(rest: string, mid: string, s: string)
    requires IsSuffix(rest, mid) && IsSuffix(mid, s)
    ensures IsSuffix(rest, s)
  {
  }

  /** Dropping k characters and then reading on leaves a suffix. */
  lemma SuffixAfter(rest: string, s: string, k: nat)
    requires k <= |s| && IsSuffix(rest, s[k..])
    ensures IsSuffix(rest, s)
  {
  }

  lemma ReadNumericSuffix(letter: char, s: string)
    ensures ReadNumeric(letter, s).Read? ==> IsSuffix(ReadNumeric(letter, s).rest, s)
  {
  }

  lemma {:induction false} ReadBodySuffix(quote: char, s: string)
    ensures ReadBody(quote, s).Read? ==> IsSuffix(ReadBody(quote, s).rest, s)
    decreases |s|
  {
    hide Unescape, ReadNumeric;
    var r := ReadBody(quote, s);
    if r.Unreadable? || s == "" || (s[0] == quote && quote != '\\') {
    } else if s[0] == '\\' {
      if Unescape(s[1]).Some? {
        ReadBodySuffix(quote, s[2..]);
        SuffixAfter(r.rest, s, 2);
      } else {
        var mid := ReadNumeric(s[1], s[2..]).rest;
        ReadNumericSuffix(s[1], s[2..]);
        ReadBodySuffix(quote, mid);
        SuffixStep(r.rest, mid, s[2..]);
        SuffixAfter(r.rest, s, 2);
      }
    } else {
      ReadBodySuffix(quote, s[1..]);
      SuffixAfter(r.rest, s, 1);
    }
  }

  /** What the loop has built when it looks at s: nothing yet, a finished chain, or a chain ending in a dot. */
  predicate Building(chain: Chain, s: string) {
    || chain == [Undefined]
    || WellFormed(chain)
    || (|chain| > 1 && Last(chain) == Undefined && WellFormed(chain[..|chain| - 1])
        && TypeOf(Last(chain[..|chain| - 1])) == IdentifierType && s != "" && IsNameStart(s[0]))
  }

  lemma WellFormedLast(chain: Chain)
    requires WellFormed(chain)
    ensures TypeOf(Last(chain)) != UndefinedType
    ensures TypeOf(Last(chain)) == NumberType ==> |chain| == 1
  {
  }

  lemma WellFormedPush(chain: Chain, n: Node)
    requires WellFormed(chain) && WellFormedTail(n)
    requires TypeOf(Last(chain)) == IdentifierType || (TypeOf(Last(chain)) == StringType && n.Bracket?)
    ensures WellFormed(chain + [n])
  {
  }

  /** Blank or well formed, with the cursor further on in the same input. */
  predicate Good(r: Parse, s: string) {
    r.Parsed? ==> (r.chain == [Undefined] || WellFormed(r.chain)) && IsSuffix(r.rest, s)
  }

  lemma GoodAfter(r: Parse, s: string, k: nat)
    requires k <= |s| && Good(r, s[k..])
    ensures Good(r, s)
  {
  }

  lemma EndIsGood(chain: Chain, s: string)
    requires chain != [] && Building(chain, s) && (s == "" || s[0] == ']')
    ensures Good(Loop(chain, s), s)
  {
    hide WellFormed, ReadOperand;
  }

  lemma SpaceKeepsBuilding(chain: Chain, s: string)
    requires Building(chain, s) && s != "" && s[0] == ' '
    ensures Building(chain, s[1..])
  {
  }

  lemma {:induction false} BracketGivesWellFormed(chain: Chain, s: string)
    requires chain != [] && Building(chain, s) && s != "" && s[0] == '['
    ensures Good(Loop(chain, s), s)
    decreases |s|, 0
  {
    if TypeOf(Last(chain)) == StringType || TypeOf(Last(chain)) == IdentifierType {
      LoopGivesWellFormed([Undefined], s[1..]);
      var inner := Loop([Undefined], s[1..]);
      if inner.Parsed? && inner.chain[0] != Undefined {
        WellFormedPush(chain, Bracket(inner.chain));
        LoopGivesWellFormed(chain + [Bracket(inner.chain)], inner.rest);
        var r := Loop(chain + [Bracket(inner.chain)], inner.rest);
        if r.Parsed? {
          SuffixStep(r.rest, inner.rest, s[1..]);
          SuffixAfter(r.rest, s, 1);
        }
      }
    }
  }

  predicate WellFormedHead(n: Node) {
    match n
    case Text(_) => true
    case Number(digits) => IsNumeral(digits)
    case Name(value) => IsWord(value)
    case _ => false
  }

  lemma OperandIsHead(s: string)
    requires s != "" && ReadOperand(s).Operand?
    ensures WellFormedHead(ReadOperand(s).node) && IsSuffix(ReadOperand(s).rest, s)
    ensures IsNameStart(s[0]) ==> ReadOperand(s).node.Name?
  {
    if IsQuote(s[0]) {
      ReadBodySuffix(s[0], s[1..]);
      SuffixAfter(ReadOperand(s).rest, s, 1);
    } else if IsNameStart(s[0]) {
      assert IsNameChar(s[0]);
    }
  }

  lemma OperandCompletes(chain: Chain, s: string, n: Node)
    requires chain != [] && Building(chain, s) && Last(chain) == Undefined && s != ""
    requires WellFormedHead(n) && (IsNameStart(s[0]) ==> n.Name?)
    ensures WellFormed(SetLast(chain, n))
  {
    if WellFormed(chain) {
      WellFormedLast(chain);
    }
    if |chain| == 1 {
      assert SetLast(chain, n) == [n];
    } else {
      var front := chain[..|chain| - 1];
      WellFormedPush(front, n);
      assert SetLast(chain, n) == front + [n];
    }
  }

  lemma {:induction false} WordGivesWellFormed(chain: Chain, s: string)
    requires chain != [] && Building(chain, s) && s != "" && s[0] !in " .[]"
    ensures Good(Loop(chain, s), s)
    decreases |s|, 0
  {
    hide ReadOperand;
    if TypeOf(Last(chain)) == UndefinedType && ReadOperand(s).Operand? {
      var operand := ReadOperand(s);
      OperandIsHead(s);
      OperandCompletes(chain, s, operand.node);
      LoopGivesWellFormed(SetLast(chain, operand.node), operand.rest);
      var r := Loop(chain, s);
      if r.Parsed? {
        SuffixStep(r.rest, operand.rest, s);
      }
    }
  }

  /**
   * Every accepted input is blank or gives a well-formed tree, and the cursor moves forward
   * within the input.
   */
  lemma {:induction false} LoopGivesWellFormed(chain: Chain, s: string)
    requires chain != [] && Building(chain, s)
    ensures Good(Loop(chain, s), s)
    decreases |s|, 1
  {
    hide Good, WellFormed;
    if s == "" {
      EndIsGood(chain, s);
    } else if s[0] == ' ' {
      SpaceKeepsBuilding(chain, s);
      LoopGivesWellFormed(chain, s[1..]);
      GoodAfter(Loop(chain, s), s, 1);
    } else if s[0] == '.' {
      DotGivesWellFormed(chain, s);
    } else if s[0] == '[' {
      BracketGivesWellFormed(chain, s);
    } else if s[0] == ']' {
      EndIsGood(chain, s);
    } else {
      WordGivesWellFormed(chain, s);
    }
  }

  lemma {:induction false} DotGivesWellFormed(chain: Chain, s: string)
    requires chain != [] && Building(chain, s) && s != "" && s[0] == '.'
    ensures Good(Loop(chain, s), s)
    decreases |s|, 0
  {
    if TypeOf(Last(chain)) == IdentifierType && |s| > 1 && IsNameStart(s[1]) {
      assert (chain + [Undefined])[..|chain|] == chain;
      LoopGivesWellFormed(chain + [Undefined], s[1..]);
      GoodAfter(Loop(chain, s), s, 1);
    }
  }

  // ---------------------------------------------------------------- the printer

  /** The letter of the simple escape that stands for c, if c is printed as an escape. */
  function EscapeLetter(c: char): (letter: Option<char>)
    ensures letter.Some? ==> Unescape(letter.value) == Some(c)
    ensures letter.None? ==> c != '\\' && c != '\n' && !IsQuote(c)
  {
    if c == '\t' then Some('t')
    else if c == 7 as char then Some('a')
    else if c == 8 as char then Some('b')
    else if c == '\n' then Some('n')
    else if c == '\r' then Some('r')
    else if c == 11 as char then Some('v')
    else if c == 12 as char then Some('f')
    else if c == '\0' then Some('0')
    else if c == '\\' || IsQuote(c) then Some(c)
    else None
  }

  function Escape(value: string): (s: string) {
    if value == "" then ""
    else
      var letter := EscapeLetter(value[0]);
      (if letter.Some? then ['\\', letter.value] else [value[0]]) + Escape(value[1..])
  }

  function PrintHead(head: Node): (s: string) {
    match head
    case Text(value) => "\"" + Escape(value) + "\""
    case Number(digits) => digits
    case Name(value) => value
    case _ => ""
  }

  predicate AllSpaces(pad: string) {
    forall i | 0 <= i < |pad| :: pad[i] == ' '
  }

  /**
   * The spaces to put before a token. They may depend on all the text from that token on, which
   * is different for every token, so every way of spacing a text out is one of these.
   */
  ghost predicate Spacing(gap: string -> string) {
    forall t :: AllSpaces(gap(t))
  }

  function Spaced(gap: string -> string, t: string): (s: string) {
    gap(t) + t
  }

  function PrintTail(nodes: Chain, gap: string -> string, t: string): (s: string)
    requires forall i | 0 <= i < |nodes| :: WellFormedTail(nodes[i])
    decreases nodes
  {
    if nodes == [] then t else Spaced(gap, PrintNode(nodes[0], gap, PrintTail(nodes[1..], gap, t)))
  }

  /** The text of a chain followed by t. */
  function PrintChain(chain: Chain, gap: string -> string, t: string): (s: string)
    requires WellFormed(chain)
    decreases chain
  {
    Spaced(gap, PrintHead(chain[0]) + PrintTail(chain[1..], gap, t))
  }

  function PrintNode(n: Node, gap: string -> string, t: string): (s: string)
    requires WellFormedTail(n)
    decreases n
  {
    match n
    case Name(value) => "." + value + t
    case Bracket(inner) => "[" + PrintChain(inner, gap, Spaced(gap, "]" + t))
    case _ => t
  }

  /** The text of a chain on its own. */
  function Print(chain: Chain, gap: string -> string): (s: string)
    requires WellFormed(chain)
  {
    PrintChain(chain, gap, Spaced(gap, ""))
  }

  /** A word that ends where t begins really ends there. */
  predicate EndsWord(t: string) {
    t == "" || !IsNameChar(t[0])
  }

  // ---------------------------------------------------------------- parse after print

  lemma {:induction false} ReadBodyEscape(value: string, t: string)
    ensures ReadBody('"', Escape(value) + "\"" + t) == Read(value, t)
  {
    hide Unescape;
    if value == "" {
      assert Escape(value) + "\"" + t == "\"" + t;
    } else {
      var letter := EscapeLetter(value[0]);
      var token := if letter.Some? then ['\\', letter.value] else [value[0]];
      var after := Escape(value[1..]) + "\"" + t;
      var s := Escape(value) + "\"" + t;
      assert s == token + after;
      assert s[|token|..] == after;
      ReadBodyEscape(value[1..], t);
      assert [value[0]] + value[1..] == value;
    }
  }

  lemma {:induction false} LoopSkipsSpaces(chain: Chain, pad: string, t: string)
    requires chain != [] && AllSpaces(pad)
    ensures Loop(chain, pad + t) == Loop(chain, t)
  {
    if pad == "" {
      assert pad + t == t;
    } else {
      assert (pad + t)[1..] == pad[1..] + t;
      LoopSkipsSpaces(chain, pad[1..], t);
    }
  }

  lemma TextIsPrinted(value: string, t: string)
    ensures ReadOperand("\"" + Escape(value) + "\"" + t) == Operand(Text(value), t)
  {
    hide ReadBody;
    var s := "\"" + Escape(value) + "\"" + t;
    ReadBodyEscape(value, t);
    assert s[1..] == Escape(value) + "\"" + t;
  }

  lemma NumberIsPrinted(digits: string, t: string)
    requires IsNumeral(digits) && EndsWord(t)
    ensures ReadOperand(digits + t) == Operand(Number(digits), t)
  {
    var s := digits + t;
    SpanIs(IsDigit, s, |digits|);
    assert s[..|digits|] == digits && s[|digits|..] == t;
  }

  lemma NameIsPrinted(value: string, t: string)
    requires IsWord(value) && EndsWord(t)
    ensures ReadOperand(value + t) == Operand(Name(value), t)
  {
    var s := value + t;
    SpanIs(IsNameChar, s, |value|);
    assert s[..|value|] == value && s[|value|..] == t;
  }

  lemma OperandIsPrinted(head: Node, t: string)
    requires WellFormedHead(head) && EndsWord(t)
    ensures PrintHead(head) != "" && PrintHead(head)[0] !in " .[]"
    ensures ReadOperand(PrintHead(head) + t) == Operand(head, t)
  {
    match head
    case Text(value) => TextIsPrinted(value, t);
    case Number(digits) => NumberIsPrinted(digits, t);
    case Name(value) => NameIsPrinted(value, t);
  }

  lemma LoopReadsHead(head: Node, t: string)
    requires WellFormedHead(head) && EndsWord(t)
    ensures Loop([Undefined], PrintHead(head) + t) == Loop([head], t)
  {
    OperandIsPrinted(head, t);
    assert SetLast([Undefined], head) == [head];
  }

  lemma LoopReadsField(chain: Chain, value: string, t: string)
    requires chain != [] && TypeOf(Last(chain)) == IdentifierType && IsWord(value) && EndsWord(t)
    ensures Loop(chain, "." + value + t) == Loop(chain + [Name(value)], t)
  {
    hide ReadOperand;
    var s := "." + value + t;
    assert s[1..] == value + t && s[1] == value[0];
    var dotted := chain + [Undefined];
    OperandIsPrinted(Name(value), t);
    assert SetLast(dotted, Name(value)) == chain + [Name(value)];
    assert Loop(dotted, value + t) == Loop(chain + [Name(value)], t);
  }

  lemma SpacedEndsWord(gap: string -> string, t: string)
    requires Spacing(gap) && EndsWord(t)
    ensures EndsWord(Spaced(gap, t))
  {
    assert AllSpaces(gap(t));
    if gap(t) != "" {
      assert Spaced(gap, t)[0] == gap(t)[0];
    } else {
      assert Spaced(gap, t) == t;
    }
  }

  lemma TailEndsWord(nodes: Chain, gap: string -> string, t: string)
    requires forall i | 0 <= i < |nodes| :: WellFormedTail(nodes[i])
    requires Spacing(gap) && EndsWord(t)
    ensures EndsWord(PrintTail(nodes, gap, t))
  {
    if nodes != [] {
      SpacedEndsWord(gap, PrintNode(nodes[0], gap, PrintTail(nodes[1..], gap, t)));
    }
  }

  lemma LoopSkipsGap(chain: Chain, gap: string -> string, t: string)
    requires chain != [] && Spacing(gap)
    ensures Loop(chain, Spaced(gap, t)) == Loop(chain, t)
  {
    LoopSkipsSpaces(chain, gap(t), t);
  }

  /** The chain may go on with these nodes. */
  predicate Extends(chain: Chain, nodes: Chain) {
    && chain != []
    && (forall i | 0 <= i < |nodes| :: WellFormedTail(nodes[i]))
    && (nodes != [] ==>
          TypeOf(Last(chain)) == IdentifierType || (TypeOf(Last(chain)) == StringType && nodes[0].Bracket?))
  }

  lemma ExtendsStep(chain: Chain, nodes: Chain)
    requires Extends(chain, nodes) && nodes != []
    ensures WellFormedTail(nodes[0]) && Extends(chain, [nodes[0]]) && Extends(chain + [nodes[0]], nodes[1..])
  {
  }

  lemma {:induction false} LoopReadsTail(chain: Chain, nodes: Chain, gap: string -> string, t: string)
    requires Extends(chain, nodes) && Spacing(gap) && EndsWord(t)
    ensures Loop(chain, PrintTail(nodes, gap, t)) == Loop(chain + nodes, t)
    decreases nodes
  {
    hide Loop, PrintNode, WellFormed, WellFormedTail, EndsWord, Spacing, TypeOf, Spaced;
    if nodes == [] {
      assert chain + nodes == chain;
    } else {
      var after := PrintTail(nodes[1..], gap, t);
      ExtendsStep(chain, nodes);
      TailEndsWord(nodes[1..], gap, t);
      LoopReadsNode(chain, nodes[0], gap, after);
      LoopReadsTail(chain + [nodes[0]], nodes[1..], gap, t);
      assert chain + [nodes[0]] + nodes[1..] == chain + nodes;
    }
  }

  lemma {:induction false} LoopReadsChain(chain: Chain, gap: string -> string, t: string)
    requires WellFormed(chain) && Spacing(gap) && EndsWord(t)
    ensures Loop([Undefined], PrintChain(chain, gap, t)) == Loop(chain, t)
    decreases chain, 0
  {
    hide Loop, WellFormedTail, EndsWord, Spacing, PrintHead, PrintTail;
    var after := PrintTail(chain[1..], gap, t);
    TailEndsWord(chain[1..], gap, t);
    LoopSkipsGap([Undefined], gap, PrintHead(chain[0]) + after);
    LoopReadsHead(chain[0], after);
    LoopReadsTail([chain[0]], chain[1..], gap, t);
    assert [chain[0]] + chain[1..] == chain;
  }

  /** Inside brackets: parsing the printed text and a closing bracket stops just past the bracket. */
  lemma {:induction false} ParsePrintClosed(chain: Chain, gap: string -> string, rest: string)
    requires WellFormed(chain) && Spacing(gap)
    ensures ParseExpression(PrintChain(chain, gap, Spaced(gap, "]" + rest))) == Parsed(chain, rest)
    decreases chain, 1
  {
    hide Spacing, PrintChain;
    SpacedEndsWord(gap, "]" + rest);
    LoopReadsChain(chain, gap, Spaced(gap, "]" + rest));
    LoopSkipsGap(chain, gap, "]" + rest);
    WellFormedLast(chain);
  }

  lemma {:induction false} LoopReadsBracket(chain: Chain, inner: Chain, gap: string -> string, t: string)
    requires chain != [] && (TypeOf(Last(chain)) == IdentifierType || TypeOf(Last(chain)) == StringType)
    requires WellFormed(inner) && Spacing(gap)
    ensures Loop(chain, "[" + PrintChain(inner, gap, Spaced(gap, "]" + t))) == Loop(chain + [Bracket(inner)], t)
    decreases inner, 2
  {
    var body := "[" + PrintChain(inner, gap, Spaced(gap, "]" + t));
    ParsePrintClosed(inner, gap, t);
    assert body[1..] == PrintChain(inner, gap, Spaced(gap, "]" + t));
  }

  lemma {:induction false} LoopReadsNode(chain: Chain, n: Node, gap: string -> string, t: string)
    requires Extends(chain, [n]) && WellFormedTail(n) && Spacing(gap) && EndsWord(t)
    ensures Loop(chain, Spaced(gap, PrintNode(n, gap, t))) == Loop(chain + [n], t)
    decreases n
  {
    hide Loop, Spacing;
    LoopSkipsGap(chain, gap, PrintNode(n, gap, t));
    match n
    case Name(value) => LoopReadsField(chain, value, t);
    case Bracket(inner) => LoopReadsBracket(chain, inner, gap, t);
  }

  /** Parsing the printed text of a well-formed tree, however it is spaced, gives the tree back, with nothing left over. */
  lemma ParsePrint(chain: Chain, gap: string -> string)
    requires WellFormed(chain) && Spacing(gap)
    ensures ParseExpression(Print(chain, gap)) == Parsed(chain, "")
  {
    SpacedEndsWord(gap, "");
    LoopReadsChain(chain, gap, Spaced(gap, ""));
    LoopSkipsGap(chain, gap, "");
  }

  /** Whatever an accepted, non-blank input was, printing what was parsed and parsing again gives the same tree. */
  lemma ParsePrintParse(s: string, gap: string -> string)
    requires Spacing(gap) && ParseExpression(s).Parsed? && ParseExpression(s).chain != [Undefined]
    ensures WellFormed(ParseExpression(s).chain) && IsSuffix(ParseExpression(s).rest, s)
    ensures ParseExpression(Print(ParseExpression(s).chain, gap)) == Parsed(ParseExpression(s).chain, "")
  {
    LoopGivesWellFormed([Undefined], s);
    ParsePrint(ParseExpression(s).chain, gap);
  }

  /** Different trees never print alike, however they are spaced. */
  lemma PrintIsInjective(a: Chain, b: Chain, gap: string -> string, other: string -> string)
    requires WellFormed(a) && WellFormed(b) && Spacing(gap) && Spacing(other) && Print(a, gap) == Print(b, other)
    ensures a == b
  {
    ParsePrint(a, gap);
    ParsePrint(b, other);
  }

  // ---------------------------------------------------------------- numeric escapes

  lemma {:induction false} PaddedValue(s: string, k: nat)
    requires forall i | 0 <= i < |s| :: IsHex(s[i])
    ensures HexValue(s + Zeros(k)) == if k == 0 then HexValue(s) else 16 * HexValue(s + Zeros(k - 1))
  {
    if k == 0 {
      assert s + Zeros(0) == s;
    } else {
      assert (s + Zeros(k))[..|s| + k - 1] == s + Zeros(k - 1);
    }
  }

  lemma Mod256(q: int, r: nat)
    requires r < 256
    ensures (256 * q + r) % 256 == r
  {
  }

  lemma Mod16(q: int, r: nat)
    requires r < 16
    ensures (16 * q + r) % 16 == r
  {
  }

  /** One more zero digit changes the last byte unless that byte is zero. */
  lemma ShiftedByte(v: nat)
    ensures (16 * v) % 256 == 16 * (v % 16)
    ensures (16 * v) % 256 == v % 256 <==> v % 256 == 0
  {
    var b, c := v / 16, v % 16;
    Mod256(b, 16 * c);
    assert 16 * v == 256 * b + 16 * c;
    var q, r := v / 256, v % 256;
    Mod16(16 * q + r / 16, r % 16);
    assert v == 16 * (16 * q + r / 16) + r % 16;
  }

  lemma {:induction false} PaddedByte(s: string, k: nat)
    requires forall i | 0 <= i < |s| :: IsHex(s[i])
    ensures HexValue(s + Zeros(k)) % 256 == HexValue(s) % 256 <==> k == 0 || HexValue(s) % 256 == 0
  {
    hide HexValue;
    PaddedValue(s, k);
    if k == 1 {
      PaddedValue(s, 0);
      ShiftedByte(HexValue(s));
    } else if k > 1 {
      PaddedValue(s, k - 1);
      var v := HexValue(s + Zeros(k - 2));
      ShiftedByte(16 * v);
      Mod16(v, 0);
    }
  }

  /**
   * A numeric escape is read exactly when it has at least one digit, not more than its letter
   * promises, and something after them. It then always skips the character after the digits,
   * and it stands for the byte its digits spell exactly when all promised digits are there or
   * that byte is zero; otherwise the missing digits are added on the right.
   */
  lemma NumericEscapeExactly(letter: char, s: string)
    ensures var r, size := ReadNumeric(letter, s), if letter == 'x' then 2 else if letter == 'u' then 4 else 8;
            var n := DigitsTaken(s, if letter == 'x' then 2 else 8);
            && (r.Read? <==> letter in "xuU" && 0 < n <= size && n < |s|)
            && (r.Read? ==>
                  && r.rest == s[n + 1..] && r.rest != s[n..]
                  && (r.value == [(HexValue(s[..n]) % 256) as char] <==> n == size || HexValue(s[..n]) % 256 == 0))
  {
    hide HexValue, DigitsTaken;
    var r, size, n := ReadNumeric(letter, s), EscapeSize(letter), DigitsTaken(s, EscapeLimit(letter));
    if r.Read? {
      PaddedByte(s[..n], size - n);
    }
  }

  lemma NumericIsNotSimple(letter: char)
    ensures IsNumericLetter(letter) ==> Unescape(letter).None?
  {
  }

  /** Inside a string, reading goes on after the skipped character, even if that was the closing quote. */
  lemma StringGoesOnAfterSkipped(quote: char, letter: char, s: string)
    requires quote != '\\' && ReadNumeric(letter, s).Read?
    ensures var n := DigitsTaken(s, EscapeLimit(letter));
            n < |s| && ReadBody(quote, ['\\', letter] + s)
                    == Prepend(ReadNumeric(letter, s).value, ReadBody(quote, s[n + 1..]))
  {
    hide DigitsTaken, ReadNumeric, ReadBody, Unescape, HexValue;
    var text := ['\\', letter] + s;
    assert text[2..] == s;
    NumericEscapeExactly(letter, s);
    NumericIsNotSimple(letter);
    BodyStep(quote, text);
  }

  lemma TwoDigits(a: char, b: char)
    requires IsHex(a) && IsHex(b)
    ensures HexValue([a, b]) == 16 * HexDigit(a) + HexDigit(b)
  {
    assert [a, b][..1] == [a] && [a][..0] == "";
    assert HexValue([a]) == HexDigit(a);
  }

  /** With one digit the byte is wrong. */
  lemma ShortEscapeIsPadded()
    ensures ReadNumeric('x', "1z") == Read([16 as char], "")
  {
    hide HexValue, Span;
    var s := "1z";
    SpanIs(IsHex, s, 1);
    assert s[..1] + Zeros(1) == ['1', '0'] && s[2..] == "";
    TwoDigits('1', '0');
  }

  /** With both digits the closing quote is lost. */
  lemma FullEscapeTakesQuote()
    ensures ReadNumeric('x', "41\"") == Read(['A'], "")
  {
    hide HexValue, Span;
    var s := "41\"";
    SpanIs(IsHex, s, 2);
    assert s[..2] + Zeros(0) == ['4', '1'] && s[3..] == "";
    TwoDigits('4', '1');
  }
}
