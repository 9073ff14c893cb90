/**
 * The hand-written lexer and parser, as methods that move a cursor over the input, each proved
 * to compute what WatchSyntax defines.
 */
module WatchReader {
  import opened Common
  import opened WatchSyntax

  /** The outcome of a reader and where it left the cursor. */
  datatype TextAt = TextAt(value: string, pos: nat) | NoText(why: ParseError)

  datatype ParseAt = ParseAt(chain: Chain, pos: nat) | NoParse(why: ParseError)

  datatype OperandAt = OperandAt(node: Node, pos: nat) | NoOperandAt(why: ParseError)

  predicate TextAgrees(input: string, r: TextAt, spec: ReadText) {
    match r
    case TextAt(value, pos) => pos <= |input| && spec == Read(value, input[pos..])
    case NoText(why) => spec == Unreadable(why)
  }

  predicate ParseAgrees(input: string, r: ParseAt, spec: Parse) {
    match r
    case ParseAt(chain, pos) => pos <= |input| && spec == Parsed(chain, input[pos..])
    case NoParse(why) => spec == Rejected(why)
  }

  method ReadNumber(input: string, start: nat) returns (text: string, pos: nat)
    requires start <= |input|
    ensures start <= pos <= |input| && text == input[start..pos]
    ensures pos - start == Span(IsDigit, input[start..])
  {
    pos := start;
    while pos < |input|
      invariant start <= pos <= |input|
      invariant forall i | start <= i < pos :: IsDigit(input[i])
    {
      if !IsDigit(input[pos]) {
        break;
      }
      pos := pos + 1;
    }
    SpanIs(IsDigit, input[start..], pos - start);
    text := input[start..pos];
  }

  method ReadIdentifier(input: string, start: nat) returns (text: string, pos: nat)
    requires start <= |input|
    ensures start <= pos <= |input| && text == input[start..pos]
    ensures pos - start == Span(IsNameChar, input[start..])
  {
    pos := start;
    while pos < |input|
      invariant start <= pos <= |input|
      invariant forall i | start <= i < pos :: IsNameChar(input[i])
    {
      var c := input[pos];
      if !(IsAlpha(c) || IsDigit(c)) && c != '_' {
        break;
      }
      pos := pos + 1;
    }
    SpanIs(IsNameChar, input[start..], pos - start);
    text := input[start..pos];
  }

  lemma PutDigit(s: string, size: nat, n: nat)
    requires n < size && n < |s|
    ensures (s[..n] + Zeros(size - n))[n := s[n]] == s[..n + 1] + Zeros(size - n - 1)
  {
  }

  lemma SpanAtLeast(s: string, n: nat)
    requires n <= |s| && forall i | 0 <= i < n :: IsHex(s[i])
    ensures n <= Span(IsHex, s)
  {
  }

  /** The escape fails after n digits: at the end of the input, on no digit at all, or on one too many. */
  lemma HexStopsEarly(s: string, size: nat, maxRead: nat, n: nat)
    requires 0 < size <= maxRead && n <= |s| && n <= size && forall i | 0 <= i < n :: IsHex(s[i])
    ensures n == |s| ==> ReadHex(s, size, maxRead) == Unreadable(EofInString)
    ensures n == 0 && n < |s| && !IsHex(s[0]) ==> ReadHex(s, size, maxRead) == Unreadable(HexExpected)
    ensures n == size < maxRead && n < |s| && IsHex(s[n]) ==> ReadHex(s, size, maxRead) == Unreadable(OverlongEscape)
  {
    SpanAtLeast(s, n);
    if n == size && n < |s| && IsHex(s[n]) {
      SpanAtLeast(s, n + 1);
    }
  }

  lemma HexEnds(s: string, size: nat, maxRead: nat, n: nat)
    requires 0 < n <= size <= maxRead && n < |s| && (forall i | 0 <= i < n :: IsHex(s[i]))
    requires n == maxRead || !IsHex(s[n])
    ensures var dest := s[..n] + Zeros(size - n);
            && (forall i | 0 <= i < |dest| :: IsHex(dest[i]))
            && ReadHex(s, size, maxRead) == Read([(HexValue(dest) % 256) as char], s[n + 1..])
  {
    hide HexValue;
    SpanAtLeast(s, n);
    if !IsHex(s[n]) {
      SpanIs(IsHex, s, n);
    }
  }

  /** The digits of a numeric escape whose letter is at `at`; on success the cursor is on the character that gets skipped. */
  method ProcessStringEscape(input: string, at: nat, size: nat, maxRead: nat) returns (r: TextAt)
    requires at < |input| && 0 < size <= maxRead
    ensures match r
            case NoText(why) => ReadHex(input[at + 1..], size, maxRead) == Unreadable(why)
            case TextAt(dest, pos) =>
              && at < pos < |input|
              && (forall i | 0 <= i < |dest| :: IsHex(dest[i]))
              && ReadHex(input[at + 1..], size, maxRead) == Read([(HexValue(dest) % 256) as char], input[pos + 1..])
  {
    hide ReadHex, HexValue;
    var pos := at + 1;
    ghost var s := input[at + 1..];
    if pos == |input| {
      HexStopsEarly(s, size, maxRead, 0);
      return NoText(EofInString);
    }
    var c := input[pos];
    if !IsHex(c) {
      HexStopsEarly(s, size, maxRead, 0);
      return NoText(HexExpected);
    }
    var n := 0;
    var dest := Zeros(size);
    while IsHex(c) && n < maxRead
      invariant n <= size && n <= maxRead && pos == at + 1 + n < |input| && c == input[pos] && s == input[at + 1..]
      invariant n == 0 ==> IsHex(c)
      invariant forall i | 0 <= i < n :: IsHex(s[i])
      invariant dest == s[..n] + Zeros(size - n)
      decreases maxRead - n
    {
      assert s[n] == c;
      if n == size {
        HexStopsEarly(s, size, maxRead, n);
        return NoText(OverlongEscape);
      }
      PutDigit(s, size, n);
      dest := dest[n := c];
      n := n + 1;
      pos := pos + 1;
      if pos == |input| {
        HexStopsEarly(s, size, maxRead, n);
        return NoText(EofInString);
      }
      c := input[pos];
    }
    HexEnds(s, size, maxRead, n);
    assert s[n + 1..] == input[pos + 1..];
    return TextAt(dest, pos);
  }

  lemma PrependTwice(a: string, b: string, r: ReadText)
    ensures Prepend(a, Prepend(b, r)) == Prepend(a + b, r)
  {
    if r.Read? {
      assert a + (b + r.value) == a + b + r.value;
    }
  }

  /** A numeric escape whose letter is at `at`, including the loop step that skips one more character. */
  method ReadNumericEscape(input: string, at: nat) returns (r: TextAt)
    requires at < |input|
    ensures TextAgrees(input, r, ReadNumeric(input[at], input[at + 1..]))
    ensures r.TextAt? ==> r.pos > at
  {
    var letter := input[at];
    if letter != 'x' && letter != 'u' && letter != 'U' {
      return NoText(UnknownEscape);
    }
    var size := if letter == 'x' then 2 else if letter == 'u' then 4 else 8;
    var temp := ProcessStringEscape(input, at, size, if letter == 'x' then 2 else 8);
    match temp
    case NoText(why) => return NoText(why);
    case TextAt(dest, pos) => return TextAt([(HexValue(dest) % 256) as char], pos + 1);
  }

  method ReadString(input: string, start: nat) returns (r: TextAt)
    requires start < |input| && IsQuote(input[start])
    ensures TextAgrees(input, r, ReadBody(input[start], input[start + 1..]))
    ensures r.TextAt? ==> r.pos > start
  {
    hide ReadNumeric, Unescape, ReadBody;
    var enclosing := input[start];
    var pos := start + 1;
    var output := "";
    while pos < |input|
      invariant start < pos <= |input|
      invariant ReadBody(enclosing, input[start + 1..]) == Prepend(output, ReadBody(enclosing, input[pos..]))
      decreases |input| - pos
    {
      ghost var s := input[pos..];
      BodyStep(enclosing, s);
      var c := input[pos];
      if c == '\\' {
        pos := pos + 1;
        if pos == |input| {
          return NoText(EofInString);
        }
        var simple := Unescape(input[pos]);
        if simple.Some? {
          assert s[2..] == input[pos + 1..];
          PrependTwice(output, [simple.value], ReadBody(enclosing, s[2..]));
          output := output + [simple.value];
          pos := pos + 1;
        } else {
          var numeric := ReadNumericEscape(input, pos);
          assert s[2..] == input[pos + 1..];
          match numeric
          case NoText(why) => return NoText(why);
          case TextAt(value, next) =>
            PrependTwice(output, value, ReadBody(enclosing, input[next..]));
            output := output + value;
            pos := next;
        }
      } else if c == enclosing {
        assert s[1..] == input[pos + 1..];
        return TextAt(output, pos + 1);
      } else if c == '\n' {
        return NoText(NewlineInString);
      } else {
        assert s[1..] == input[pos + 1..];
        PrependTwice(output, [c], ReadBody(enclosing, s[1..]));
        output := output + [c];
        pos := pos + 1;
      }
    }
    BodyStep(enclosing, input[pos..]);
    assert output + "" == output;
    return TextAt(output, pos);
  }

  /** The string, number and word cases of the parser's switch. */
  method ParseOperand(input: string, pos: nat) returns (r: OperandAt)
    requires pos < |input|
    ensures match r
            case OperandAt(node, after) =>
              pos < after <= |input| && ReadOperand(input[pos..]) == Operand(node, input[after..])
            case NoOperandAt(why) => ReadOperand(input[pos..]) == NoOperand(why)
  {
    hide ReadBody;
    var c := input[pos];
    ghost var s := input[pos..];
    if c == '"' || c == '\'' {
      assert s[1..] == input[pos + 1..];
      var text := ReadString(input, pos);
      match text
      case NoText(why) => return NoOperandAt(why);
      case TextAt(value, after) => return OperandAt(Text(value), after);
    }
    if IsDigit(c) {
      var digits, after := ReadNumber(input, pos);
      assert s[..after - pos] == digits && s[after - pos..] == input[after..];
      return OperandAt(Number(digits), after);
    } else if IsAlpha(c) || c == '_' {
      assert IsNameChar(c);
      var value, after := ReadIdentifier(input, pos);
      assert s[..after - pos] == value && s[after - pos..] == input[after..];
      return OperandAt(Name(value), after);
    } else {
      return NoOperandAt(InvalidCharacter);
    }
  }

  method ParseExpression(input: string, start: nat) returns (r: ParseAt)
    requires start <= |input|
    ensures ParseAgrees(input, r, WatchSyntax.ParseExpression(input[start..]))
    ensures r.ParseAt? ==> start <= r.pos && r.chain != []
    decreases |input| - start
  {
    hide ReadOperand, TypeOf;
    var chain := [Undefined];
    var pos := start;
    while pos < |input|
      invariant start <= pos <= |input| && chain != []
      invariant Loop([Undefined], input[start..]) == Loop(chain, input[pos..])
      decreases |input| - pos
    {
      var current := TypeOf(Last(chain));
      var c := input[pos];
      ghost var s := input[pos..];
      assert s[1..] == input[pos + 1..];
      if c == ' ' {
        pos := pos + 1;
      } else if c == '.' {
        if current != IdentifierType {
          return NoParse(FieldOfNonIdentifier);
        }
        chain := chain + [Undefined];
        pos := pos + 1;
        if pos == |input| {
          return NoParse(EofAfterDot);
        }
        if !IsAlpha(input[pos]) && input[pos] != '_' {
          return NoParse(NoIdentifierAfterDot);
        }
      } else if c == '[' {
        if current != StringType && current != IdentifierType {
          return NoParse(BracketAfterNothing);
        }
        pos := pos + 1;
        var inner := ParseExpression(input, pos);
        match inner
        case NoParse(why) => return NoParse(why);
        case ParseAt(accessor, after) =>
          if accessor[0] == Undefined {
            return NoParse(EmptyAccessor);
          }
          chain := chain + [Bracket(accessor)];
          pos := after;
      } else if c == ']' {
        if current == UndefinedType {
          return NoParse(ClosingWithoutExpression);
        }
        return ParseAt(chain, pos + 1);
      } else {
        if current != UndefinedType {
          return NoParse(if c == '"' || c == '\'' then StringAfterExpression else WordAfterExpression);
        }
        var operand := ParseOperand(input, pos);
        match operand
        case NoOperandAt(why) => return NoParse(why);
        case OperandAt(node, after) =>
          chain := SetLast(chain, node);
          pos := after;
      }
    }
    return ParseAt(chain, pos);
  }
}
