/**
 * The watch grammar, written out character by character and independently of the parser: which
 * texts the parser accepts, and what each of them means.
 */
module WatchGrammar {
  import opened Common
  import opened WatchSyntax

  // ---------------------------------------------------------------- words

  predicate IsLetter(c: char) {
    'a' <= c <= 'z' || 'A' <= c <= 'Z'
  }

  /** Letters, digits and underscores, the first no digit. */
  predicate IsWordText(s: string) {
    && s != "" && !('0' <= s[0] <= '9')
    && forall i | 0 <= i < |s| :: IsLetter(s[i]) || '0' <= s[i] <= '9' || s[i] == '_'
  }

  predicate IsNumberText(s: string) {
    s != "" && forall i | 0 <= i < |s| :: '0' <= s[i] <= '9'
  }

  lemma WordTexts(s: string)
    ensures IsWordText(s) <==> IsWord(s)
    ensures IsNumberText(s) <==> IsNumeral(s)
  {
    if IsWord(s) {
      assert IsNameStart(s[0]);
      forall i | 0 <= i < |s| ensures IsLetter(s[i]) || '0' <= s[i] <= '9' || s[i] == '_' {
        assert IsNameChar(s[i]);
      }
    }
    if IsWordText(s) {
      assert IsLetter(s[0]) || '0' <= s[0] <= '9' || s[0] == '_';
      forall i | 0 <= i < |s| ensures IsNameChar(s[i]) {
        assert IsLetter(s[i]) || '0' <= s[i] <= '9' || s[i] == '_';
      }
    }
    if IsNumeral(s) {
      forall i | 0 <= i < |s| ensures '0' <= s[i] <= '9' {
        assert IsDigit(s[i]);
      }
    }
    if IsNumberText(s) {
      forall i | 0 <= i < |s| ensures IsDigit(s[i]) {
        assert '0' <= s[i] <= '9';
      }
    }
  }

  // ---------------------------------------------------------------- the grammar

  predicate Begins(s: string, word: string) {
    |word| <= |s| && s[..|word|] == word
  }

  /** Without the leading spaces. */
  function Trim(s: string): (t: string)
    ensures |t| <= |s| && t == s[|s| - |t|..] && AllSpaces(s[..|s| - |t|])
    ensures t != "" ==> t[0] != ' '
  {
    if s != "" && s[0] == ' ' then
      var t := Trim(s[1..]);
      assert s[..|s| - |t|] == [' '] + s[1..][..|s| - 1 - |t|];
      t
    else s
  }

  /**
   * s is an expression and what follows it: a name with any fields and elements, a string with
   * nothing but elements directly behind it, or a number alone.
   */
  ghost predicate Spells(chain: Chain, s: string, rest: string)
    decreases |s|, 1
  {
    var u := Trim(s);
    && chain != [] && u != ""
    && match chain[0]
       case Name(value) => IsWordText(value) && Begins(u, value) && SpellsTail(chain[1..], u[|value|..], rest)
       case Number(digits) =>
         IsNumberText(digits) && Begins(u, digits) && |chain| == 1 && SpellsTail([], u[|digits|..], rest)
       case Text(value) =>
         var text := ReadBody(u[0], u[1..]);
         && (u[0] == '"' || u[0] == '\'') && text.Read? && text.value == value
         && (|chain| > 1 ==> chain[1].Bracket?) && SpellsTail(chain[1..], text.rest, rest)
       case _ => false
  }

  /**
   * s is the rest of an expression whose nodes so far are done, up to its closing bracket or the
   * end of the input, and `rest` is what follows: fields, then elements in brackets of their own.
   */
  ghost predicate SpellsTail(nodes: Chain, s: string, rest: string)
    decreases |s|, 0
  {
    var u := Trim(s);
    if nodes == [] then (u == "" && rest == "") || (u != "" && u[0] == ']' && rest == u[1..])
    else
      && u != ""
      && match nodes[0]
         case Name(value) =>
           && u[0] == '.' && IsWordText(value) && Begins(u[1..], value)
           && SpellsTail(nodes[1..], u[1 + |value|..], rest)
         case Bracket(inner) =>
           && u[0] == '['
           && exists mid: string :: |mid| < |s| && Spells(inner, u[1..], mid) && SpellsTail(nodes[1..], mid, rest)
         case _ => false
  }

  lemma FieldInTail(nodes: Chain, s: string, rest: string)
    requires nodes != [] && nodes[0].Name?
    ensures var u, value := Trim(s), nodes[0].value;
            SpellsTail(nodes, s, rest)
            <==> u != "" && u[0] == '.' && IsWordText(value) && Begins(u[1..], value)
                 && SpellsTail(nodes[1..], u[1 + |value|..], rest)
  {
    hide IsWordText;
  }

  lemma ElementInTail(nodes: Chain, s: string, rest: string) returns (mid: string)
    requires nodes != [] && !nodes[0].Name? && SpellsTail(nodes, s, rest)
    ensures nodes[0].Bracket? && Trim(s) != "" && Trim(s)[0] == '['
    ensures |mid| < |s| && Spells(nodes[0].inner, Trim(s)[1..], mid) && SpellsTail(nodes[1..], mid, rest)
  {
    hide Spells;
    mid :| |mid| < |s| && Spells(nodes[0].inner, Trim(s)[1..], mid) && SpellsTail(nodes[1..], mid, rest);
  }

  lemma ElementMakesTail(nodes: Chain, s: string, mid: string, rest: string)
    requires nodes != [] && nodes[0].Bracket? && Trim(s) != "" && Trim(s)[0] == '['
    requires |mid| < |s| && Spells(nodes[0].inner, Trim(s)[1..], mid) && SpellsTail(nodes[1..], mid, rest)
    ensures SpellsTail(nodes, s, rest)
  {
    hide Spells;
  }

  lemma EndOfTail(s: string, rest: string)
    ensures var u := Trim(s);
            SpellsTail([], s, rest) <==> (u == "" && rest == "") || (u != "" && u[0] == ']' && rest == u[1..])
  {
  }

  /** A head at the cursor, what it takes up, and what it allows behind it. */
  ghost predicate SpellsHead(head: Node, nodes: Chain, u: string, t: string) {
    && u != ""
    && match head
       case Name(value) => IsWordText(value) && Begins(u, value) && t == u[|value|..]
       case Number(digits) => IsNumberText(digits) && Begins(u, digits) && t == u[|digits|..] && nodes == []
       case Text(value) =>
         (u[0] == '"' || u[0] == '\'') && ReadBody(u[0], u[1..]) == Read(value, t) && (nodes != [] ==> nodes[0].Bracket?)
       case _ => false
  }

  lemma WordIsNotEmpty(word: string)
    requires IsWordText(word) || IsNumberText(word)
    ensures word != ""
  {
  }

  lemma HeadOfExpression(chain: Chain, s: string, rest: string) returns (t: string)
    requires Spells(chain, s, rest)
    ensures chain != [] && |t| < |s|
    ensures SpellsHead(chain[0], chain[1..], Trim(s), t) && SpellsTail(chain[1..], t, rest)
  {
    hide ReadBody, SpellsTail, IsWordText, IsNumberText;
    var u := Trim(s);
    match chain[0]
    case Name(value) =>
      WordIsNotEmpty(value);
      t := u[|value|..];
    case Number(digits) =>
      WordIsNotEmpty(digits);
      t := u[|digits|..];
    case Text(value) => t := ReadBody(u[0], u[1..]).rest;
  }

  lemma HeadMakesExpression(chain: Chain, s: string, t: string, rest: string)
    requires chain != [] && SpellsHead(chain[0], chain[1..], Trim(s), t) && SpellsTail(chain[1..], t, rest)
    ensures Spells(chain, s, rest)
  {
    hide ReadBody, SpellsTail, IsWordText, IsNumberText;
  }

  // ---------------------------------------------------------------- what is spelled is read

  lemma LoopTrims(chain: Chain, s: string)
    requires chain != []
    ensures Loop(chain, s) == Loop(chain, Trim(s))
  {
    var t := Trim(s);
    var pad := s[..|s| - |t|];
    assert s == pad + t;
    LoopSkipsSpaces(chain, pad, t);
  }

  /** What follows a word is no part of it. */
  lemma TailEnds(nodes: Chain, s: string, rest: string)
    requires SpellsTail(nodes, s, rest)
    ensures EndsWord(s)
  {
    hide IsWordText, Spells;
    if s != "" && s[0] == ' ' {
    } else {
      assert Trim(s) == s;
    }
  }

  lemma ExtendsOn(chain: Chain, nodes: Chain)
    requires chain != [] && nodes != [] && (nodes[0].Name? || nodes[0].Bracket?)
    ensures chain + [nodes[0]] + nodes[1..] == chain + nodes
    ensures TypeOf(Last(chain + [nodes[0]])) == IdentifierType
  {
  }

  /** The chain may be continued by these nodes. */
  predicate GoesOn(chain: Chain, nodes: Chain) {
    && chain != [] && TypeOf(Last(chain)) != UndefinedType
    && (nodes != [] ==>
          TypeOf(Last(chain)) == IdentifierType || (TypeOf(Last(chain)) == StringType && nodes[0].Bracket?))
  }

  lemma LoopTakesField(chain: Chain, u: string, value: string)
    requires chain != [] && TypeOf(Last(chain)) == IdentifierType
    requires u != "" && u[0] == '.' && IsWordText(value) && Begins(u[1..], value) && EndsWord(u[1 + |value|..])
    ensures Loop(chain, u) == Loop(chain + [Name(value)], u[1 + |value|..])
  {
    hide Loop, IsWord, IsWordText, EndsWord;
    WordTexts(value);
    var t := u[1 + |value|..];
    assert u == "." + value + t;
    LoopReadsField(chain, value, t);
  }

  lemma EndIsRead(chain: Chain, u: string, rest: string)
    requires chain != [] && TypeOf(Last(chain)) != UndefinedType
    requires (u == "" && rest == "") || (u != "" && u[0] == ']' && rest == u[1..])
    ensures Loop(chain, u) == Parsed(chain, rest)
  {
  }

  lemma LoopTakesElement(chain: Chain, u: string, inner: Chain, mid: string)
    requires chain != [] && u != "" && u[0] == '[' && inner != [] && inner[0] != Undefined
    requires TypeOf(Last(chain)) == IdentifierType || TypeOf(Last(chain)) == StringType
    requires Loop([Undefined], u[1..]) == Parsed(inner, mid)
    ensures Loop(chain, u) == Loop(chain + [Bracket(inner)], mid)
  {
  }

  /** An operand at the cursor is read, and the loop goes on behind it. */
  lemma HeadIsTaken(u: string, head: Node, t: string)
    requires u != "" && u[0] !in " .[]" && ReadOperand(u) == Operand(head, t)
    ensures Loop([Undefined], u) == Loop([head], t)
  {
    hide ReadOperand;
    assert SetLast([Undefined], head) == [head];
  }

  lemma StringIsOperand(u: string)
    requires u != "" && (u[0] == '"' || u[0] == '\'') && ReadBody(u[0], u[1..]).Read?
    ensures var text := ReadBody(u[0], u[1..]);
            ReadOperand(u) == Operand(Text(text.value), text.rest)
  {
    hide ReadBody;
  }

  lemma WordIsOperand(head: Node, word: string, u: string)
    requires (head == Name(word) && IsWordText(word)) || (head == Number(word) && IsNumberText(word))
    requires Begins(u, word) && EndsWord(u[|word|..])
    ensures u != "" && u[0] !in " .[]" && ReadOperand(u) == Operand(head, u[|word|..])
  {
    var t := u[|word|..];
    assert u == word + t;
    WordTexts(word);
    OperandIsPrinted(head, t);
  }

  lemma HeadIsRead(head: Node, nodes: Chain, u: string, t: string)
    requires SpellsHead(head, nodes, u, t) && EndsWord(t)
    ensures head != Undefined && Loop([Undefined], u) == Loop([head], t)
    ensures GoesOn([head], nodes)
  {
    hide Loop, ReadOperand, ReadBody, EndsWord, IsWordText, IsNumberText;
    match head {
      case Name(value) => WordIsOperand(head, value, u);
      case Number(digits) => WordIsOperand(head, digits, u);
      case Text(value) => StringIsOperand(u);
    }
    HeadIsTaken(u, head, t);
  }

  lemma {:induction false} ExpressionIsRead(chain: Chain, s: string, rest: string)
    requires Spells(chain, s, rest)
    ensures chain != [] && chain[0] != Undefined
    ensures Loop([Undefined], s) == Parsed(chain, rest)
    decreases |s|, 1
  {
    hide Loop, Trim, SpellsTail, Spells, SpellsHead, EndsWord;
    LoopTrims([Undefined], s);
    var t := HeadOfExpression(chain, s, rest);
    TailEnds(chain[1..], t, rest);
    HeadIsRead(chain[0], chain[1..], Trim(s), t);
    TailIsRead([chain[0]], chain[1..], t, rest);
    assert [chain[0]] + chain[1..] == chain;
  }

  lemma {:induction false} TailIsRead(chain: Chain, nodes: Chain, s: string, rest: string)
    requires GoesOn(chain, nodes) && SpellsTail(nodes, s, rest)
    ensures Loop(chain, s) == Parsed(chain + nodes, rest)
    decreases |s|, 0
  {
    hide Loop, IsWordText, IsWord, EndsWord, Trim, SpellsTail, Spells;
    LoopTrims(chain, s);
    var u := Trim(s);
    if nodes == [] {
      EndOfTail(s, rest);
      EndIsRead(chain, u, rest);
      assert chain + [] == chain;
    } else if nodes[0].Name? {
      var value := nodes[0].value;
      FieldInTail(nodes, s, rest);
      var t := u[1 + |value|..];
      TailEnds(nodes[1..], t, rest);
      LoopTakesField(chain, u, value);
      ExtendsOn(chain, nodes);
      TailIsRead(chain + [nodes[0]], nodes[1..], t, rest);
    } else {
      var mid := ElementInTail(nodes, s, rest);
      ExpressionIsRead(nodes[0].inner, u[1..], mid);
      LoopTakesElement(chain, u, nodes[0].inner, mid);
      ExtendsOn(chain, nodes);
      TailIsRead(chain + [nodes[0]], nodes[1..], mid, rest);
    }
  }

  // ---------------------------------------------------------------- what is read is spelled

  /** Behind a finished node there can be an end, a bracket or a dot, and nothing else. */
  lemma LoopEnds(chain: Chain, u: string)
    requires chain != [] && TypeOf(Last(chain)) != UndefinedType && Loop(chain, u).Parsed? && (u != "" ==> u[0] != ' ')
    ensures u == "" || u[0] == ']' || u[0] == '.' || u[0] == '['
    ensures u == "" ==> Loop(chain, u) == Parsed(chain, "")
    ensures u != "" && u[0] == ']' ==> Loop(chain, u) == Parsed(chain, u[1..])
  {
  }

  /** A dot is followed at once by a word. */
  lemma DotTakesWord(chain: Chain, u: string) returns (value: string)
    requires chain != [] && u != "" && u[0] == '.' && Loop(chain, u).Parsed?
    ensures TypeOf(Last(chain)) == IdentifierType && IsWordText(value) && Begins(u[1..], value)
    ensures Loop(chain, u) == Loop(chain + [Name(value)], u[1 + |value|..])
  {
    var n := Span(IsNameChar, u[1..]);
    value := u[1..][..n];
    var t := u[1 + n..];
    assert u == "." + value + t;
    assert IsNameChar(u[1]);
    assert IsWord(value);
    WordTexts(value);
    LoopReadsField(chain, value, t);
  }

  lemma {:induction false} FieldSpells(chain: Chain, s: string) returns (nodes: Chain)
    requires chain != [] && TypeOf(Last(chain)) != UndefinedType && Loop(chain, s).Parsed?
    requires Trim(s) != "" && Trim(s)[0] == '.'
    ensures Loop(chain, s).chain == chain + nodes && GoesOn(chain, nodes)
    ensures SpellsTail(nodes, s, Loop(chain, s).rest)
    decreases |s|, 0
  {
    hide Loop, IsWordText, SpellsTail, Spells, Trim;
    LoopTrims(chain, s);
    var u := Trim(s);
    var value := DotTakesWord(chain, u);
    var more := LoopSpellsTail(chain + [Name(value)], u[1 + |value|..]);
    nodes := [Name(value)] + more;
    assert nodes[1..] == more;
    assert chain + [Name(value)] + more == chain + nodes;
    FieldInTail(nodes, s, Loop(chain, s).rest);
  }

  lemma BracketTakesExpression(chain: Chain, u: string)
    requires chain != [] && u != "" && u[0] == '[' && Loop(chain, u).Parsed?
    ensures TypeOf(Last(chain)) == IdentifierType || TypeOf(Last(chain)) == StringType
    ensures var inner := Loop([Undefined], u[1..]);
            inner.Parsed? && inner.chain[0] != Undefined
            && Loop(chain, u) == Loop(chain + [Bracket(inner.chain)], inner.rest)
  {
  }

  /** A blank input, or a first operand that is taken. */
  lemma LoopStarts(u: string)
    requires Loop([Undefined], u).Parsed? && (u != "" ==> u[0] != ' ')
    ensures u == "" ==> Loop([Undefined], u) == Parsed([Undefined], "")
    ensures u != "" ==> u[0] !in " .[]" && ReadOperand(u).Operand?
                        && Loop([Undefined], u) == Loop([ReadOperand(u).node], ReadOperand(u).rest)
  {
    hide ReadOperand;
    if u != "" && ReadOperand(u).Operand? {
      assert SetLast([Undefined], ReadOperand(u).node) == [ReadOperand(u).node];
    }
  }

  lemma OperandType(u: string)
    requires u != "" && ReadOperand(u).Operand?
    ensures TypeOf(ReadOperand(u).node) != UndefinedType
  {
  }

  /** What an operand is, character by character. */
  lemma OperandSpells(u: string, nodes: Chain)
    requires u != "" && ReadOperand(u).Operand? && GoesOn([ReadOperand(u).node], nodes)
    ensures SpellsHead(ReadOperand(u).node, nodes, u, ReadOperand(u).rest)
  {
    hide ReadBody;
    OperandIsHead(u);
    var r := ReadOperand(u);
    if r.node.Name? {
      WordTexts(r.node.value);
    } else if r.node.Number? {
      WordTexts(r.node.digits);
    }
  }

  lemma {:induction false} LoopSpells(s: string)
    requires Loop([Undefined], s).Parsed?
    ensures var r := Loop([Undefined], s);
            if r.chain[0] == Undefined then r == Parsed([Undefined], "") && Trim(s) == "" else Spells(r.chain, s, r.rest)
    decreases |s|, 1
  {
    hide Loop, ReadOperand, ReadBody, Spells, SpellsTail, SpellsHead, IsWordText, IsNumberText, Trim;
    LoopTrims([Undefined], s);
    var u, r := Trim(s), Loop([Undefined], s);
    LoopStarts(u);
    if u != "" {
      var operand := ReadOperand(u);
      OperandType(u);
      var nodes := LoopSpellsTail([operand.node], operand.rest);
      assert ([operand.node] + nodes)[1..] == nodes;
      OperandSpells(u, nodes);
      HeadMakesExpression(r.chain, s, operand.rest, r.rest);
    }
  }

  lemma {:induction false} ElementSpells(chain: Chain, s: string) returns (nodes: Chain)
    requires chain != [] && TypeOf(Last(chain)) != UndefinedType && Loop(chain, s).Parsed?
    requires Trim(s) != "" && Trim(s)[0] == '['
    ensures Loop(chain, s).chain == chain + nodes && GoesOn(chain, nodes)
    ensures SpellsTail(nodes, s, Loop(chain, s).rest)
    decreases |s|, 0
  {
    hide Loop, Spells, SpellsTail, Trim;
    LoopTrims(chain, s);
    var u := Trim(s);
    BracketTakesExpression(chain, u);
    var inner := Loop([Undefined], u[1..]);
    LoopSpells(u[1..]);
    var more := LoopSpellsTail(chain + [Bracket(inner.chain)], inner.rest);
    nodes := [Bracket(inner.chain)] + more;
    assert nodes[1..] == more;
    assert chain + [Bracket(inner.chain)] + more == chain + nodes;
    ElementMakesTail(nodes, s, inner.rest, Loop(chain, s).rest);
  }

  /** The nodes the loop adds to a finished node, and that the text spells them. */
  lemma {:induction false} LoopSpellsTail(chain: Chain, s: string) returns (nodes: Chain)
    requires chain != [] && TypeOf(Last(chain)) != UndefinedType && Loop(chain, s).Parsed?
    ensures Loop(chain, s).chain == chain + nodes && GoesOn(chain, nodes)
    ensures SpellsTail(nodes, s, Loop(chain, s).rest)
    decreases |s|, 1
  {
    hide Loop, Spells, SpellsTail, Trim;
    LoopTrims(chain, s);
    var u, r := Trim(s), Loop(chain, s);
    LoopEnds(chain, u);
    if u == "" || u[0] == ']' {
      nodes := [];
      assert chain + [] == chain;
      EndOfTail(s, r.rest);
    } else if u[0] == '.' {
      nodes := FieldSpells(chain, s);
    } else {
      nodes := ElementSpells(chain, s);
    }
  }

  lemma BlankIsRead(s: string)
    requires AllSpaces(s)
    ensures Loop([Undefined], s) == Parsed([Undefined], "")
  {
    assert s + "" == s;
    LoopSkipsSpaces([Undefined], s, "");
  }

  /**
   * The parser accepts exactly the texts of the grammar, with exactly the tree and the rest that
   * the grammar gives them; apart from that it accepts blank input.
   */
  lemma AcceptsExactly(s: string, chain: Chain, rest: string)
    ensures ParseExpression(s) == Parsed(chain, rest)
            <==> Spells(chain, s, rest) || (chain == [Undefined] && rest == "" && AllSpaces(s))
  {
    hide Loop, Spells;
    if Spells(chain, s, rest) {
      ExpressionIsRead(chain, s, rest);
    }
    if AllSpaces(s) {
      BlankIsRead(s);
    }
    if ParseExpression(s) == Parsed(chain, rest) {
      LoopSpells(s);
      if Trim(s) == "" {
        assert s[..|s|] == s;
      }
    }
  }

  lemma TrimmedAlready(s: string)
    ensures Trim("") == ""
    ensures s != "" && s[0] != ' ' ==> Trim(s) == s
  {
  }

  lemma WordIsHead(head: Node, nodes: Chain, word: string, t: string)
    requires (head == Name(word) && IsWordText(word)) || (head == Number(word) && IsNumberText(word) && nodes == [])
    ensures word + t != "" && (word + t)[0] != ' ' && SpellsHead(head, nodes, word + t, t)
  {
    var s := word + t;
    assert s[..|word|] == word && s[|word|..] == t && s[0] == word[0];
  }

  lemma HeadAndTail(head: Node, nodes: Chain, s: string, t: string, rest: string)
    requires s != "" && s[0] != ' ' && SpellsHead(head, nodes, s, t) && SpellsTail(nodes, t, rest)
    ensures Spells([head] + nodes, s, rest)
  {
    hide SpellsHead, SpellsTail, Spells, Trim;
    TrimmedAlready(s);
    assert ([head] + nodes)[1..] == nodes;
    HeadMakesExpression([head] + nodes, s, t, rest);
  }

  lemma EndsHere(s: string, rest: string)
    requires (s == "" && rest == "") || (s != "" && s[0] == ']' && rest == s[1..])
    ensures SpellsTail([], s, rest)
  {
    hide SpellsTail, Trim;
    TrimmedAlready(s);
    EndOfTail(s, rest);
  }

  lemma WholeWord(head: Node, word: string)
    requires (head == Name(word) && IsWordText(word)) || (head == Number(word) && IsNumberText(word))
    ensures Spells([head], word, "")
  {
    hide SpellsHead, SpellsTail, Spells, Trim, IsWordText, IsNumberText;
    assert word + "" == word && [head] + [] == [head];
    WordIsHead(head, [], word, "");
    EndsHere("", "");
    HeadAndTail(head, [], word, "", "");
  }

  lemma SpelledHead(chain: Chain, s: string, rest: string)
    requires Spells(chain, s, rest)
    ensures match chain[0]
            case Name(value) => IsWordText(value)
            case Number(digits) => IsNumberText(digits)
            case _ => true
  {
    hide SpellsTail, Trim, IsWordText, IsNumberText;
  }

  /** A text is read as one name exactly when it is made of letters, digits and underscores and starts with no digit. */
  lemma NamesExactly(s: string)
    ensures ParseExpression(s) == Parsed([Name(s)], "") <==> IsWordText(s)
  {
    hide Spells, ParseExpression, IsWordText;
    AcceptsExactly(s, [Name(s)], "");
    if IsWordText(s) {
      WholeWord(Name(s), s);
    }
    if Spells([Name(s)], s, "") {
      SpelledHead([Name(s)], s, "");
    }
  }

  /** A text is read as one number exactly when it is made of digits. */
  lemma NumbersExactly(s: string)
    ensures ParseExpression(s) == Parsed([Number(s)], "") <==> IsNumberText(s)
  {
    hide Spells, ParseExpression, IsNumberText;
    AcceptsExactly(s, [Number(s)], "");
    if IsNumberText(s) {
      WholeWord(Number(s), s);
    }
    if Spells([Number(s)], s, "") {
      SpelledHead([Number(s)], s, "");
    }
  }

  lemma NumberInBrackets(digits: string)
    requires IsNumberText(digits)
    ensures Spells([Number(digits)], digits + "]", "")
  {
    hide SpellsHead, SpellsTail, Spells, Trim, IsNumberText;
    assert [Number(digits)] + [] == [Number(digits)];
    WordIsHead(Number(digits), [], digits, "]");
    EndsHere("]", "");
    HeadAndTail(Number(digits), [], digits + "]", "]", "");
  }

  lemma NumberIsElement(digits: string)
    requires IsNumberText(digits)
    ensures SpellsTail([Bracket([Number(digits)])], "[" + digits + "]", "")
  {
    hide SpellsHead, SpellsTail, Spells, Trim, IsNumberText;
    var u, nodes := "[" + digits + "]", [Bracket([Number(digits)])];
    TrimmedAlready(u);
    assert u[1..] == digits + "]" && nodes[1..] == [];
    NumberInBrackets(digits);
    EndsHere("", "");
    ElementMakesTail(nodes, u, "", "");
  }

  /** A name and a number in brackets. */
  lemma IndexIsSpelled(name: string, digits: string)
    requires IsWordText(name) && IsNumberText(digits)
    ensures Spells([Name(name), Bracket([Number(digits)])], name + "[" + digits + "]", "")
  {
    hide SpellsHead, SpellsTail, Spells, Trim, IsWordText, IsNumberText;
    var s, u := name + "[" + digits + "]", "[" + digits + "]";
    assert s == name + u;
    var nodes := [Bracket([Number(digits)])];
    assert [Name(name)] + nodes == [Name(name), Bracket([Number(digits)])];
    WordIsHead(Name(name), nodes, name, u);
    NumberIsElement(digits);
    HeadAndTail(Name(name), nodes, s, u, "");
  }

  // ---------------------------------------------------------------- strings

  /** The escapes of one letter, by the code of the character they stand for. */
  predicate EscapeStandsFor(letter: char, c: char) {
    match letter
    case 'a' => c as int == 7
    case 'b' => c as int == 8
    case 't' => c as int == 9
    case 'n' => c as int == 10
    case 'v' => c as int == 11
    case 'f' => c as int == 12
    case 'r' => c as int == 13
    case '0' => c as int == 0
    case '\\' => c == letter
    case '"' => c == letter
    case '\'' => c == letter
    case _ => false
  }

  /** A piece of a string's text that stands for c: the character itself, or a backslash and a letter. */
  predicate Stands(quote: char, piece: string, c: char) {
    || (piece == [c] && c != quote && c != '\\' && c != '\n')
    || (|piece| == 2 && piece[0] == '\\' && EscapeStandsFor(piece[1], c))
  }

  ghost predicate AllStand(quote: char, pieces: seq<string>, value: string) {
    |pieces| == |value| && forall i | 0 <= i < |pieces| :: Stands(quote, pieces[i], value[i])
  }

  function Concat(pieces: seq<string>): (s: string) {
    if pieces == [] then "" else pieces[0] + Concat(pieces[1..])
  }

  lemma UnescapeExactly(letter: char, c: char)
    ensures Unescape(letter) == Some(c) <==> EscapeStandsFor(letter, c)
  {
  }

  lemma PieceIsRead(quote: char, piece: string, c: char, t: string)
    requires (quote == '"' || quote == '\'') && Stands(quote, piece, c)
    ensures ReadBody(quote, piece + t) == Prepend([c], ReadBody(quote, t))
  {
    hide ReadBody, Unescape, EscapeStandsFor;
    var s := piece + t;
    BodyStep(quote, s);
    if |piece| == 2 {
      UnescapeExactly(piece[1], c);
      assert s[2..] == t;
    } else {
      assert s[1..] == t;
    }
  }

  /** Pieces are read as what they stand for, whatever comes behind them. */
  lemma {:induction false} PiecesAreRead(quote: char, pieces: seq<string>, value: string, t: string)
    requires (quote == '"' || quote == '\'') && AllStand(quote, pieces, value)
    ensures ReadBody(quote, Concat(pieces) + t) == Prepend(value, ReadBody(quote, t))
    decreases |pieces|
  {
    hide ReadBody, Stands;
    if pieces == [] {
      assert Concat(pieces) + t == t && value == "";
      if ReadBody(quote, t).Read? {
        assert "" + ReadBody(quote, t).value == ReadBody(quote, t).value;
      }
    } else {
      var rest := Concat(pieces[1..]) + t;
      assert Concat(pieces) + t == pieces[0] + rest;
      PieceIsRead(quote, pieces[0], value[0], rest);
      PiecesAreRead(quote, pieces[1..], value[1..], t);
      if ReadBody(quote, t).Read? {
        assert [value[0]] + (value[1..] + ReadBody(quote, t).value) == value + ReadBody(quote, t).value;
      }
    }
  }

  /**
   * What ends a string: its own quote or the end of the input. A line break, a lone backslash
   * and a backslash before a letter that is no escape make it unreadable.
   */
  lemma BodyEnds(quote: char, t: string)
    requires quote == '"' || quote == '\''
    ensures t == "" ==> ReadBody(quote, t) == Read("", "")
    ensures t != "" && t[0] == quote ==> ReadBody(quote, t) == Read("", t[1..])
    ensures t != "" && t[0] == '\n' ==> ReadBody(quote, t).Unreadable?
    ensures t == "\\" ==> ReadBody(quote, t).Unreadable?
    ensures |t| >= 2 && t[0] == '\\' && t[1] !in "abtnvfr0\\\"'xuU" ==> ReadBody(quote, t).Unreadable?
  {
    hide ReadBody;
    BodyStep(quote, t);
  }

  lemma WholeString(quote: char, body: string, value: string)
    requires (quote == '"' || quote == '\'') && ReadBody(quote, body) == Read(value, "")
    ensures ParseExpression([quote] + body) == Parsed([Text(value)], "")
  {
    hide ParseExpression, ReadBody, SpellsTail, Spells;
    var s := [quote] + body;
    assert s[1..] == body && [Text(value)] + [] == [Text(value)];
    assert SpellsHead(Text(value), [], s, "");
    EndsHere("", "");
    HeadAndTail(Text(value), [], s, "", "");
    AcceptsExactly(s, [Text(value)], "");
  }

  /**
   * A string is read as what its pieces stand for, in either kind of quotes, and with or without
   * the closing quote at the end of the input.
   */
  lemma StringIsRead(quote: char, pieces: seq<string>, value: string)
    requires (quote == '"' || quote == '\'') && AllStand(quote, pieces, value)
    ensures ParseExpression([quote] + Concat(pieces) + [quote]) == Parsed([Text(value)], "")
    ensures ParseExpression([quote] + Concat(pieces)) == Parsed([Text(value)], "")
  {
    hide ParseExpression, ReadBody, AllStand;
    PiecesAreRead(quote, pieces, value, [quote]);
    PiecesAreRead(quote, pieces, value, "");
    BodyEnds(quote, [quote]);
    BodyEnds(quote, "");
    assert value + "" == value;
    assert Concat(pieces) + "" == Concat(pieces);
    WholeString(quote, Concat(pieces) + [quote], value);
    WholeString(quote, Concat(pieces), value);
    assert [quote] + (Concat(pieces) + [quote]) == [quote] + Concat(pieces) + [quote];
  }

  /** After any readable pieces, a line break, a lone backslash or an unknown escape rejects the whole input. */
  lemma StringIsRejected(quote: char, pieces: seq<string>, value: string, t: string)
    requires (quote == '"' || quote == '\'') && AllStand(quote, pieces, value) && t != ""
    requires t[0] == '\n' || t == "\\" || (|t| >= 2 && t[0] == '\\' && t[1] !in "abtnvfr0\\\"'xuU")
    ensures ParseExpression([quote] + Concat(pieces) + t).Rejected?
  {
    hide ReadBody;
    var s := [quote] + Concat(pieces) + t;
    PiecesAreRead(quote, pieces, value, t);
    BodyEnds(quote, t);
    assert s[1..] == Concat(pieces) + t;
  }

  // ---------------------------------------------------------------- numeric escapes

  /** The digits of a numeric escape by their place in the list of sixteen. */
  predicate IsHexDigit(c: char, d: nat) {
    d < 16 && (c == "0123456789abcdef"[d] || c == "0123456789ABCDEF"[d])
  }

  predicate AllHexDigits(s: string, ds: seq<nat>) {
    |s| == |ds| && forall i | 0 <= i < |s| :: IsHexDigit(s[i], ds[i])
  }

  lemma HexDigitIs(c: char, d: nat)
    requires d < 16
    ensures IsHexDigit(c, d) <==> IsHex(c) && HexDigit(c) == d
  {
  }

  /** Digit i, where a digit that is not there counts as 0. */
  function DigitAt(ds: seq<nat>, i: int): (d: nat) {
    if 0 <= i < |ds| then ds[i] else 0
  }

  lemma LastByte(s: string)
    requires |s| >= 2 && forall i | 0 <= i < |s| :: IsHex(s[i])
    ensures HexValue(s) % 256 == 16 * HexDigit(s[|s| - 2]) + HexDigit(s[|s| - 1])
  {
    hide HexDigit;
    var front := s[..|s| - 1];
    var q := HexValue(front[..|front| - 1]);
    assert HexValue(front) == 16 * q + HexDigit(s[|s| - 2]);
    assert HexValue(s) == 256 * q + (16 * HexDigit(s[|s| - 2]) + HexDigit(s[|s| - 1]));
    Mod256(q, 16 * HexDigit(s[|s| - 2]) + HexDigit(s[|s| - 1]));
  }

  lemma DigitsAreHex(s: string, ds: seq<nat>)
    requires AllHexDigits(s, ds)
    ensures forall i | 0 <= i < |s| :: IsHex(s[i]) && HexDigit(s[i]) == ds[i]
  {
    forall i | 0 <= i < |s| ensures IsHex(s[i]) && HexDigit(s[i]) == ds[i] {
      assert IsHexDigit(s[i], ds[i]);
      HexDigitIs(s[i], ds[i]);
    }
  }

  lemma PaddedDigits(s: string, size: nat, ds: seq<nat>)
    requires AllHexDigits(s, ds) && |s| <= size && size >= 2
    ensures var padded := s + Zeros(size - |s|);
            && (forall i | 0 <= i < |padded| :: IsHex(padded[i]))
            && HexValue(padded) % 256 == 16 * DigitAt(ds, size - 2) + DigitAt(ds, size - 1)
  {
    hide HexValue;
    DigitsAreHex(s, ds);
    LastByte(s + Zeros(size - |s|));
  }

  /** A run of digits that nothing continues is the run that is read. */
  lemma RunIsTaken(s: string, ds: seq<nat>, t: string, limit: nat)
    requires AllHexDigits(s, ds) && |s| <= limit
    requires t == "" || |s| == limit || forall d | 0 <= d < 16 :: !IsHexDigit(t[0], d)
    ensures DigitsTaken(s + t, limit) == |s|
  {
    hide IsHex, HexDigit, IsHexDigit;
    DigitsAreHex(s, ds);
    if t != "" && IsHex(t[0]) {
      HexDigitIs(t[0], HexDigit(t[0]));
    } else {
      SpanIs(IsHex, s + t, |s|);
    }
  }

  /**
   * A numeric escape, whose letter promises 2 digits (x), 4 (u) or 8 (U), in full: what follows
   * the letter is read if and only if it starts with at least one digit and not more than promised
   * (for u, more than four are one too many), with something behind them. It then stands for the
   * byte of the last two promised digits, missing ones counting as 0, and the character behind the
   * digits is lost.
   */
  lemma EscapeExactly(letter: char, s: string, ds: seq<nat>, t: string)
    requires AllHexDigits(s, ds) && |s| <= if letter == 'x' then 2 else 8
    requires t == "" || |s| == (if letter == 'x' then 2 else 8) || forall d | 0 <= d < 16 :: !IsHexDigit(t[0], d)
    ensures var size := if letter == 'x' then 2 else if letter == 'u' then 4 else 8;
            if letter in "xuU" && 0 < |s| <= size && t != "" then
              ReadNumeric(letter, s + t)
              == Read([(16 * DigitAt(ds, size - 2) + DigitAt(ds, size - 1)) as char], t[1..])
            else ReadNumeric(letter, s + t).Unreadable?
  {
    hide HexValue, IsHex, HexDigit, IsHexDigit, Zeros, DigitsTaken;
    RunIsTaken(s, ds, t, if letter == 'x' then 2 else 8);
    DigitsAreHex(s, ds);
    var size := if letter == 'x' then 2 else if letter == 'u' then 4 else 8;
    NumericEscapeExactly(letter, s + t);
    if letter in "xuU" && 0 < |s| <= size && t != "" {
      PaddedDigits(s, size, ds);
      assert (s + t)[..|s|] == s && (s + t)[|s| + 1..] == t[1..];
    }
  }
}
