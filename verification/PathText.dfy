/**
 * Paths as text: the comma-separated form a client sends, and the numbers in it as std::stoi
 * reads them.
 */
module PathText {
  import opened Common

  // ---------------------------------------------------------------- numbers

  predicate IsSpace(c: char) {
    c == ' ' || c == '\t' || c == '\n' || c == '\r' || c == 11 as char || c == 12 as char
  }

  /** The value of a digit string. */
  function Decimal(s: string): (n: nat)
    requires forall i | 0 <= i < |s| :: IsDigit(s[i])
  {
    if s == "" then 0
    else
      assert IsDigit(s[|s| - 1]);
      10 * Decimal(s[..|s| - 1]) + (s[|s| - 1] - '0') as nat
  }

  /** Digits; what follows is ignored. None when there is no digit. */
  function Unsigned(u: string): (r: Option<int>) {
    var digits := u[..Span(IsDigit, u)];
    if digits == "" then None else Some(Decimal(digits))
  }

  function Negated(r: Option<int>): (q: Option<int>) {
    match r
    case None => None
    case Some(n) => Some(-n)
  }

  /** A sign, or none, and digits. */
  function Signed(t: string): (r: Option<int>) {
    if t != "" && t[0] == '-' then Negated(Unsigned(t[1..]))
    else if t != "" && t[0] == '+' then Unsigned(t[1..])
    else Unsigned(t)
  }

  /** strtol in base 10: white space first. */
  function Strtol(s: string): (r: Option<int>) {
    Signed(s[Span(IsSpace, s)..])
  }

  /** std::stoi; None stands for the exception, whether invalid_argument or out_of_range. */
  function Stoi(s: string): (r: Option<int>)
    ensures r.Some? ==> INT32_MIN <= r.value <= INT32_MAX
  {
    match Strtol(s)
    case None => None
    case Some(n) => if INT32_MIN <= n <= INT32_MAX then Some(n) else None
  }

  function ToDecimal(n: nat): (s: string)
    ensures s != "" && forall i | 0 <= i < |s| :: IsDigit(s[i])
  {
    if n < 10 then ['0' + n as char] else ToDecimal(n / 10) + ['0' + (n % 10) as char]
  }

  lemma {:induction false} DecimalOfToDecimal(n: nat)
    ensures Decimal(ToDecimal(n)) == n
  {
    var s := ToDecimal(n);
    if n < 10 {
      assert s[..0] == "";
      assert Decimal(s) == 10 * Decimal("") + n;
    } else {
      DecimalOfToDecimal(n / 10);
      assert s[..|s| - 1] == ToDecimal(n / 10);
    }
  }

  /** A printed number is read back exactly when it is an int. */
  lemma StoiOfToDecimal(n: nat)
    ensures Stoi(ToDecimal(n)) == if n <= INT32_MAX then Some(n) else None
  {
    var s := ToDecimal(n);
    DecimalOfToDecimal(n);
    SpanIs(IsSpace, s, 0);
    assert s[0..] == s;
    SpanIs(IsDigit, s, |s|);
    assert s[..|s|] == s;
  }

  // ---------------------------------------------------------------- numbers, written out

  function PowerOfTen(n: nat): (p: nat) {
    if n == 0 then 1 else 10 * PowerOfTen(n - 1)
  }

  predicate AllDigits(s: string) {
    forall i | 0 <= i < |s| :: '0' <= s[i] <= '9'
  }

  /** What digits spell: each counts by its place. */
  function Spelled(digits: string): (n: nat)
    requires AllDigits(digits)
  {
    if digits == "" then 0
    else
      assert '0' <= digits[0] <= '9';
      (digits[0] as int - 48) * PowerOfTen(|digits| - 1) + Spelled(digits[1..])
  }

  lemma TenTimes(d: nat, p: nat, n: nat)
    ensures 10 * (d * p + n) == d * (10 * p) + 10 * n
  {
  }

  lemma {:induction false} SpelledLast(digits: string, c: char)
    requires AllDigits(digits) && '0' <= c <= '9'
    ensures Spelled(digits + [c]) == 10 * Spelled(digits) + (c as int - 48)
  {
    var longer := digits + [c];
    if digits == "" {
      assert longer[1..] == "";
      assert Spelled(longer) == (c as int - 48) * PowerOfTen(0) + Spelled("");
    } else {
      assert longer[1..] == digits[1..] + [c];
      assert '0' <= digits[0] <= '9';
      SpelledLast(digits[1..], c);
      TenTimes(digits[0] as int - 48, PowerOfTen(|digits| - 1), Spelled(digits[1..]));
    }
  }

  lemma {:induction false} DecimalIsSpelled(s: string)
    requires AllDigits(s) && forall i | 0 <= i < |s| :: IsDigit(s[i])
    ensures Decimal(s) == Spelled(s)
  {
    if s != "" {
      var front := s[..|s| - 1];
      DecimalIsSpelled(front);
      SpelledLast(front, s[|s| - 1]);
      assert front + [s[|s| - 1]] == s;
    }
  }

  /** Blank, tab, line feed, vertical tab, form feed or carriage return. */
  predicate AllWhite(s: string) {
    forall i | 0 <= i < |s| :: s[i] == ' ' || 9 <= s[i] as int <= 13
  }

  /** The tail of a number's text does not go on with a digit, nor, where no digit came, with white space or a sign. */
  predicate TailStops(sign: string, digits: string, tail: string) {
    tail != "" ==>
      && !('0' <= tail[0] <= '9')
      && (digits == "" && sign == "" ==> tail[0] != ' ' && !(9 <= tail[0] as int <= 13) && tail[0] !in "+-")
  }

  lemma DigitsAreDigits(s: string)
    requires AllDigits(s)
    ensures forall i | 0 <= i < |s| :: IsDigit(s[i])
  {
    forall i | 0 <= i < |s| ensures IsDigit(s[i]) {
      assert '0' <= s[i] <= '9';
    }
  }

  lemma WhiteIsSkipped(white: string, rest: string)
    requires AllWhite(white) && (rest != "" ==> !IsSpace(rest[0]))
    ensures Span(IsSpace, white + rest) == |white| && (white + rest)[|white|..] == rest
  {
    forall i | 0 <= i < |white| ensures IsSpace(white[i]) {
      assert white[i] == ' ' || 9 <= white[i] as int <= 13;
    }
    SpanIs(IsSpace, white + rest, |white|);
  }

  lemma UnsignedReads(digits: string, tail: string)
    requires AllDigits(digits) && (tail != "" ==> !('0' <= tail[0] <= '9'))
    requires forall i | 0 <= i < |digits| :: IsDigit(digits[i])
    ensures Unsigned(digits + tail) == if digits == "" then None else Some(Decimal(digits))
  {
    hide Decimal;
    SpanIs(IsDigit, digits + tail, |digits|);
    assert (digits + tail)[..|digits|] == digits;
  }

  /** Without a sign, what is left after the white space starts with neither a sign nor white space. */
  lemma NoSignTaken(digits: string, tail: string)
    requires AllDigits(digits) && TailStops("", digits, tail)
    ensures var t := digits + tail;
            t != "" ==> !IsSpace(t[0]) && t[0] != '-' && t[0] != '+'
  {
    if digits != "" {
      assert '0' <= digits[0] <= '9' && (digits + tail)[0] == digits[0];
    }
  }

  /** The sign and the digits behind it. */
  lemma SignedReads(sign: string, digits: string, tail: string)
    requires (sign == "" || sign == "+" || sign == "-") && AllDigits(digits) && TailStops(sign, digits, tail)
    requires forall i | 0 <= i < |digits| :: IsDigit(digits[i])
    ensures var t, n: int := sign + (digits + tail), Decimal(digits);
            && (t != "" ==> !IsSpace(t[0]))
            && Signed(t) == if digits == "" then None else Some(if sign == "-" then -n else n)
  {
    hide Decimal, Span, Unsigned, AllDigits;
    var t, body := sign + (digits + tail), digits + tail;
    UnsignedReads(digits, tail);
    if sign == "" {
      NoSignTaken(digits, tail);
      assert t == body;
    } else {
      assert t[0] == sign[0] && t[1..] == body;
    }
  }

  lemma StrtolSkips(white: string, rest: string)
    requires AllWhite(white) && (rest != "" ==> !IsSpace(rest[0]))
    ensures Strtol(white + rest) == Signed(rest)
  {
    hide Signed, Span, AllWhite;
    WhiteIsSkipped(white, rest);
  }

  lemma FourJoined(a: string, b: string, c: string, d: string)
    ensures a + b + c + d == a + (b + (c + d))
  {
  }

  lemma StrtolReads(white: string, sign: string, digits: string, tail: string)
    requires AllWhite(white) && (sign == "" || sign == "+" || sign == "-") && AllDigits(digits)
    requires TailStops(sign, digits, tail) && forall i | 0 <= i < |digits| :: IsDigit(digits[i])
    ensures var n: int := Decimal(digits);
            Strtol(white + sign + digits + tail) ==
            if digits == "" then None else Some(if sign == "-" then -n else n)
  {
    hide Strtol, Signed, Decimal, AllWhite, AllDigits, TailStops, IsSpace, IsDigit;
    SignedReads(sign, digits, tail);
    StrtolSkips(white, sign + (digits + tail));
    FourJoined(white, sign, digits, tail);
  }

  /**
   * std::stoi, on every text: white space, at most one sign, digits, and a tail that is ignored.
   * The number the digits spell, with its sign, if there are digits and it is an int; otherwise an
   * exception.
   */
  lemma StoiExactly(white: string, sign: string, digits: string, tail: string)
    requires AllWhite(white) && (sign == "" || sign == "+" || sign == "-") && AllDigits(digits)
    requires TailStops(sign, digits, tail)
    ensures var k: int := Spelled(digits);
            var n := if sign == "-" then -k else k;
            Stoi(white + sign + digits + tail) ==
            if digits != "" && -0x8000_0000 <= n <= 0x7FFF_FFFF then Some(n) else None
  {
    hide Spelled, Decimal, Strtol;
    DigitsAreDigits(digits);
    StrtolReads(white, sign, digits, tail);
    DecimalIsSpelled(digits);
  }

  // ---------------------------------------------------------------- paths

  predicate NotComma(c: char) { c != ',' }

  /** The pieces between commas, as repeated getline yields them. */
  function Split(s: string): (pieces: seq<string>)
    ensures pieces != []
    decreases |s|
  {
    var n := Span(NotComma, s);
    if n == |s| then [s] else [s[..n]] + Split(s[n + 1..])
  }

  /** The pieces with commas between them. */
  function WithCommas(pieces: seq<string>): (s: string) {
    if pieces == [] then ""
    else if |pieces| == 1 then pieces[0]
    else pieces[0] + "," + WithCommas(pieces[1..])
  }

  predicate NoCommas(pieces: seq<string>) {
    forall i | 0 <= i < |pieces| :: ',' !in pieces[i]
  }

  lemma JoinOne(piece: string)
    ensures WithCommas([piece]) == piece
  {
  }

  lemma JoinCons(piece: string, rest: seq<string>)
    requires rest != []
    ensures WithCommas([piece] + rest) == piece + "," + WithCommas(rest)
  {
    assert ([piece] + rest)[1..] == rest;
  }

  lemma SplitStep(s: string, n: nat)
    requires n <= |s| && (forall i | 0 <= i < n :: s[i] != ',') && (n < |s| ==> s[n] == ',')
    ensures Split(s) == if n == |s| then [s[..n]] else [s[..n]] + Split(s[n + 1..])
  {
    assert forall i | 0 <= i < n :: NotComma(s[i]);
    SpanIs(NotComma, s, n);
    assert s[..|s|] == s;
  }

  lemma {:induction false} SplitJoins(s: string)
    ensures NoCommas(Split(s)) && WithCommas(Split(s)) == s
    decreases |s|
  {
    hide Split, WithCommas;
    var n := Span(NotComma, s);
    SplitStep(s, n);
    if n < |s| {
      var rest := Split(s[n + 1..]);
      SplitJoins(s[n + 1..]);
      JoinCons(s[..n], rest);
      assert s == s[..n] + "," + s[n + 1..];
    } else {
      JoinOne(s[..n]);
    }
  }

  lemma {:induction false} JoinSplits(pieces: seq<string>)
    requires pieces != [] && NoCommas(pieces)
    ensures Split(WithCommas(pieces)) == pieces
    decreases |pieces|
  {
    var first, s := pieces[0], WithCommas(pieces);
    SpanIs(NotComma, s, |first|);
    if |pieces| > 1 {
      assert s[..|first|] == first && s[|first| + 1..] == WithCommas(pieces[1..]);
      JoinSplits(pieces[1..]);
    }
  }

  /** Splitting is the one way to write a text as comma-separated pieces without commas in them. */
  lemma SplitExactly(s: string, pieces: seq<string>)
    ensures pieces == Split(s) <==> pieces != [] && NoCommas(pieces) && WithCommas(pieces) == s
  {
    hide Split, WithCommas;
    SplitJoins(s);
    if pieces != [] && NoCommas(pieces) {
      JoinSplits(pieces);
    }
  }

  /** Every piece read as a number; None when one of them throws. */
  function Numbers(pieces: seq<string>): (r: Option<seq<int>>)
    ensures r.Some? ==> |r.value| == |pieces|
  {
    if pieces == [] then Some([])
    else
      match (Stoi(pieces[0]), Numbers(pieces[1..]))
      case (Some(n), Some(rest)) => Some([n] + rest)
      case _ => None
  }

  lemma {:induction false} NumbersAreStois(pieces: seq<string>, parts: seq<int>)
    ensures Numbers(pieces) == Some(parts)
            <==> |parts| == |pieces| && forall i | 0 <= i < |pieces| :: Stoi(pieces[i]) == Some(parts[i])
    decreases |pieces|
  {
    hide Stoi;
    if pieces != [] {
      if parts != [] {
        NumbersAreStois(pieces[1..], parts[1..]);
        assert parts == [parts[0]] + parts[1..];
        if Numbers(pieces) == Some(parts) {
          assert ([Stoi(pieces[0]).value] + Numbers(pieces[1..]).value)[1..] == Numbers(pieces[1..]).value;
        }
      }
    }
  }

  function ParsePath(s: string): (r: Option<seq<int>>) {
    Numbers(Split(s))
  }

  /** How a client writes a path. */
  function JoinPath(parts: seq<nat>): (s: string) {
    if parts == [] then ""
    else if |parts| == 1 then ToDecimal(parts[0])
    else ToDecimal(parts[0]) + "," + JoinPath(parts[1..])
  }

  /**
   * A path read from any text: the text is cut at its commas, and std::stoi reads every piece; it
   * throws on the whole exactly when it throws on one of them.
   */
  lemma ParsePathExactly(s: string, pieces: seq<string>, parts: seq<int>)
    requires pieces != [] && NoCommas(pieces) && WithCommas(pieces) == s
    ensures ParsePath(s) == Some(parts)
            <==> |parts| == |pieces| && forall i | 0 <= i < |pieces| :: Stoi(pieces[i]) == Some(parts[i])
  {
    SplitExactly(s, pieces);
    NumbersAreStois(pieces, parts);
  }

  lemma JoinPathNotEmpty(parts: seq<nat>)
    ensures parts != [] ==> JoinPath(parts) != ""
  {
  }

  lemma {:induction false} SplitOfJoin(parts: seq<nat>)
    requires parts != []
    ensures |Split(JoinPath(parts))| == |parts|
    ensures forall i | 0 <= i < |parts| :: Split(JoinPath(parts))[i] == ToDecimal(parts[i])
  {
    hide Split, ToDecimal;
    var first := ToDecimal(parts[0]);
    var s := JoinPath(parts);
    assert forall i | 0 <= i < |first| :: s[i] == first[i] && IsDigit(first[i]);
    SplitStep(s, |first|);
    assert s[..|first|] == first;
    if |parts| > 1 {
      assert s[|first| + 1..] == JoinPath(parts[1..]);
      SplitOfJoin(parts[1..]);
    }
  }

  predicate AllInts(parts: seq<nat>) {
    forall i | 0 <= i < |parts| :: parts[i] <= INT32_MAX
  }

  lemma {:induction false} NumbersOfDecimals(pieces: seq<string>, parts: seq<nat>)
    requires |pieces| == |parts| && forall i | 0 <= i < |parts| :: pieces[i] == ToDecimal(parts[i])
    ensures Numbers(pieces) == if AllInts(parts) then Some(parts) else None
  {
    hide Stoi, ToDecimal;
    if parts != [] {
      StoiOfToDecimal(parts[0]);
      NumbersOfDecimals(pieces[1..], parts[1..]);
      assert parts == [parts[0]] + parts[1..];
      assert AllInts(parts) <==> parts[0] <= INT32_MAX && AllInts(parts[1..]);
    }
  }

  /** A path a client prints is read back part for part exactly when every part is an int. */
  lemma PathRoundTrip(parts: seq<nat>)
    requires parts != []
    ensures ParsePath(JoinPath(parts)) == if AllInts(parts) then Some(parts) else None
  {
    SplitOfJoin(parts);
    NumbersOfDecimals(Split(JoinPath(parts)), parts);
  }

  /** getline up to the next comma or the end. */
  method GetLine(path: string, pos: nat) returns (piece: string, end: nat)
    requires pos <= |path|
    ensures pos <= end <= |path| && piece == path[pos..end]
    ensures Split(path[pos..]) == if end == |path| then [piece] else [piece] + Split(path[end + 1..])
    ensures end < |path| ==> path[end] == ','
  {
    hide Split;
    ghost var rest := path[pos..];
    end := pos;
    while end < |path| && path[end] != ','
      invariant pos <= end <= |path| && forall i | pos <= i < end :: path[i] != ','
    {
      end := end + 1;
    }
    SplitStep(rest, end - pos);
    piece := path[pos..end];
    assert rest[..end - pos] == piece;
    if end < |path| {
      assert rest[end - pos + 1..] == path[end + 1..];
    }
  }

  lemma NumbersStep(piece: string, pieces: seq<string>)
    ensures Numbers([piece] + pieces) == match Stoi(piece)
                                         case None => None
                                         case Some(n) => Joined([n], Numbers(pieces))
  {
  }

  lemma NumbersOfNothing()
    ensures Numbers([]) == Some([])
  {
  }

  /** The loop of WithStackVariables and PopulateGlobalVariables that turns the text into numbers. */
  method ReadPath(path: string) returns (r: Option<seq<int>>)
    ensures r == ParsePath(path)
  {
    hide Split, Numbers, Stoi;
    var parts: seq<int> := [];
    var pos := 0;
    var good := true;
    assert path[0..] == path;
    JoinNothing(ParsePath(path));
    while good
      invariant pos <= |path|
      invariant good ==> ParsePath(path) == Joined(parts, Numbers(Split(path[pos..])))
      invariant !good ==> ParsePath(path) == Some(parts)
      decreases good, |path| - pos
    {
      var piece, end := GetLine(path, pos);
      good := end < |path|;
      ghost var pieces := if good then Split(path[end + 1..]) else [];
      assert Split(path[pos..]) == [piece] + pieces;
      NumbersStep(piece, pieces);
      var n := Stoi(piece);
      if n.None? {
        return None;
      }
      JoinStep(parts, n.value, Numbers(pieces));
      NumbersOfNothing();
      assert parts + [n.value] + [] == parts + [n.value];
      parts := parts + [n.value];
      if good {
        pos := end + 1;
      }
    }
    return Some(parts);
  }
}
