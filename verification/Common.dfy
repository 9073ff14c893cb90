/** Vocabulary shared by every component of the debugger model. */
module Common {

  datatype Option<+T> = None | Some(value: T)

  /** What a command answers (interfaces/include/sdb/MessageInterface.h). */
  datatype ReturnCode = Success | Invalid | InvalidNotPaused | InvalidParameter | ErrorInternal

  const INT32_MAX: int := 0x7FFF_FFFF
  const INT32_MIN: int := -0x8000_0000
  const UINT32_MODULUS: int := 0x1_0000_0000

  /** `static_cast<uint32_t>` of an integer. */
  function ToUint32(n: int): (r: nat)
    ensures r < 0x1_0000_0000 && (n - r) % 0x1_0000_0000 == 0
  {
    n % UINT32_MODULUS
  }

  /** Conversion of an integer to a 32-bit `int`, wrapping in two's complement. */
  function ToInt32(n: int): (r: int)
    ensures -0x8000_0000 <= r <= 0x7FFF_FFFF
    ensures (r - n) % 0x1_0000_0000 == 0
    ensures -0x8000_0000 <= n <= 0x7FFF_FFFF ==> r == n
  {
    (n + 0x8000_0000) % UINT32_MODULUS - 0x8000_0000
  }

  predicate IsDigit(c: char) { '0' <= c <= '9' }

  /** The length of the longest prefix whose characters all satisfy the predicate. */
  function Span(p: char -> bool, s: string): (n: nat)
    ensures n <= |s|
    ensures forall i | 0 <= i < n :: p(s[i])
    ensures n < |s| ==> !p(s[n])
  {
    if s == "" || !p(s[0]) then 0 else 1 + Span(p, s[1..])
  }

  lemma SpanIs(p: char -> bool, s: string, n: nat)
    requires n <= |s| && (forall i | 0 <= i < n :: p(s[i])) && (n < |s| ==> !p(s[n]))
    ensures Span(p, s) == n
  {
  }

  /** A prefix put in front of a list that may be missing. */
  function Joined<T>(front: seq<T>, r: Option<seq<T>>): (q: Option<seq<T>>) {
    match r
    case None => None
    case Some(rest) => Some(front + rest)
  }

  lemma JoinNothing<T>(r: Option<seq<T>>)
    ensures Joined([], r) == r
  {
    if r.Some? {
      assert [] + r.value == r.value;
    }
  }

  lemma JoinStep<T>(front: seq<T>, t: T, r: Option<seq<T>>)
    ensures Joined(front, Joined([t], r)) == Joined(front + [t], r)
  {
    if r.Some? {
      assert front + ([t] + r.value) == front + [t] + r.value;
    }
  }
}
