/** The few C library behaviours the program depends on, stated for the
    C locale on an LP64 platform. */
module LibC {

  /** `isprint` in the C locale: the characters from space (0x20) to tilde (0x7E). */
  predicate IsPrint(c: char)
    ensures IsPrint(c) ==> c != '\0' && c != '\n' && (c as int) < 128
  {
    ' ' <= c <= '~'
  }

  const INT_MAX: int := 0x7FFF_FFFF
  const INT_MIN: int := -0x8000_0000

  /** C's `/` on `int`: the quotient truncated toward zero (Dafny's own `/` is
      Euclidean). */
  function CQuot(a: int, b: int): (q: int)
    requires b != 0
    ensures (a >= 0) == (b > 0) ==> q >= 0
    ensures (a >= 0) != (b > 0) ==> q <= 0
  {
    var m := if b > 0 then b else -b;
    var u := if a >= 0 then a / m else -((-a) / m);
    if b > 0 then u else -u
  }

  /** C's `%` on `int`: whatever `CQuot` leaves over, so the remainder takes the sign
      of the dividend and is smaller in magnitude than the divisor. */
  function CRem(a: int, b: int): (r: int)
    requires b != 0
    ensures a == CQuot(a, b) * b + r
    ensures a >= 0 ==> 0 <= r < (if b > 0 then b else -b)
    ensures a < 0 ==> -(if b > 0 then b else -b) < r <= 0
  {
    CQuotTimes(a, b);
    var m := if b > 0 then b else -b;
    if a >= 0 then a % m else -((-a) % m)
  }

  /** The product `CQuot(a, b) * b` is the multiple of `|b|` that Euclidean division
      finds below `|a|`, with the sign of `a`. */
  lemma CQuotTimes(a: int, b: int)
    requires b != 0
    ensures var m := if b > 0 then b else -b;
            CQuot(a, b) * b == (if a >= 0 then (a / m) * m else -(((-a) / m) * m))
  {
    var m := if b > 0 then b else -b;
    var u := if a >= 0 then a / m else -((-a) / m);
    if b < 0 {
      assert CQuot(a, b) * b == (-u) * (-m) == u * m;
    }
  }

  /** The value a signed C value takes when converted to `unsigned long`: reduction
      modulo 2^64, so a value already in range keeps it and a negative one gains 2^64. */
  function ULongValue(x: int): (v: int)
    ensures 0 <= v < 0x1_0000_0000_0000_0000
    ensures 0 <= x < 0x1_0000_0000_0000_0000 ==> v == x
    ensures -0x1_0000_0000_0000_0000 <= x < 0 ==> v == x + 0x1_0000_0000_0000_0000
  {
    x % 0x1_0000_0000_0000_0000
  }

  /** The same conversion, as the 64-bit word the seed mixer works on. */
  function ToULong(x: int): bv64 {
    ULongValue(x) as bv64
  }

  /** Conversion of an `unsigned long` to `unsigned int`: only the low 32 bits survive.
      Reducing a signed value modulo 2^64 and then modulo 2^32 is reducing it modulo
      2^32, so this after `ToULong` is also the direct conversion of a signed value to
      `unsigned int`. */
  function Low32(x: bv64): (r: bv32)
    ensures r as bv64 == x & 0xFFFF_FFFF
  {
    (x & 0xFFFF_FFFF) as bv32
  }

  /** The state of the C library generator that the program can observe: the value
      last passed to `srand`. The outputs of `rand()` after it are given separately. */
  class Prng {
    var seed: bv32

    constructor (initial: bv32)
      ensures seed == initial
    {
      seed := initial;
    }

    /** `srand(s)`. */
    method Srand(s: bv32)
      modifies this
      ensures seed == s
    {
      seed := s;
    }
  }

  /** What `snprintf(buf, cap, ...)` leaves in `buf` when the formatted text is `s`:
      at most `cap - 1` characters (followed by the terminator, not shown). */
  function SnprintfStored(s: string, cap: nat): (stored: string)
    requires cap > 0
    ensures |stored| < cap
    ensures stored <= s
    ensures |s| < cap ==> stored == s
    ensures |s| >= cap ==> |stored| == cap - 1
  {
    if |s| < cap then s else s[..cap - 1]
  }

  /** What `fputs` writes from a NUL-terminated buffer: every character before the first NUL. */
  function CString(buf: seq<char>): (s: string)
    ensures s <= buf
    ensures forall i :: 0 <= i < |s| ==> s[i] != '\0'
    ensures |s| < |buf| ==> buf[|s|] == '\0'
  {
    if buf == [] || buf[0] == '\0' then [] else [buf[0]] + CString(buf[1..])
  }

  /** A buffer whose cells before `n` hold no NUL and whose cell `n` is the terminator
      is read by `fputs` as exactly its first `n` characters. */
  lemma {:induction false} CStringOfTerminated(buf: seq<char>, n: nat)
    requires n < |buf| && buf[n] == '\0'
    requires forall i :: 0 <= i < n ==> buf[i] != '\0'
    ensures CString(buf) == buf[..n]
  {
    if n > 0 {
      CStringOfTerminated(buf[1..], n - 1);
      assert buf[..n] == [buf[0]] + buf[1..][..n - 1];
    }
  }
}
