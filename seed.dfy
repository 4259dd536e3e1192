/** The seed mixer of src/seed.c: Bob Jenkins' 96-bit `mix` over three
    `unsigned long` words (64 bits on LP64), and `seed_random`, which seeds the
    C library generator with the mix of three runtime readings. */
module Seed {
  import LibC

  /** The three working words `a`, `b`, `c` of `mix`. */
  datatype Words = Words(a: bv64, b: bv64, c: bv64)

  // One round updates one word: it subtracts the other two (wrapping modulo 2^64),
  // then xors in a shifted copy of the word updated last. `a` and `c` take a right
  // shift, `b` a left shift that drops the high bits. Each round is one line of
  // three assignments in the source.

  function MixA(w: Words, n: nat): (r: Words)
    requires n < 64
    ensures r.b == w.b && r.c == w.c
  {
    w.(a := ((w.a - w.b) - w.c) ^ (w.c >> n))
  }

  function MixB(w: Words, n: nat): (r: Words)
    requires n < 64
    ensures r.a == w.a && r.c == w.c
  {
    w.(b := ((w.b - w.c) - w.a) ^ (w.a << n))
  }

  function MixC(w: Words, n: nat): (r: Words)
    requires n < 64
    ensures r.a == w.a && r.b == w.b
  {
    w.(c := ((w.c - w.a) - w.b) ^ (w.b >> n))
  }

  /** Each round can be undone from the word it produced and the two words it read,
      which it left unchanged: xor the same shifted value in again and add back the
      two subtracted words. Stated on the word values, for the a-, b- and c-rounds:
      undoing after doing, and doing after undoing, both give back the original word. */
  lemma RoundsInvertible(a: bv64, b: bv64, c: bv64, n: nat)
    requires n < 64
    ensures (((((a - b) - c) ^ (c >> n)) ^ (c >> n)) + c) + b == a
    ensures (((((a ^ (c >> n)) + c) + b) - b) - c) ^ (c >> n) == a
    ensures (((((b - c) - a) ^ (a << n)) ^ (a << n)) + a) + c == b
    ensures (((((b ^ (a << n)) + a) + c) - c) - a) ^ (a << n) == b
    ensures (((((c - a) - b) ^ (b >> n)) ^ (b >> n)) + b) + a == c
    ensures (((((c ^ (b >> n)) + b) + a) - a) - b) ^ (b >> n) == c
  {
  }

  /** The whole state transformation of `mix`: nine rounds on a, b, c in turn, with
      shifts 13, 8, 13, 12, 16, 5, 3, 10, 15 (right, left, right). */
  function Mixed(w: Words): Words {
    var w1 := MixC(MixB(MixA(w, 13), 8), 13);
    var w2 := MixC(MixB(MixA(w1, 12), 16), 5);
    MixC(MixB(MixA(w2, 3), 10), 15)
  }

  /** `mix(a, b, c)`: nine rounds updating the three words in place, returning the
      final `c`. Every step is total, so there is no failure path. The rounds are applied
      one word at a time, as the macro does; `Mixed` is the same composition written as one
      function, so that contracts, which cannot call a method, can name the result. */
  method Mix(a: bv64, b: bv64, c: bv64) returns (r: bv64)
    ensures r == Mixed(Words(a, b, c)).c
  {
    var w := Words(a, b, c);
    w := MixA(w, 13);  w := MixB(w, 8);   w := MixC(w, 13);
    w := MixA(w, 12);  w := MixB(w, 16);  w := MixC(w, 5);
    w := MixA(w, 3);   w := MixB(w, 10);  w := MixC(w, 15);
    r := w.c;
  }

  /** `seed_random`: seeds the C library generator with `mix(clock(), time(NULL), getpid())`,
      in that argument order, each reading converted to `unsigned long` first. */
  method SeedRandom(prng: LibC.Prng, clock: int, now: int, pid: int)
    modifies prng
    ensures prng.seed == LibC.Low32(Mixed(Words(LibC.ToULong(clock), LibC.ToULong(now), LibC.ToULong(pid))).c)
  {
    var mixed := Mix(LibC.ToULong(clock), LibC.ToULong(now), LibC.ToULong(pid));
    prng.Srand(LibC.Low32(mixed));
  }
}
