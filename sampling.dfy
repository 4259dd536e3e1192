/** Rejection sampling over the C library generator, as both generators of the
    program do it: draw a character from the next `rand()` output, keep it if it
    is acceptable, otherwise discard it and draw again. The outputs of `rand()`
    are an abstract stream; nothing is assumed about their distribution. */
module Sampling {

  /** The outputs of successive calls to `rand()`, by call number (all non-negative). */
  type Rand = nat -> nat

  /** How one `rand()` output becomes a candidate character, and which candidates are kept. */
  datatype Sampler = Sampler(draw: nat -> char, accept: char -> bool)

  /** The `rand()` output number `j` yields an acceptable character. */
  predicate Acceptable(s: Sampler, rand: Rand, j: nat) {
    s.accept(s.draw(rand(j)))
  }

  /** Some output at or after number `i` is acceptable. */
  ghost predicate AcceptedFrom(s: Sampler, rand: Rand, i: nat) {
    exists j :: i <= j && Acceptable(s, rand, j)
  }

  /** Acceptable outputs keep coming: the stream never ends in rejections only. This is
      what the generators' resampling loops need to terminate (with a real generator it
      holds with probability 1). */
  ghost predicate Recurrent(s: Sampler, rand: Rand) {
    forall i :: AcceptedFrom(s, rand, i)
  }

  /** If some output in `[i, j]` is acceptable, a first one exists. */
  lemma {:induction false} FirstAcceptedExists(s: Sampler, rand: Rand, i: nat, j: nat)
    requires i <= j && Acceptable(s, rand, j)
    ensures exists k :: i <= k <= j && Acceptable(s, rand, k) &&
                        forall m :: i <= m < k ==> !Acceptable(s, rand, m)
    decreases j - i
  {
    if !Acceptable(s, rand, i) {
      FirstAcceptedExists(s, rand, i + 1, j);
    }
  }

  /** The number of the first acceptable output at or after number `i`: every output
      in between is rejected. */
  ghost function FirstAccepted(s: Sampler, rand: Rand, i: nat): (k: nat)
    requires AcceptedFrom(s, rand, i)
    ensures i <= k && Acceptable(s, rand, k)
    ensures forall m :: i <= m < k ==> !Acceptable(s, rand, m)
  {
    var j :| i <= j && Acceptable(s, rand, j);
    FirstAcceptedExists(s, rand, i, j);
    var k :| i <= k <= j && Acceptable(s, rand, k) && forall m :: i <= m < k ==> !Acceptable(s, rand, m);
    k
  }

  /** The first acceptable output is the only acceptable one preceded by rejections only. */
  lemma FirstAcceptedUnique(s: Sampler, rand: Rand, i: nat, k: nat)
    requires i <= k && Acceptable(s, rand, k)
    requires forall m :: i <= m < k ==> !Acceptable(s, rand, m)
    ensures FirstAccepted(s, rand, i) == k
  {
    assert AcceptedFrom(s, rand, i);
  }

  /** The characters a fill of `n` cells produces, and the number of the next unused output. */
  datatype Batch = Batch(text: string, next: nat)

  /** Filling `n` cells from output number `pos` on: each cell takes the character of the
      first acceptable output after those used by the earlier cells. */
  ghost function Fill(s: Sampler, rand: Rand, pos: nat, n: nat): (b: Batch)
    requires Recurrent(s, rand)
    ensures |b.text| == n && pos <= b.next
    ensures n == 0 <==> b.next == pos
  {
    if n == 0 then Batch([], pos)
    else
      var prev := Fill(s, rand, pos, n - 1);
      assert AcceptedFrom(s, rand, prev.next);
      var k := FirstAccepted(s, rand, prev.next);
      Batch(prev.text + [s.draw(rand(k))], k + 1)
  }

  /** `text` and `next` are what a fill of `|text|` cells from output number `pos` gives. */
  ghost predicate Fills(s: Sampler, rand: Rand, pos: nat, text: string, next: nat)
    requires Recurrent(s, rand)
  {
    Fill(s, rand, pos, |text|) == Batch(text, next)
  }

  /** One more cell: the fill of `n + 1` cells extends the fill of `n` cells with the
      character of the first acceptable output after those it used. */
  lemma FillStep(s: Sampler, rand: Rand, pos: nat, n: nat, c: char, next: nat)
    requires Recurrent(s, rand)
    requires AcceptedFrom(s, rand, Fill(s, rand, pos, n).next)
    requires next == FirstAccepted(s, rand, Fill(s, rand, pos, n).next) + 1
    requires c == s.draw(rand(next - 1))
    ensures Fill(s, rand, pos, n + 1) == Batch(Fill(s, rand, pos, n).text + [c], next)
  {
  }

  /** The resampling loop: draw from output number `pos` on until the character is
      acceptable. It stops at the first acceptable output. */
  method Draw(s: Sampler, rand: Rand, pos: nat) returns (c: char, next: nat)
    requires Recurrent(s, rand)
    ensures s.accept(c)
    ensures next == FirstAccepted(s, rand, pos) + 1
    ensures c == s.draw(rand(next - 1))
  {
    assert AcceptedFrom(s, rand, pos);
    ghost var first := FirstAccepted(s, rand, pos);
    c := s.draw(rand(pos));
    next := pos + 1;
    while !s.accept(c)
      invariant pos < next <= first + 1
      invariant c == s.draw(rand(next - 1))
      invariant forall m :: pos <= m < next - 1 ==> !Acceptable(s, rand, m)
      decreases first + 1 - next
    {
      c := s.draw(rand(next));
      next := next + 1;
    }
    FirstAcceptedUnique(s, rand, pos, next - 1);
  }

  /** The filling loop: cells `0` to `size - 1` of `text` receive, in order, the characters
      of a fill of `size` cells from output number `pos` on; the other cells are left as they
      were. `next` is the number of the first output not used. */
  method FillCells(s: Sampler, text: array<char>, size: nat, rand: Rand, pos: nat) returns (next: nat)
    requires size < text.Length
    requires Recurrent(s, rand)
    modifies text
    ensures text[..size] == Fill(s, rand, pos, size).text
    ensures next == Fill(s, rand, pos, size).next
    ensures forall i :: 0 <= i < size ==> s.accept(text[i])
    ensures text[size..] == old(text[size..])
  {
    next := pos;
    for i := 0 to size
      invariant text[..i] == Fill(s, rand, pos, i).text
      invariant next == Fill(s, rand, pos, i).next
      invariant forall j :: 0 <= j < i ==> s.accept(text[j])
      invariant text[size..] == old(text[size..])
    {
      ghost var prev := Fill(s, rand, pos, i);
      var c;
      c, next := Draw(s, rand, next);
      FillStep(s, rand, pos, i, c, next);
      text[i] := c;
      assert text[..i + 1] == prev.text + [c];
    }
  }

  /** Every character a fill produces is acceptable. */
  lemma {:induction false} FillAccepts(s: Sampler, rand: Rand, pos: nat, n: nat)
    requires Recurrent(s, rand)
    ensures forall i :: 0 <= i < n ==> s.accept(Fill(s, rand, pos, n).text[i])
  {
    if n > 0 {
      FillAccepts(s, rand, pos, n - 1);
      var prev := Fill(s, rand, pos, n - 1);
      assert Fill(s, rand, pos, n).text == prev.text + [s.draw(rand(FirstAccepted(s, rand, prev.next)))];
    }
  }

  /** The characters of the acceptable outputs numbered `lo` to `hi - 1`, in order. */
  function AcceptedDraws(s: Sampler, rand: Rand, lo: nat, hi: nat): string
    decreases hi
  {
    if hi <= lo then []
    else AcceptedDraws(s, rand, lo, hi - 1) + (if Acceptable(s, rand, hi - 1) then [s.draw(rand(hi - 1))] else [])
  }

  /** Rejected outputs contribute nothing. */
  lemma {:induction false} AcceptedDrawsSkipsRejected(s: Sampler, rand: Rand, lo: nat, m: nat, k: nat)
    requires lo <= m <= k
    requires forall j :: m <= j < k ==> !Acceptable(s, rand, j)
    ensures AcceptedDraws(s, rand, lo, k) == AcceptedDraws(s, rand, lo, m)
    decreases k
  {
    if k > m {
      AcceptedDrawsSkipsRejected(s, rand, lo, m, k - 1);
    }
  }

  /** Rejection sampling keeps exactly the acceptable outputs it reads, in order, and stops
      reading right after the `n`-th one: the text is the acceptable characters among the
      outputs it consumed, and the last output consumed was acceptable. */
  lemma {:induction false} FillKeepsAcceptedDraws(s: Sampler, rand: Rand, pos: nat, n: nat)
    requires Recurrent(s, rand)
    ensures Fill(s, rand, pos, n).text == AcceptedDraws(s, rand, pos, Fill(s, rand, pos, n).next)
    ensures n > 0 ==> Acceptable(s, rand, Fill(s, rand, pos, n).next - 1)
  {
    if n > 0 {
      var prev := Fill(s, rand, pos, n - 1);
      FillKeepsAcceptedDraws(s, rand, pos, n - 1);
      assert AcceptedFrom(s, rand, prev.next);
      var k := FirstAccepted(s, rand, prev.next);
      assert Fill(s, rand, pos, n) == Batch(prev.text + [s.draw(rand(k))], k + 1);
      AcceptedDrawsSkipsRejected(s, rand, pos, prev.next, k);
      assert AcceptedDraws(s, rand, pos, k + 1) == AcceptedDraws(s, rand, pos, k) + [s.draw(rand(k))];
    }
  }
}
