/** Bit strings, most significant bit first, and the numbers they denote. */
module BitStrings {
  import opened Sums
  import Slices

  type Code = seq<bool>

  /** The codeword of a table entry, most significant bit first. */
  function Codeword(bits: nat, len: nat): (c: Code)
    ensures |c| == len
  {
    if len == 0 then [] else Codeword(bits / 2, len - 1) + [bits % 2 == 1]
  }

  function Value(c: Code): nat {
    if c == [] then 0 else 2 * Value(c[..|c| - 1]) + (if c[|c| - 1] then 1 else 0)
  }

  lemma {:induction false} CodewordValue(c: Code)
    ensures Codeword(Value(c), |c|) == c
  {
    if c != [] {
      var n := |c| - 1;
      CodewordValue(c[..n]);
      assert c == c[..n] + [c[n]];
    }
  }

  /** Putting a bit in front adds it at the place the length says, as the parent walk does. */
  lemma {:induction false} ValuePrepend(b: bool, c: Code)
    ensures Value([b] + c) == (if b then Pow2(|c|) else 0) + Value(c)
  {
    if c == [] {
      assert [b] + c == [b];
      assert [b][..0] == [];
    } else {
      var n := |c| - 1;
      ValuePrepend(b, c[..n]);
      assert ([b] + c)[..|c|] == [b] + c[..n];
    }
  }

  lemma {:induction false} ValueCodeword(v: nat, n: nat)
    requires v < Pow2(n)
    ensures Value(Codeword(v, n)) == v
  {
    if n > 0 {
      ValueCodeword(v / 2, n - 1);
      var c := Codeword(v, n);
      assert c[..n - 1] == Codeword(v / 2, n - 1);
    }
  }

  lemma ValueLast(c: Code, b: bool)
    ensures Value(c + [b]) == 2 * Value(c) + if b then 1 else 0
  {
    Slices.Front(c, [b]);
  }

  lemma Doubled(v: nat, p: nat)
    ensures v * (2 * p) == 2 * (v * p)
  {
  }

  lemma {:induction false} ValueAppend(a: Code, b: Code)
    ensures Value(a + b) == Value(a) * Pow2(|b|) + Value(b)
  {
    if b == [] {
      Slices.Nothing(a);
    } else {
      var n := |b| - 1;
      var d, x := b[..n], b[n];
      assert b == d + [x];
      ValueAppend(a, d);
      Slices.Assoc(a, d, [x]);
      ValueLast(a + d, x);
      ValueLast(d, x);
      Doubled(Value(a), Pow2(n));
    }
  }

  lemma {:induction false} ValueBelow(c: Code)
    ensures Value(c) < Pow2(|c|)
  {
    if c != [] {
      ValueBelow(c[..|c| - 1]);
    }
  }
}
