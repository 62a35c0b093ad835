/** Pieces of text at their places. */
module Texts {
  /** The text at a position: what strncmp compares with. */
  predicate At(input: string, pos: nat, s: string) {
    pos + |s| <= |input| && input[pos..pos + |s|] == s
  }

  lemma AtFits(input: string, pos: nat, s: string)
    requires At(input, pos, s)
    ensures pos + |s| <= |input|
  {
  }

  lemma AtParts(input: string, pos: nat, a: string, b: string)
    requires At(input, pos, a + b)
    ensures At(input, pos, a) && At(input, pos + |a|, b)
  {
    assert input[pos..pos + |a|] == (input[pos..pos + |a + b|])[..|a|] == a;
    assert input[pos + |a|..pos + |a| + |b|] == (input[pos..pos + |a + b|])[|a|..] == b;
  }

  lemma AtIndex(input: string, pos: nat, s: string)
    requires At(input, pos, s)
    ensures forall k | pos <= k < pos + |s| :: input[k] == s[k - pos]
  {
    forall k | pos <= k < pos + |s| ensures input[k] == s[k - pos] {
      assert input[k] == input[pos..pos + |s|][k - pos];
    }
  }

  lemma Regroup(a: string, b: string, c: string)
    ensures (a + b) + c == a + (b + c)
  {
  }
}
