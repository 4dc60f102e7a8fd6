/**
 * Nucleotide bases and the reverse complement used on minus-strand segments.
 * `N` stands for any unknown base, as in a genome FASTA file.
 */
module Nucleotides {

  datatype Base = A | C | G | T | N

  /** Watson-Crick complement; the unknown base is its own complement. */
  function Complement(b: Base): (c: Base)
    ensures c != b <==> b != N
  {
    match b
    case A => T
    case T => A
    case C => G
    case G => C
    case N => N
  }

  /** Complementing twice gives the base back. */
  lemma ComplementInvolutive(b: Base)
    ensures Complement(Complement(b)) == b
  {
  }

  /** The reverse complement of a strand: read backwards, complementing each base. */
  function ReverseComplement(s: seq<Base>): (r: seq<Base>)
    ensures |r| == |s|
    ensures forall k :: 0 <= k < |s| ==> r[k] == Complement(s[|s| - 1 - k])
  {
    if s == [] then [] else ReverseComplement(s[1..]) + [Complement(s[0])]
  }

  /** Taking the reverse complement twice gives the strand back. */
  lemma ReverseComplementInvolutive(s: seq<Base>)
    ensures ReverseComplement(ReverseComplement(s)) == s
  {
    var r := ReverseComplement(s);
    var rr := ReverseComplement(r);
    forall k | 0 <= k < |s|
      ensures rr[k] == s[k]
    {
      assert rr[k] == Complement(r[|s| - 1 - k]);
      ComplementInvolutive(s[k]);
    }
  }

  /**
   * The reverse complement of a concatenation puts the parts in the opposite order:
   * reverse-complementing segments one by one is not the same as reverse-complementing
   * their join.
   */
  lemma ReverseComplementConcat(a: seq<Base>, b: seq<Base>)
    ensures ReverseComplement(a + b) == ReverseComplement(b) + ReverseComplement(a)
  {
    var lhs := ReverseComplement(a + b);
    var rhs := ReverseComplement(b) + ReverseComplement(a);
    assert |lhs| == |rhs|;
    forall k | 0 <= k < |lhs|
      ensures lhs[k] == rhs[k]
    {
      if k < |b| {
        assert lhs[k] == Complement((a + b)[|a| + |b| - 1 - k]);
      } else {
        assert lhs[k] == Complement((a + b)[|a| + |b| - 1 - k]);
        assert rhs[k] == ReverseComplement(a)[k - |b|];
      }
    }
  }
}
