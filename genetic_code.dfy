/**
 * The standard genetic code (NCBI translation table 1) on the five-letter alphabet of the
 * genome, with the ambiguity rule Biopython applies to a codon holding an `N`: the codon
 * translates to the amino acid every concrete reading would give, and to `X` when the
 * readings disagree or one of them is a stop. No codon holding an `N` is a stop.
 */
module GeneticCode {
  import opened Nucleotides

  const StopSymbol: char := '*'
  const UnknownSymbol: char := 'X'

  /** TAA, TAG and TGA: the three stop codons of the standard code. */
  predicate IsStopCodon(x: Base, y: Base, z: Base) {
    (x, y, z) == (T, A, A) || (x, y, z) == (T, A, G) || (x, y, z) == (T, G, A)
  }

  predicate Concrete(b: Base) {
    b != N
  }

  /** A two-fold box: pyrimidines in third position give `pyr`, purines give `pur`. */
  function TwoFold(z: Base, pyr: char, pur: char): (aa: char)
    ensures z == N ==> aa == UnknownSymbol
  {
    match z
    case T => pyr
    case C => pyr
    case A => pur
    case G => pur
    case N => UnknownSymbol
  }

  /** The amino acid (one-letter code) or `*` for one codon. */
  function AminoAcid(x: Base, y: Base, z: Base): (aa: char)
    ensures aa == StopSymbol <==> IsStopCodon(x, y, z)
    ensures !Concrete(x) || !Concrete(y) ==> aa == UnknownSymbol
    ensures Concrete(x) && Concrete(y) && Concrete(z) ==> aa != UnknownSymbol
  {
    match (x, y)
    case (T, T) => TwoFold(z, 'F', 'L')
    case (T, C) => 'S'
    case (T, A) => TwoFold(z, 'Y', StopSymbol)
    case (T, G) => (match z case T => 'C' case C => 'C' case A => StopSymbol case G => 'W' case N => UnknownSymbol)
    case (C, T) => 'L'
    case (C, C) => 'P'
    case (C, A) => TwoFold(z, 'H', 'Q')
    case (C, G) => 'R'
    case (A, T) => (match z case T => 'I' case C => 'I' case A => 'I' case G => 'M' case N => UnknownSymbol)
    case (A, C) => 'T'
    case (A, A) => TwoFold(z, 'N', 'K')
    case (A, G) => TwoFold(z, 'S', 'R')
    case (G, T) => 'V'
    case (G, C) => 'A'
    case (G, A) => TwoFold(z, 'D', 'E')
    case (G, G) => 'G'
    case _ => UnknownSymbol
  }

  /**
   * An `N` in third position resolves exactly when all four concrete third bases give the same
   * amino acid (a four-fold degenerate box); otherwise the codon is unknown.
   */
  lemma ThirdPositionAmbiguity(x: Base, y: Base)
    requires Concrete(x) && Concrete(y)
    ensures var same := AminoAcid(x, y, A) == AminoAcid(x, y, C) == AminoAcid(x, y, G) == AminoAcid(x, y, T);
            AminoAcid(x, y, N) == if same then AminoAcid(x, y, A) else UnknownSymbol
  {
  }

  /**
   * An `N` in first or second position never resolves: no pair of fixed bases makes the four
   * readings of the varying position agree in the standard code.
   */
  lemma LeadingPositionAmbiguity(y: Base, z: Base)
    requires Concrete(y) && Concrete(z)
    ensures !(AminoAcid(A, y, z) == AminoAcid(C, y, z) == AminoAcid(G, y, z) == AminoAcid(T, y, z))
    ensures !(AminoAcid(y, A, z) == AminoAcid(y, C, z) == AminoAcid(y, G, z) == AminoAcid(y, T, z))
    ensures AminoAcid(N, y, z) == UnknownSymbol && AminoAcid(y, N, z) == UnknownSymbol
  {
  }
}
