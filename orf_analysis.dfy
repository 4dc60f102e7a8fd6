/**
 * ORF and NMD classification: translation in frame 0, the first in-frame stop, the
 * disruption test, the last CDS exon-exon junction and the 50-nucleotide NMD rule.
 */
module OrfAnalysis {
  import opened Wrappers
  import opened Nucleotides
  import opened GeneticCode
  import opened FeatureStore
  import opened GenomeStore
  import opened SplicingSimulator

  /** A protein is more than this many amino acids shorter before it counts as disrupted. */
  const DisruptionThreshold: int := 300
  /** A stop more than this many nucleotides upstream of the last junction triggers NMD. */
  const NmdDistance: int := 50

  /** Amino acid `k` of the frame-0 reading of `s`. */
  function CodonAt(s: seq<Base>, k: nat): char
    requires 3 * k + 3 <= |s|
  {
    AminoAcid(s[3 * k], s[3 * k + 1], s[3 * k + 2])
  }

  /**
   * Full translation in frame 0 (`Seq.translate()`): every complete codon, stops included; a
   * trailing partial codon is ignored.
   */
  function Translate(s: seq<Base>): (p: seq<char>)
    ensures |p| == |s| / 3
    ensures forall k :: 0 <= k < |p| ==> p[k] == CodonAt(s, k)
  {
    if |s| < 3 then [] else [AminoAcid(s[0], s[1], s[2])] + Translate(s[3..])
  }

  /** A stop symbol appears in the translation exactly where an in-frame stop codon sits. */
  lemma TranslateStops(s: seq<Base>, k: nat)
    requires k < |s| / 3
    ensures Translate(s)[k] == StopSymbol <==> IsStopCodon(s[3 * k], s[3 * k + 1], s[3 * k + 2])
  {
  }

  /** `translate_cds`: translation up to, not including, the first in-frame stop. */
  function TranslateCds(s: seq<Base>): (p: seq<char>)
    ensures |p| <= |s| / 3
    ensures StopSymbol !in p
    ensures p == Translate(s)[..|p|]
    ensures |p| < |s| / 3 ==> Translate(s)[|p|] == StopSymbol
  {
    if |s| < 3 then []
    else
      var aa := AminoAcid(s[0], s[1], s[2]);
      if aa == StopSymbol then [] else [aa] + TranslateCds(s[3..])
  }

  /** The truncated translation is the whole translation exactly when that has no stop. */
  lemma TranslateCdsWhole(s: seq<Base>)
    ensures |TranslateCds(s)| == |s| / 3 <==> StopSymbol !in Translate(s)
    ensures StopSymbol !in Translate(s) ==> TranslateCds(s) == Translate(s)
  {
    var p := TranslateCds(s);
    var full := Translate(s);
    if |p| < |s| / 3 {
      assert full[|p|] == StopSymbol;
    } else {
      assert full == full[..|p|];
    }
  }

  /** `str.find` on one character: the first index holding `c`, or -1. */
  function Find(p: seq<char>, c: char): (k: int)
    ensures -1 <= k < |p|
    ensures k == -1 <==> c !in p
    ensures k >= 0 ==> p[k] == c && c !in p[..k]
  {
    if p == [] then -1
    else if p[0] == c then 0
    else
      var k := Find(p[1..], c);
      if k == -1 then -1
      else
        assert p[..k + 1] == [p[0]] + p[1..][..k];
        k + 1
  }

  /** `find_stop_position`: nucleotide offset of the first in-frame stop, or `|s|` without one. */
  function FindStopPosition(s: seq<Base>): int {
    var stopIndex := Find(Translate(s), StopSymbol);
    if stopIndex == -1 then |s| else stopIndex * 3
  }

  /** Without an in-frame stop codon the offset is the length of the sequence. */
  lemma NoStopPosition(s: seq<Base>)
    requires forall k :: 0 <= k < |s| / 3 ==> !IsStopCodon(s[3 * k], s[3 * k + 1], s[3 * k + 2])
    ensures FindStopPosition(s) == |s|
  {
  }

  /**
   * With an in-frame stop codon the offset is that of the first one: a multiple of 3 whose
   * codon lies inside the sequence, with no stop codon before it in frame 0.
   */
  lemma FirstStopPosition(s: seq<Base>, k: nat)
    requires k < |s| / 3 && IsStopCodon(s[3 * k], s[3 * k + 1], s[3 * k + 2])
    ensures var pos := FindStopPosition(s);
            pos % 3 == 0 && 0 <= pos <= 3 * k && pos + 3 <= |s| &&
            IsStopCodon(s[pos], s[pos + 1], s[pos + 2]) &&
            forall j :: 0 <= j < pos / 3 ==> !IsStopCodon(s[3 * j], s[3 * j + 1], s[3 * j + 2])
  {
    var full := Translate(s);
    TranslateStops(s, k);
    var i := Find(full, StopSymbol);
    TranslateStops(s, i);
    forall j | 0 <= j < i
      ensures !IsStopCodon(s[3 * j], s[3 * j + 1], s[3 * j + 2])
    {
      assert full[..i][j] == full[j];
      TranslateStops(s, j);
    }
    assert (3 * i) / 3 == i;
  }

  /** With a stop in frame, its offset is three times the length of the truncated protein. */
  lemma {:induction false} StopPositionIsTruncatedLength(s: seq<Base>)
    requires StopSymbol in Translate(s)
    ensures FindStopPosition(s) == 3 * |TranslateCds(s)|
  {
    var full := Translate(s);
    var p := TranslateCds(s);
    var i := Find(full, StopSymbol);
    TranslateCdsWhole(s);
    assert |p| < |s| / 3;
    assert full[|p|] == StopSymbol;
  }

  /** `check_orf_disruption`: the alternative protein is more than 300 amino acids shorter. */
  function CheckOrfDisruption(refProtein: seq<char>, altProtein: seq<char>): bool {
    |refProtein| - |altProtein| > DisruptionThreshold
  }

  /**
   * The test is strict: a shortening by exactly 300 does not count, one by 301 does; and with
   * the reference fixed, shortening the alternative further never clears the flag.
   */
  lemma OrfDisruptionThreshold(refProtein: seq<char>, altProtein: seq<char>, shorter: seq<char>)
    requires |shorter| <= |altProtein|
    ensures CheckOrfDisruption(refProtein, altProtein) ==> CheckOrfDisruption(refProtein, shorter)
    ensures |refProtein| - |altProtein| == DisruptionThreshold ==> !CheckOrfDisruption(refProtein, altProtein)
    ensures |refProtein| - |altProtein| == DisruptionThreshold + 1 ==> CheckOrfDisruption(refProtein, altProtein)
    ensures CheckOrfDisruption(refProtein, altProtein) ==> |altProtein| < |refProtein|
  {
  }

  /**
   * `get_last_cds_junction`: offset, in the spliced CDS, of the last exon-exon junction; none
   * below two CDS segments.
   */
  function LastCdsJunction(tx: Transcript): Option<int> {
    LastJunction(Children(tx, CDS))
  }

  /** The summed lengths of every segment but the last, over segments already in start order. */
  function LastJunction(cdsExons: seq<Feature>): Option<int> {
    if |cdsExons| < 2 then None
    else Some(TotalLength(cdsExons[..|cdsExons| - 1]))
  }

  /**
   * There is a junction exactly when there are two segments or more; it is the total length
   * less the last segment's length, so inside the CDS when that segment is not empty.
   */
  lemma LastJunctionSpec(cdsExons: seq<Feature>)
    ensures var j := LastJunction(cdsExons);
            (j.None? <==> |cdsExons| < 2) &&
            (j.Some? ==> j.value == TotalLength(cdsExons) - FeatureLength(cdsExons[|cdsExons| - 1])) &&
            (j.Some? && cdsExons[|cdsExons| - 1].start <= cdsExons[|cdsExons| - 1].end ==> j.value < TotalLength(cdsExons))
  {
    if |cdsExons| >= 2 {
      var n := |cdsExons|;
      assert cdsExons == cdsExons[..n - 1] + [cdsExons[n - 1]];
      TotalLengthSnoc(cdsExons[..n - 1], cdsExons[n - 1]);
    }
  }

  /**
   * The junction is where the last segment starts in the assembled reference: with every
   * segment in bounds, the reference from that offset on is the last segment's
   * strand-corrected bases.
   */
  lemma LastJunctionOpensLastSegment(cdsExons: seq<Feature>, genome: Genome)
    requires AllInBounds(genome, cdsExons)
    requires |cdsExons| >= 2
    ensures var last := cdsExons[|cdsExons| - 1];
            var j := LastJunction(cdsExons).value;
            var v := Assemble(cdsExons, genome, Reference);
            v.Ok? && 0 <= j <= |v.value| &&
            v.value[j..] == Orient(genome[last.chrom][last.start - 1..last.end], last.strand, Reference)
  {
    var n := |cdsExons|;
    AssembleLayout(cdsExons, genome, Reference, n - 1);
    PieceInBounds(genome, cdsExons[n - 1], Reference);
    AssembleLength(cdsExons, genome, Reference);
    var v := Assemble(cdsExons, genome, Reference).value;
    var lo := TotalLength(cdsExons[..n - 1]);
    assert cdsExons[..n] == cdsExons;
    assert v[lo..] == v[lo..TotalLength(cdsExons[..n])];
  }

  /** `check_nmd_with_junction`: no junction means no NMD; otherwise the stop must lie more than 50 nt upstream. */
  function CheckNmdWithJunction(ptcPosition: int, lastJunction: Option<int>): bool {
    match lastJunction
    case None => false
    case Some(j) => j - ptcPosition > NmdDistance
  }

  /**
   * NMD needs a junction and a stop more than 50 nucleotides before it; exactly 50 is not
   * enough; and moving the stop upstream never clears the flag.
   */
  lemma NmdRule(ptcPosition: int, upstream: int, lastJunction: Option<int>)
    requires upstream <= ptcPosition
    ensures CheckNmdWithJunction(ptcPosition, lastJunction) <==>
              lastJunction.Some? && lastJunction.value - ptcPosition > NmdDistance
    ensures CheckNmdWithJunction(ptcPosition, lastJunction) ==> CheckNmdWithJunction(upstream, lastJunction)
    ensures lastJunction == Some(ptcPosition + NmdDistance) ==> !CheckNmdWithJunction(ptcPosition, lastJunction)
  {
  }

  /** A transcript with fewer than two CDS segments is never called NMD, wherever its stop lies. */
  lemma SingleSegmentNeverNmd(tx: Transcript, ptcPosition: int)
    requires |Children(tx, CDS)| < 2
    ensures !CheckNmdWithJunction(ptcPosition, LastCdsJunction(tx))
  {
    LastJunctionSpec(Children(tx, CDS));
  }

  /**
   * Three CDS segments of 300, 150 and 900 nucleotides in start order: the last junction is
   * after the second segment, at 450.
   */
  lemma ThreeSegmentJunction()
    ensures LastJunction([Feature(CDS, "chr1", 1, 300, '+'),
                          Feature(CDS, "chr1", 1001, 1150, '+'),
                          Feature(CDS, "chr1", 2001, 2900, '+')]) == Some(450)
  {
    var a := Feature(CDS, "chr1", 1, 300, '+');
    var b := Feature(CDS, "chr1", 1001, 1150, '+');
    var c := Feature(CDS, "chr1", 2001, 2900, '+');
    assert [a, b, c][..2] == [a, b];
    assert [a, b][1..] == [b] && [b][1..] == [];
    assert TotalLength([a, b]) == 300 + TotalLength([b]) == 300 + 150 + TotalLength([]);
  }
}
