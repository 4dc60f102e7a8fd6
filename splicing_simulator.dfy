/**
 * Reconstruction of a transcript's spliced sequence from the genome: the reference
 * (inclusion) sequence from its CDS features, and the alternative sequence from its exon
 * features with the event's exon left out.
 */
module SplicingSimulator {
  import opened Wrappers
  import opened Nucleotides
  import opened GenomeStore
  import opened FeatureStore

  /** What a reconstruction can raise. */
  datatype Error =
    | MissingChromosome(chrom: string)  // the genome has no such chromosome (a KeyError)
    | ExonNotFound                      // no exon matches the pair to skip (a ValueError)

  /** The message carried by the exon-not-found error. */
  const ExonNotFoundMessage := "Exon to skip not found in transcript"

  /** The two builders test the strand differently, so the spec functions say which one runs. */
  datatype Build = Reference | Alternative

  /**
   * Strand correction of one fetched segment. The reference build keeps a segment as it is
   * only on strand `+`; the alternative build reverse-complements it only on strand `-`.
   */
  function Orient(raw: seq<Base>, strand: char, build: Build): (r: seq<Base>)
    ensures |r| == |raw|
  {
    match build
    case Reference => if strand == '+' then raw else ReverseComplement(raw)
    case Alternative => if strand == '-' then ReverseComplement(raw) else raw
  }

  /** On the strands `+` and `-` both builds orient a segment the same way. */
  lemma OrientAgreesOnStrandedFeatures(raw: seq<Base>, strand: char)
    requires strand == '+' || strand == '-'
    ensures Orient(raw, strand, Reference) == Orient(raw, strand, Alternative)
    ensures strand == '+' ==> Orient(raw, strand, Reference) == raw
    ensures strand == '-' ==> Orient(raw, strand, Reference) == ReverseComplement(raw)
  {
  }

  /** On any other strand character (`.`, `?`) the reference build reverse-complements and the alternative does not. */
  lemma OrientDiffersOnUnstrandedFeatures(raw: seq<Base>, strand: char)
    requires strand != '+' && strand != '-'
    ensures Orient(raw, strand, Reference) == ReverseComplement(raw)
    ensures Orient(raw, strand, Alternative) == raw
  {
  }

  /** The feature's coordinates lie within its chromosome. */
  predicate InBounds(genome: Genome, f: Feature) {
    f.chrom in genome && 1 <= f.start && f.start - 1 <= f.end <= |genome[f.chrom]|
  }

  predicate AllInBounds(genome: Genome, fs: seq<Feature>) {
    forall k :: 0 <= k < |fs| ==> InBounds(genome, fs[k])
  }

  /** `genome[chrom][start - 1:end]`: the 1-based inclusive range as a 0-based half-open slice. */
  function Fetch(genome: Genome, f: Feature): (r: Result<seq<Base>, Error>)
    ensures r.Err? <==> f.chrom !in genome
    ensures r.Err? ==> r.error == MissingChromosome(f.chrom)
    ensures InBounds(genome, f) ==>
      r == Ok(genome[f.chrom][f.start - 1..f.end]) && |r.value| == FeatureLength(f)
  {
    if f.chrom in genome then Ok(PySlice(genome[f.chrom], f.start - 1, f.end))
    else Err(MissingChromosome(f.chrom))
  }

  /** One segment, fetched and strand-corrected. */
  function Piece(genome: Genome, f: Feature, build: Build): Result<seq<Base>, Error> {
    match Fetch(genome, f)
    case Err(e) => Err(e)
    case Ok(raw) => Ok(Orient(raw, f.strand, build))
  }

  /** A segment on a present chromosome yields its slice, strand-corrected. */
  lemma PieceOnPresentChromosome(genome: Genome, f: Feature, build: Build)
    requires f.chrom in genome
    ensures Piece(genome, f, build) == Ok(Orient(PySlice(genome[f.chrom], f.start - 1, f.end), f.strand, build))
  {
  }

  /** An in-bounds segment's piece is its slice of the chromosome, strand-corrected. */
  lemma PieceInBounds(genome: Genome, f: Feature, build: Build)
    requires InBounds(genome, f)
    ensures Piece(genome, f, build) == Ok(Orient(genome[f.chrom][f.start - 1..f.end], f.strand, build))
  {
  }

  /** The first result's sequence followed by the second's; the first error wins. */
  function Chain(first: Result<seq<Base>, Error>, rest: Result<seq<Base>, Error>): Result<seq<Base>, Error> {
    match first
    case Err(e) => Err(e)
    case Ok(p) => Prepend(p, rest)
  }

  /** Puts `prefix` in front of a successful result. */
  function Prepend(prefix: seq<Base>, r: Result<seq<Base>, Error>): Result<seq<Base>, Error> {
    match r
    case Err(e) => Err(e)
    case Ok(s) => Ok(prefix + s)
  }

  /**
   * The segments' strand-corrected pieces joined in the given order; the first segment
   * whose chromosome is missing makes the whole build fail.
   */
  function Assemble(segs: seq<Feature>, genome: Genome, build: Build): Result<seq<Base>, Error> {
    if segs == [] then Ok([])
    else Chain(Piece(genome, segs[0], build), Assemble(segs[1..], genome, build))
  }

  /** A build succeeds exactly when every segment's chromosome is in the genome. */
  lemma {:induction false} AssembleSucceedsIffChromosomesPresent(segs: seq<Feature>, genome: Genome, build: Build)
    ensures Assemble(segs, genome, build).Ok? <==> forall k :: 0 <= k < |segs| ==> segs[k].chrom in genome
  {
    if segs != [] {
      AssembleSucceedsIffChromosomesPresent(segs[1..], genome, build);
      assert forall k :: 1 <= k < |segs| ==> segs[k] == segs[1..][k - 1];
    }
  }

  /** A failed build names the chromosome of the first segment that has none. */
  lemma {:induction false} AssembleFailsAtFirstMissing(segs: seq<Feature>, genome: Genome, build: Build)
    requires Assemble(segs, genome, build).Err?
    ensures exists k :: 0 <= k < |segs| && segs[k].chrom !in genome
                        && (forall j :: 0 <= j < k ==> segs[j].chrom in genome)
                        && Assemble(segs, genome, build).error == MissingChromosome(segs[k].chrom)
  {
    if segs[0].chrom !in genome {
      assert 0 < |segs| && segs[0].chrom !in genome;
    } else {
      AssembleFailsAtFirstMissing(segs[1..], genome, build);
      var k :| 0 <= k < |segs[1..]| && segs[1..][k].chrom !in genome
               && (forall j :: 0 <= j < k ==> segs[1..][j].chrom in genome)
               && Assemble(segs[1..], genome, build).error == MissingChromosome(segs[1..][k].chrom);
      assert forall j :: 1 <= j < k + 1 ==> segs[j] == segs[1..][j - 1];
      assert segs[k + 1].chrom !in genome;
    }
  }

  /** With every segment in bounds the build succeeds and is as long as the segments together. */
  lemma {:induction false} AssembleLength(segs: seq<Feature>, genome: Genome, build: Build)
    requires AllInBounds(genome, segs)
    ensures Assemble(segs, genome, build).Ok?
    ensures |Assemble(segs, genome, build).value| == TotalLength(segs)
  {
    if segs != [] {
      assert InBounds(genome, segs[0]);
      assert forall k :: 0 <= k < |segs[1..]| ==> segs[1..][k] == segs[k + 1];
      AssembleLength(segs[1..], genome, build);
    }
  }

  /** Building a concatenation builds the first part, then the second. */
  lemma {:induction false} AssembleAppend(a: seq<Feature>, b: seq<Feature>, genome: Genome, build: Build)
    ensures Assemble(a + b, genome, build) == Chain(Assemble(a, genome, build), Assemble(b, genome, build))
  {
    if a == [] {
      assert a + b == b;
      PrependEmpty(Assemble(b, genome, build));
    } else {
      assert (a + b)[0] == a[0] && (a + b)[1..] == a[1..] + b;
      AssembleAppend(a[1..], b, genome, build);
      match Piece(genome, a[0], build)
      case Err(e) =>
      case Ok(p) =>
        match Assemble(a[1..], genome, build)
        case Err(e) =>
        case Ok(x) =>
          match Assemble(b, genome, build)
          case Err(e) =>
          case Ok(t) =>
            assert p + (x + t) == (p + x) + t;
    }
  }

  /** One step of the build loop: the build of `segs[i..]` starts with segment `i`'s piece. */
  lemma AssembleStep(segs: seq<Feature>, i: int, genome: Genome, build: Build)
    requires 0 <= i < |segs|
    ensures Assemble(segs[i..], genome, build)
            == Chain(Piece(genome, segs[i], build), Assemble(segs[i + 1..], genome, build))
  {
    assert segs[i..][0] == segs[i] && segs[i..][1..] == segs[i + 1..];
  }

  lemma AssembleCons(f: Feature, rest: seq<Feature>, genome: Genome, build: Build)
    ensures Assemble([f] + rest, genome, build) == Chain(Piece(genome, f, build), Assemble(rest, genome, build))
  {
    assert ([f] + rest)[0] == f && ([f] + rest)[1..] == rest;
  }

  lemma PrependPrepend(a: seq<Base>, b: seq<Base>, r: Result<seq<Base>, Error>)
    ensures Prepend(a, Prepend(b, r)) == Prepend(a + b, r)
  {
    if r.Ok? {
      assert a + (b + r.value) == (a + b) + r.value;
    }
  }

  lemma PrependEmpty(r: Result<seq<Base>, Error>)
    ensures Prepend([], r) == r
  {
    if r.Ok? {
      assert [] + r.value == r.value;
    }
  }

  lemma AllInBoundsSlice(genome: Genome, fs: seq<Feature>, i: int, j: int)
    requires AllInBounds(genome, fs)
    requires 0 <= i <= j <= |fs|
    ensures AllInBounds(genome, fs[i..j])
  {
    forall k | 0 <= k < j - i
      ensures InBounds(genome, fs[i..j][k])
    {
      assert fs[i..j][k] == fs[i + k];
    }
  }

  /** A window of `b` seen through `v == a + b` is shifted by `|a|`. */
  lemma ShiftWindow<X>(v: seq<X>, a: seq<X>, b: seq<X>, i: int, j: int, lo: int, hi: int)
    requires v == a + b && 0 <= i <= j <= |b| && lo == |a| + i && hi == |a| + j
    ensures 0 <= lo <= hi <= |v| && v[lo..hi] == b[i..j]
  {
    assert v[|a|..] == b;
  }

  /**
   * Segment `k` contributes exactly its own piece, at the offset given by the lengths of the
   * segments before it: segments are never reordered, whatever the strand.
   */
  lemma {:induction false} AssembleLayout(segs: seq<Feature>, genome: Genome, build: Build, k: int)
    requires AllInBounds(genome, segs)
    requires 0 <= k < |segs|
    ensures Assemble(segs, genome, build).Ok?
    ensures var v := Assemble(segs, genome, build).value;
            var lo := TotalLength(segs[..k]);
            var hi := TotalLength(segs[..k + 1]);
            0 <= lo <= hi <= |v| && Piece(genome, segs[k], build) == Ok(v[lo..hi])
  {
    var f, rest := segs[0], segs[1..];
    var q := Orient(genome[f.chrom][f.start - 1..f.end], f.strand, build);
    assert AllInBounds(genome, rest) by {
      AllInBoundsSlice(genome, segs, 1, |segs|);
      assert segs[1..|segs|] == rest;
    }
    assert Assemble(rest, genome, build).Ok? && |Assemble(rest, genome, build).value| == TotalLength(rest) by {
      AssembleLength(rest, genome, build);
    }
    var w := Assemble(rest, genome, build).value;
    var v := q + w;
    assert Assemble(segs, genome, build) == Ok(v) && Piece(genome, f, build) == Ok(q) by {
      PieceInBounds(genome, f, build);
    }
    if k == 0 {
      assert TotalLength(segs[..1]) == |q| by {
        assert segs[..1] == [f] && [f][1..] == [];
      }
      ShiftWindow(v, [], v, 0, |q|, 0, |q|);
      assert v[..|q|] == q;
    } else {
      AssembleLayout(rest, genome, build, k - 1);
      assert rest[k - 1] == segs[k];
      LayoutStep(segs, genome, build, k, q, w);
    }
  }

  /** The offsets of segment `k` within the tail's build, shifted past the first segment's piece. */
  lemma LayoutStep(segs: seq<Feature>, genome: Genome, build: Build, k: int, q: seq<Base>, w: seq<Base>)
    requires 0 < k < |segs| && |q| == FeatureLength(segs[0])
    requires var lo, hi := TotalLength(segs[1..][..k - 1]), TotalLength(segs[1..][..k]);
             0 <= lo <= hi <= |w| && Piece(genome, segs[k], build) == Ok(w[lo..hi])
    ensures var lo, hi := TotalLength(segs[..k]), TotalLength(segs[..k + 1]);
            0 <= lo <= hi <= |q + w| && Piece(genome, segs[k], build) == Ok((q + w)[lo..hi])
  {
    var rest := segs[1..];
    var lo, hi := TotalLength(rest[..k - 1]), TotalLength(rest[..k]);
    assert TotalLength(segs[..k]) == |q| + lo by {
      assert segs[..k][1..] == rest[..k - 1];
    }
    assert TotalLength(segs[..k + 1]) == |q| + hi by {
      assert segs[..k + 1][1..] == rest[..k];
    }
    ShiftWindow(q + w, q, w, lo, hi, |q| + lo, |q| + hi);
  }

  /** `''.join(exon_seqs)`. */
  function Join(pieces: seq<seq<Base>>): seq<Base> {
    if pieces == [] then [] else Join(pieces[..|pieces| - 1]) + pieces[|pieces| - 1]
  }

  lemma JoinSnoc(pieces: seq<seq<Base>>, s: seq<Base>)
    ensures Join(pieces + [s]) == Join(pieces) + s
  {
    assert (pieces + [s])[..|pieces|] == pieces;
  }

  /** The inclusion isoform: the transcript's CDS features, in start order, joined. */
  function ReferenceSequence(tx: Transcript, genome: Genome): Result<seq<Base>, Error> {
    Assemble(Children(tx, CDS), genome, Reference)
  }

  /** A feature whose start and end both equal the pair to skip. */
  predicate Matches(f: Feature, coords: (int, int)) {
    f.start == coords.0 && f.end == coords.1
  }

  /** The features that do not match `coords`, in their original order. */
  function Kept(fs: seq<Feature>, coords: (int, int)): seq<Feature> {
    if fs == [] then []
    else (if Matches(fs[0], coords) then [] else [fs[0]]) + Kept(fs[1..], coords)
  }

  /** No matching feature is kept; every other feature is kept as often as it occurs. */
  lemma {:induction false} KeptContents(fs: seq<Feature>, coords: (int, int))
    ensures forall f | f in Kept(fs, coords) :: !Matches(f, coords)
    ensures forall f: Feature | !Matches(f, coords) :: multiset(Kept(fs, coords))[f] == multiset(fs)[f]
  {
    if fs != [] {
      assert fs == [fs[0]] + fs[1..];
      KeptContents(fs[1..], coords);
    }
  }

  lemma {:induction false} KeptMembers(fs: seq<Feature>, coords: (int, int))
    ensures forall f | f in Kept(fs, coords) :: f in fs
  {
    if fs != [] {
      KeptMembers(fs[1..], coords);
    }
  }

  /** Leaving features out keeps the rest in start order. */
  lemma {:induction false} KeptSorted(fs: seq<Feature>, coords: (int, int))
    requires SortedByStart(fs)
    ensures SortedByStart(Kept(fs, coords))
  {
    if fs != [] {
      KeptSorted(fs[1..], coords);
      KeptContents(fs[1..], coords);
      var rest := Kept(fs[1..], coords);
      forall f | f in rest
        ensures fs[0].start <= f.start
      {
        assert f in multiset(rest);
        assert f in multiset(fs[1..]);
        var j :| 0 <= j < |fs[1..]| && fs[1..][j] == f;
        assert fs[j + 1] == f;
      }
    }
  }

  /** How many features match `coords`. */
  function MatchCount(fs: seq<Feature>, coords: (int, int)): nat {
    if fs == [] then 0
    else (if Matches(fs[0], coords) then 1 else 0) + MatchCount(fs[1..], coords)
  }

  /** No feature matches exactly when the count is zero. */
  lemma {:induction false} MatchCountZeroIff(fs: seq<Feature>, coords: (int, int))
    ensures MatchCount(fs, coords) == 0 <==> forall k :: 0 <= k < |fs| ==> !Matches(fs[k], coords)
  {
    if fs != [] {
      MatchCountZeroIff(fs[1..], coords);
      assert forall k :: 1 <= k < |fs| ==> fs[k] == fs[1..][k - 1];
    }
  }

  /** Each feature is either kept or counted as a match. */
  lemma {:induction false} KeptCount(fs: seq<Feature>, coords: (int, int))
    ensures |Kept(fs, coords)| + MatchCount(fs, coords) == |fs|
  {
    if fs != [] {
      KeptCount(fs[1..], coords);
    }
  }

  lemma {:induction false} MatchCountSnoc(fs: seq<Feature>, f: Feature, coords: (int, int))
    ensures MatchCount(fs + [f], coords) == MatchCount(fs, coords) + (if Matches(f, coords) then 1 else 0)
  {
    if fs == [] {
      assert [f][1..] == [];
    } else {
      assert (fs + [f])[1..] == fs[1..] + [f];
      MatchCountSnoc(fs[1..], f, coords);
    }
  }

  /** What one turn of the skip loop moves from the unvisited suffix to the visited prefix. */
  lemma SkipLoopStep(fs: seq<Feature>, i: int, coords: (int, int))
    requires 0 <= i < |fs|
    ensures Matches(fs[i], coords) ==> Kept(fs[i..], coords) == Kept(fs[i + 1..], coords)
    ensures !Matches(fs[i], coords) ==> Kept(fs[i..], coords) == [fs[i]] + Kept(fs[i + 1..], coords)
    ensures MatchCount(fs[..i + 1], coords) == MatchCount(fs[..i], coords) + (if Matches(fs[i], coords) then 1 else 0)
  {
    assert fs[i..][0] == fs[i] && fs[i..][1..] == fs[i + 1..];
    assert [] + Kept(fs[i + 1..], coords) == Kept(fs[i + 1..], coords);
    assert fs[..i + 1] == fs[..i] + [fs[i]];
    MatchCountSnoc(fs[..i], fs[i], coords);
  }

  /** A kept exon on a missing chromosome makes the rest of the skip build fail. */
  lemma SkipLoopMissing(fs: seq<Feature>, i: int, coords: (int, int), genome: Genome, done: seq<Base>)
    requires 0 <= i < |fs| && !Matches(fs[i], coords) && fs[i].chrom !in genome
    ensures Prepend(done, Assemble(Kept(fs[i..], coords), genome, Alternative)) == Err(MissingChromosome(fs[i].chrom))
  {
    SkipLoopStep(fs, i, coords);
    AssembleCons(fs[i], Kept(fs[i + 1..], coords), genome, Alternative);
  }

  /** A kept exon on a present chromosome moves its strand-corrected slice into the joined prefix. */
  lemma SkipLoopAppend(fs: seq<Feature>, i: int, coords: (int, int), genome: Genome, done: seq<Base>)
    requires 0 <= i < |fs| && !Matches(fs[i], coords) && fs[i].chrom in genome
    ensures Prepend(done, Assemble(Kept(fs[i..], coords), genome, Alternative))
            == Prepend(done + Orient(PySlice(genome[fs[i].chrom], fs[i].start - 1, fs[i].end), fs[i].strand, Alternative),
                       Assemble(Kept(fs[i + 1..], coords), genome, Alternative))
  {
    var f := fs[i];
    SkipLoopStep(fs, i, coords);
    AssembleCons(f, Kept(fs[i + 1..], coords), genome, Alternative);
    PieceOnPresentChromosome(genome, f, Alternative);
    PrependPrepend(done, Orient(PySlice(genome[f.chrom], f.start - 1, f.end), f.strand, Alternative),
                   Assemble(Kept(fs[i + 1..], coords), genome, Alternative));
  }

  /** One kept exon's loop step, stated on the pieces joined so far. */
  lemma SkipLoopKeep(fs: seq<Feature>, i: int, coords: (int, int), genome: Genome, pieces: seq<seq<Base>>, s: seq<Base>)
    requires 0 <= i < |fs| && !Matches(fs[i], coords) && fs[i].chrom in genome
    requires s == Orient(PySlice(genome[fs[i].chrom], fs[i].start - 1, fs[i].end), fs[i].strand, Alternative)
    ensures Prepend(Join(pieces), Assemble(Kept(fs[i..], coords), genome, Alternative))
            == Prepend(Join(pieces + [s]), Assemble(Kept(fs[i + 1..], coords), genome, Alternative))
  {
    SkipLoopAppend(fs, i, coords, genome, Join(pieces));
    JoinSnoc(pieces, s);
  }

  /**
   * The exclusion isoform: every exon except those matching the pair, in start order, joined;
   * it fails when no exon matches. A missing chromosome is raised first, during the loop.
   */
  function SkippedSequence(tx: Transcript, coords: (int, int), genome: Genome): Result<seq<Base>, Error> {
    SkipFrom(Children(tx, Exon), coords, genome)
  }

  /** The exclusion build over an already ordered exon list. */
  function SkipFrom(exons: seq<Feature>, coords: (int, int), genome: Genome): Result<seq<Base>, Error> {
    match Assemble(Kept(exons, coords), genome, Alternative)
    case Err(e) => Err(e)
    case Ok(s) => if MatchCount(exons, coords) > 0 then Ok(s) else Err(ExonNotFound)
  }

  /**
   * Whatever the genome holds, the exon-not-found error is only raised when no exon has both the
   * start and the end of the pair: a missing chromosome is reported as such.
   */
  lemma NotFoundMeansNoMatch(exons: seq<Feature>, coords: (int, int), genome: Genome)
    ensures SkipFrom(exons, coords, genome) == Err(ExonNotFound) ==>
              forall k :: 0 <= k < |exons| ==> !Matches(exons[k], coords)
  {
    var kept := Kept(exons, coords);
    if Assemble(kept, genome, Alternative).Err? {
      AssembleFailsAtFirstMissing(kept, genome, Alternative);
    }
    MatchCountZeroIff(exons, coords);
  }

  /**
   * When the chromosome of every exon that would be kept is present (a matching exon is never
   * fetched), the skip build fails exactly when no exon has both the start and the end of the
   * pair (a partial overlap is not a match), and a successful build always left out at least one
   * exon.
   */
  lemma SkipFailsIffNoExonMatches(tx: Transcript, coords: (int, int), genome: Genome)
    requires forall f | f in tx.features && f.featureType == Exon && !Matches(f, coords) :: f.chrom in genome
    ensures var exons := Children(tx, Exon);
            var r := SkippedSequence(tx, coords, genome);
            (r == Err(ExonNotFound) <==> forall k :: 0 <= k < |exons| ==> !Matches(exons[k], coords)) &&
            (r.Ok? <==> exists k :: 0 <= k < |exons| && Matches(exons[k], coords)) &&
            (r.Ok? ==> |Kept(exons, coords)| < |exons|)
  {
    var exons := Children(tx, Exon);
    var kept := Kept(exons, coords);
    ChildrenSpec(tx, Exon);
    KeptCount(exons, coords);
    MatchCountZeroIff(exons, coords);
    assert forall k :: 0 <= k < |kept| ==> kept[k].chrom in genome by {
      KeptMembers(exons, coords);
      KeptContents(exons, coords);
      forall k | 0 <= k < |kept|
        ensures kept[k].chrom in genome
      {
        assert kept[k] in kept && kept[k] in exons;
      }
    }
    AssembleSucceedsIffChromosomesPresent(kept, genome, Alternative);
  }

  /** Sum of the lengths of the features that match `coords`. */
  function MatchedLength(fs: seq<Feature>, coords: (int, int)): int {
    if fs == [] then 0
    else (if Matches(fs[0], coords) then FeatureLength(fs[0]) else 0) + MatchedLength(fs[1..], coords)
  }

  lemma {:induction false} MatchedLengthIsCountTimesLength(fs: seq<Feature>, coords: (int, int))
    ensures MatchedLength(fs, coords) == MatchCount(fs, coords) * (coords.1 - coords.0 + 1)
  {
    if fs != [] {
      MatchedLengthIsCountTimesLength(fs[1..], coords);
      var len := coords.1 - coords.0 + 1;
      var m := MatchCount(fs[1..], coords);
      assert (m + 1) * len == m * len + len;
    }
  }

  lemma {:induction false} TotalLengthSplit(fs: seq<Feature>, coords: (int, int))
    ensures TotalLength(fs) == TotalLength(Kept(fs, coords)) + MatchedLength(fs, coords)
  {
    if fs != [] {
      TotalLengthSplit(fs[1..], coords);
      var rest := Kept(fs[1..], coords);
      if !Matches(fs[0], coords) {
        assert Kept(fs, coords) == [fs[0]] + rest;
        assert ([fs[0]] + rest)[1..] == rest;
      } else {
        assert Kept(fs, coords) == [] + rest == rest;
      }
    }
  }

  /**
   * With every exon in bounds, a successful skip build is as long as all exons together less
   * every matching exon (each `end - start + 1` long).
   */
  lemma SkippedLength(tx: Transcript, coords: (int, int), genome: Genome)
    requires AllInBounds(genome, Children(tx, Exon))
    requires SkippedSequence(tx, coords, genome).Ok?
    ensures var exons := Children(tx, Exon);
            MatchCount(exons, coords) >= 1 &&
            |SkippedSequence(tx, coords, genome).value|
              == TotalLength(exons) - MatchCount(exons, coords) * (coords.1 - coords.0 + 1)
  {
    var exons := Children(tx, Exon);
    var kept := Kept(exons, coords);
    assert AllInBounds(genome, kept) by {
      KeptMembers(exons, coords);
      forall k | 0 <= k < |kept|
        ensures InBounds(genome, kept[k])
      {
        assert kept[k] in exons;
      }
    }
    AssembleLength(kept, genome, Alternative);
    TotalLengthSplit(exons, coords);
    MatchedLengthIsCountTimesLength(exons, coords);
  }

  /** With every CDS feature in bounds the reference is as long as the CDS features together. */
  lemma ReferenceLength(tx: Transcript, genome: Genome)
    requires AllInBounds(genome, Children(tx, CDS))
    ensures ReferenceSequence(tx, genome).Ok?
    ensures |ReferenceSequence(tx, genome).value| == TotalLength(Children(tx, CDS))
  {
    AssembleLength(Children(tx, CDS), genome, Reference);
  }

  lemma {:induction false} OfTypeIgnoresOtherTypes(fs: seq<Feature>, f: Feature, t: FeatureType)
    requires f.featureType != t
    ensures OfType(fs + [f], t) == OfType(fs, t)
  {
    if fs == [] {
      assert OfType([f], t) == [] + OfType([f][1..], t);
    } else {
      assert (fs + [f])[1..] == fs[1..] + [f];
      OfTypeIgnoresOtherTypes(fs[1..], f, t);
    }
  }

  /** The reference build reads only CDS features: another feature of any other type changes nothing. */
  lemma ReferenceIgnoresNonCdsFeatures(tx: Transcript, f: Feature, genome: Genome)
    requires f.featureType != CDS
    ensures ReferenceSequence(Transcript(tx.id, tx.features + [f]), genome) == ReferenceSequence(tx, genome)
  {
    OfTypeIgnoresOtherTypes(tx.features, f, CDS);
  }

  /** The skip build reads only exon features: a CDS or other feature added changes nothing. */
  lemma SkippedIgnoresNonExonFeatures(tx: Transcript, coords: (int, int), f: Feature, genome: Genome)
    requires f.featureType != Exon
    ensures SkippedSequence(Transcript(tx.id, tx.features + [f]), coords, genome) == SkippedSequence(tx, coords, genome)
  {
    OfTypeIgnoresOtherTypes(tx.features, f, Exon);
  }

  /** `extract_transcript_sequence`. */
  method ExtractTranscriptSequence(tx: Transcript, genome: Genome) returns (r: Result<seq<Base>, Error>)
    ensures r == ReferenceSequence(tx, genome)
  {
    r := BuildReference(Children(tx, CDS), genome);
  }

  /** The loop of `extract_transcript_sequence`, over the CDS segments in start order. */
  method BuildReference(exons: seq<Feature>, genome: Genome) returns (r: Result<seq<Base>, Error>)
    ensures r == Assemble(exons, genome, Reference)
  {
    var exonSeqs: seq<seq<Base>> := [];
    assert exons[0..] == exons;
    PrependEmpty(Assemble(exons, genome, Reference));
    for i := 0 to |exons|
      invariant Assemble(exons, genome, Reference)
                == Prepend(Join(exonSeqs), Assemble(exons[i..], genome, Reference))
    {
      var exon := exons[i];
      if exon.chrom !in genome {
        AssembleStep(exons, i, genome, Reference);
        return Err(MissingChromosome(exon.chrom));
      }
      var rawSeq := PySlice(genome[exon.chrom], exon.start - 1, exon.end);
      var s := if exon.strand == '+' then rawSeq else ReverseComplement(rawSeq);
      BuildLoopKeep(exons, i, genome, exonSeqs, s);
      exonSeqs := exonSeqs + [s];
    }
    assert exons[|exons|..] == [];
    assert Join(exonSeqs) + [] == Join(exonSeqs);
    r := Ok(Join(exonSeqs));
  }

  /** One segment's step of the reference loop, stated on the pieces joined so far. */
  lemma BuildLoopKeep(segs: seq<Feature>, i: int, genome: Genome, pieces: seq<seq<Base>>, s: seq<Base>)
    requires 0 <= i < |segs| && segs[i].chrom in genome
    requires s == Orient(PySlice(genome[segs[i].chrom], segs[i].start - 1, segs[i].end), segs[i].strand, Reference)
    ensures Prepend(Join(pieces), Assemble(segs[i..], genome, Reference))
            == Prepend(Join(pieces + [s]), Assemble(segs[i + 1..], genome, Reference))
  {
    AssembleStep(segs, i, genome, Reference);
    PieceOnPresentChromosome(genome, segs[i], Reference);
    PrependPrepend(Join(pieces), s, Assemble(segs[i + 1..], genome, Reference));
    JoinSnoc(pieces, s);
  }

  /** `simulate_exon_skipping`. */
  method SimulateExonSkipping(tx: Transcript, skipCoords: (int, int), genome: Genome)
    returns (r: Result<seq<Base>, Error>)
    ensures r == SkippedSequence(tx, skipCoords, genome)
  {
    r := SkipExons(Children(tx, Exon), skipCoords, genome);
  }

  /** The loop of `simulate_exon_skipping`, over the exons in start order. */
  method SkipExons(exons: seq<Feature>, skipCoords: (int, int), genome: Genome)
    returns (r: Result<seq<Base>, Error>)
    ensures r == SkipFrom(exons, skipCoords, genome)
  {
    var exonSeqs: seq<seq<Base>> := [];
    var foundExon := false;
    assert exons[0..] == exons && exons[..0] == [];
    PrependEmpty(Assemble(Kept(exons, skipCoords), genome, Alternative));
    for i := 0 to |exons|
      invariant foundExon <==> MatchCount(exons[..i], skipCoords) > 0
      invariant Assemble(Kept(exons, skipCoords), genome, Alternative)
                == Prepend(Join(exonSeqs), Assemble(Kept(exons[i..], skipCoords), genome, Alternative))
    {
      var exon := exons[i];
      SkipLoopStep(exons, i, skipCoords);
      if exon.start == skipCoords.0 && exon.end == skipCoords.1 {
        foundExon := true;
      } else if exon.chrom !in genome {
        SkipLoopMissing(exons, i, skipCoords, genome, Join(exonSeqs));
        return Err(MissingChromosome(exon.chrom));
      } else {
        var rawSeq := PySlice(genome[exon.chrom], exon.start - 1, exon.end);
        var s := rawSeq;
        if exon.strand == '-' {
          s := ReverseComplement(s);
        }
        assert s == Orient(rawSeq, exon.strand, Alternative);
        SkipLoopKeep(exons, i, skipCoords, genome, exonSeqs, s);
        exonSeqs := exonSeqs + [s];
      }
    }
    assert exons[|exons|..] == [] && exons[..|exons|] == exons;
    assert Join(exonSeqs) + [] == Join(exonSeqs);
    if !foundExon {
      return Err(ExonNotFound);
    }
    r := Ok(Join(exonSeqs));
  }
}
