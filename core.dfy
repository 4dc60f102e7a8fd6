/**
 * The per-event, per-transcript step of the analysis: the splice type picks the event's
 * coordinate columns, every transcript of the event's gene is rebuilt with and without the
 * event's exon, and the pair yields a result row, a skip record, or nothing.
 */
module Core {
  import opened Wrappers
  import opened Nucleotides
  import opened GenomeStore
  import opened FeatureStore
  import opened SplicingSimulator
  import opened OrfAnalysis

  datatype SpliceType = SE | RI | MXE | A3SS | A5SS

  /** `coord_keys`: the column holding the exon's 0-based start and the one holding its end. */
  function CoordKeys(t: SpliceType): (string, string) {
    match t
    case SE => ("exonStart_0base", "exonEnd")
    case RI => ("riExonStart_0base", "riExonEnd")
    case MXE => ("1stExonStart_0base", "1stExonEnd")
    case A3SS => ("longExonStart_0base", "longExonEnd")
    case A5SS => ("longExonStart_0base", "longExonEnd")
  }

  /**
   * Two splice types read the same columns exactly when they are the same type or are A3SS and
   * A5SS, which share the long exon's columns; start and end are always different columns.
   */
  lemma CoordKeysShared(t: SpliceType, u: SpliceType)
    ensures CoordKeys(t) == CoordKeys(u) <==> t == u || {t, u} == {A3SS, A5SS}
    ensures CoordKeys(t).0 != CoordKeys(t).1
  {
  }

  /** One row of the merged event table: gene, coordinate columns, and the inclusion-level difference. */
  datatype EventRow = EventRow(geneId: string, columns: map<string, int>, incLevelDifference: real)

  /** The loader only returns tables that hold both coordinate columns of the splice type. */
  predicate HasCoordColumns(row: EventRow, t: SpliceType) {
    CoordKeys(t).0 in row.columns && CoordKeys(t).1 in row.columns
  }

  /** The exon to skip in the annotation's 1-based inclusive coordinates. */
  function SkipCoords(row: EventRow, t: SpliceType): (int, int)
    requires HasCoordColumns(row, t)
  {
    (row.columns[CoordKeys(t).0] + 1, row.columns[CoordKeys(t).1])
  }

  /**
   * The shift from 0-based start to 1-based start selects the same bases: an exon matching the
   * event's pair, fetched from the genome, is the 0-based half-open range the columns name.
   */
  lemma SkipCoordsSelectColumnRange(row: EventRow, t: SpliceType, f: Feature, genome: Genome)
    requires HasCoordColumns(row, t)
    requires Matches(f, SkipCoords(row, t)) && InBounds(genome, f)
    ensures Fetch(genome, f) == Ok(genome[f.chrom][row.columns[CoordKeys(t).0]..row.columns[CoordKeys(t).1]])
    ensures FeatureLength(f) == row.columns[CoordKeys(t).1] - row.columns[CoordKeys(t).0]
  {
  }

  datatype Direction = Inclusion | Exclusion

  /** `AS_Direction`: inclusion for a positive difference, exclusion otherwise. */
  function DirectionOf(dpsi: real): Direction {
    if dpsi > 0.0 then Inclusion else Exclusion
  }

  /** A zero difference is labelled exclusion, and opposite non-zero differences get opposite labels. */
  lemma DirectionSign(dpsi: real)
    ensures DirectionOf(dpsi) == Inclusion <==> dpsi > 0.0
    ensures DirectionOf(0.0) == Exclusion
    ensures dpsi != 0.0 ==> DirectionOf(-dpsi) != DirectionOf(dpsi)
  {
  }

  /** One line of the results table. */
  datatype ResultRow = ResultRow(
    geneId: string, transcriptId: string, exonStart: int, exonEnd: int,
    refLenAA: int, altLenAA: int, truncationAA: int,
    disrupted: bool, likelyNmd: bool, direction: Direction, incLevelDifference: real)

  /** One line of the skipped-transcripts log. */
  datatype SkipRecord = SkipRecord(geneId: string, transcriptId: string, exonStart: int, exonEnd: int, reason: string)

  /**
   * What every result row satisfies: the truncation is the difference of the two lengths, the
   * pair is disrupted exactly past the threshold, NMD is only called for a disrupted pair, and
   * the direction label follows the sign of the difference.
   */
  predicate WellFormed(row: ResultRow) {
    0 <= row.altLenAA && 0 <= row.refLenAA &&
    row.truncationAA == row.refLenAA - row.altLenAA &&
    (row.disrupted <==> row.truncationAA > DisruptionThreshold) &&
    (row.likelyNmd ==> row.disrupted) &&
    (row.direction == Inclusion <==> row.incLevelDifference > 0.0)
  }

  /**
   * The classification of a pair whose two sequences were built: both proteins translated to
   * the first stop, disruption by length, and NMD only for a disrupted pair, judged from the
   * alternative sequence's first stop and the reference CDS model's last junction.
   */
  function Classify(geneId: string, tx: Transcript, coords: (int, int), dpsi: real,
                    refSeq: seq<Base>, altSeq: seq<Base>): (row: ResultRow)
    ensures WellFormed(row)
    ensures row.geneId == geneId && row.transcriptId == tx.id && (row.exonStart, row.exonEnd) == coords
    ensures row.refLenAA == |TranslateCds(refSeq)| && row.altLenAA == |TranslateCds(altSeq)|
    ensures row.likelyNmd <==>
              row.disrupted && CheckNmdWithJunction(FindStopPosition(altSeq), LastCdsJunction(tx))
    ensures row.incLevelDifference == dpsi
  {
    var refProt := TranslateCds(refSeq);
    var altProt := TranslateCds(altSeq);
    var disrupted := CheckOrfDisruption(refProt, altProt);
    var likelyNmd := disrupted && CheckNmdWithJunction(FindStopPosition(altSeq), LastCdsJunction(tx));
    ResultRow(geneId, tx.id, coords.0, coords.1, |refProt|, |altProt|, |refProt| - |altProt|,
              disrupted, likelyNmd, DirectionOf(dpsi), dpsi)
  }

  /** What one (transcript, event) pair leaves behind. */
  datatype PairOutcome =
    | Completed(row: ResultRow)   // a result row
    | Skipped(record: SkipRecord) // a skip record: the event's exon is not among the exons
    | Abandoned                   // any other exception: nothing is recorded

  /** The body of the inner loop for one transcript. */
  function ProcessPair(geneId: string, tx: Transcript, coords: (int, int), dpsi: real, genome: Genome): PairOutcome {
    match ReferenceSequence(tx, genome)
    case Err(_) => Abandoned
    case Ok(refSeq) =>
      match SkippedSequence(tx, coords, genome)
      case Err(e) =>
        if e == ExonNotFound then Skipped(SkipRecord(geneId, tx.id, coords.0, coords.1, ExonNotFoundMessage))
        else Abandoned
      case Ok(altSeq) => Completed(Classify(geneId, tx, coords, dpsi, refSeq, altSeq))
  }

  /** A record of either kind is about the pair it came from, and a result row is well formed. */
  predicate Consistent(o: PairOutcome, geneId: string, coords: (int, int)) {
    (o.Completed? ==> WellFormed(o.row) && o.row.geneId == geneId && (o.row.exonStart, o.row.exonEnd) == coords) &&
    (o.Skipped? ==> o.record.reason == ExonNotFoundMessage && o.record.geneId == geneId &&
                    (o.record.exonStart, o.record.exonEnd) == coords)
  }

  lemma ProcessPairConsistent(geneId: string, tx: Transcript, coords: (int, int), dpsi: real, genome: Genome)
    ensures Consistent(ProcessPair(geneId, tx, coords, dpsi, genome), geneId, coords)
  {
  }

  /**
   * With every chromosome the transcript's CDS and exon features name present in the genome, a
   * pair is never abandoned, and it is skipped exactly when no exon has both the start and
   * the end of the event's pair.
   */
  lemma ProcessPairOnCompleteGenome(geneId: string, tx: Transcript, coords: (int, int), dpsi: real, genome: Genome)
    requires forall f | f in tx.features && (f.featureType == CDS || f.featureType == Exon) :: f.chrom in genome
    ensures var o := ProcessPair(geneId, tx, coords, dpsi, genome);
            var exons := Children(tx, Exon);
            !o.Abandoned? &&
            (o.Skipped? <==> forall k :: 0 <= k < |exons| ==> !Matches(exons[k], coords))
  {
    ChildrenSpec(tx, CDS);
    var cds := Children(tx, CDS);
    assert forall k :: 0 <= k < |cds| ==> cds[k].chrom in genome by {
      forall k | 0 <= k < |cds|
        ensures cds[k].chrom in genome
      {
        assert cds[k] in cds;
      }
    }
    AssembleSucceedsIffChromosomesPresent(cds, genome, Reference);
    SkipFailsIffNoExonMatches(tx, coords, genome);
  }

  /** A missing chromosome in either build abandons the pair. */
  lemma ProcessPairAbandoned(geneId: string, tx: Transcript, coords: (int, int), dpsi: real, genome: Genome)
    ensures ProcessPair(geneId, tx, coords, dpsi, genome).Abandoned? <==>
              ReferenceSequence(tx, genome).Err? ||
              (SkippedSequence(tx, coords, genome).Err? && SkippedSequence(tx, coords, genome).error.MissingChromosome?)
  {
  }

  /** The outcome of a pair whose reference was built, given the result of its skip build. */
  lemma ProcessPairBranches(geneId: string, tx: Transcript, coords: (int, int), dpsi: real, genome: Genome,
                            refSeq: seq<Base>, altSeq: Result<seq<Base>, Error>)
    requires ReferenceSequence(tx, genome) == Ok(refSeq) && altSeq == SkippedSequence(tx, coords, genome)
    ensures var o := ProcessPair(geneId, tx, coords, dpsi, genome);
            (altSeq.Err? && altSeq.error == ExonNotFound ==>
               o == Skipped(SkipRecord(geneId, tx.id, coords.0, coords.1, ExonNotFoundMessage))) &&
            (altSeq.Err? && altSeq.error != ExonNotFound ==> o == Abandoned) &&
            (altSeq.Ok? ==> o == Completed(Classify(geneId, tx, coords, dpsi, refSeq, altSeq.value)))
  {
  }

  /** The outcomes of the pairs of one event with each of `txs`, in order. */
  function PairOutcomes(row: EventRow, t: SpliceType, txs: seq<Transcript>, genome: Genome): (os: seq<PairOutcome>)
    requires HasCoordColumns(row, t)
    ensures |os| == |txs|
  {
    if txs == [] then []
    else
      PairOutcomes(row, t, txs[..|txs| - 1], genome)
        + [ProcessPair(row.geneId, txs[|txs| - 1], SkipCoords(row, t), row.incLevelDifference, genome)]
  }

  lemma PairOutcomesStep(row: EventRow, t: SpliceType, txs: seq<Transcript>, j: int, genome: Genome)
    requires HasCoordColumns(row, t) && 0 <= j < |txs|
    ensures PairOutcomes(row, t, txs[..j], genome)
              + [ProcessPair(row.geneId, txs[j], SkipCoords(row, t), row.incLevelDifference, genome)]
            == PairOutcomes(row, t, txs[..j + 1], genome)
  {
    assert txs[..j + 1][..j] == txs[..j];
  }

  /** The outcomes of one event: none when its gene is not in the store. */
  function EventOutcomes(row: EventRow, t: SpliceType, store: Store, genome: Genome): seq<PairOutcome>
    requires HasCoordColumns(row, t)
  {
    match TranscriptsForGene(store, row.geneId)
    case None => []
    case Some(txs) => PairOutcomes(row, t, txs, genome)
  }

  predicate AllHaveCoordColumns(events: seq<EventRow>, t: SpliceType) {
    forall k :: 0 <= k < |events| ==> HasCoordColumns(events[k], t)
  }

  /** The outcomes of every pair, event by event. */
  function AllOutcomes(events: seq<EventRow>, t: SpliceType, store: Store, genome: Genome): seq<PairOutcome>
    requires AllHaveCoordColumns(events, t)
  {
    if events == [] then []
    else AllOutcomes(events[..|events| - 1], t, store, genome) + EventOutcomes(events[|events| - 1], t, store, genome)
  }

  lemma AllOutcomesStep(events: seq<EventRow>, i: int, t: SpliceType, store: Store, genome: Genome)
    requires AllHaveCoordColumns(events, t) && 0 <= i < |events|
    ensures AllHaveCoordColumns(events[..i], t) && AllHaveCoordColumns(events[..i + 1], t)
    ensures AllOutcomes(events[..i + 1], t, store, genome)
            == AllOutcomes(events[..i], t, store, genome) + EventOutcomes(events[i], t, store, genome)
  {
    assert events[..i + 1][..i] == events[..i];
  }

  /** The result rows of the completed pairs, in order. */
  function Rows(os: seq<PairOutcome>): seq<ResultRow> {
    if os == [] then []
    else Rows(os[..|os| - 1]) + (if os[|os| - 1].Completed? then [os[|os| - 1].row] else [])
  }

  /** The skip records of the skipped pairs, in order. */
  function Skips(os: seq<PairOutcome>): seq<SkipRecord> {
    if os == [] then []
    else Skips(os[..|os| - 1]) + (if os[|os| - 1].Skipped? then [os[|os| - 1].record] else [])
  }

  function AbandonedCount(os: seq<PairOutcome>): nat {
    if os == [] then 0
    else AbandonedCount(os[..|os| - 1]) + (if os[|os| - 1].Abandoned? then 1 else 0)
  }

  /** Number of (transcript, event) pairs: the transcripts of each event's gene, if it is known. */
  function PairCount(events: seq<EventRow>, store: Store): nat {
    if events == [] then 0
    else
      PairCount(events[..|events| - 1], store) +
      (match TranscriptsForGene(store, events[|events| - 1].geneId) case None => 0 case Some(txs) => |txs|)
  }

  lemma OutcomesSnoc(os: seq<PairOutcome>, o: PairOutcome)
    ensures Rows(os + [o]) == Rows(os) + (if o.Completed? then [o.row] else [])
    ensures Skips(os + [o]) == Skips(os) + (if o.Skipped? then [o.record] else [])
    ensures AbandonedCount(os + [o]) == AbandonedCount(os) + (if o.Abandoned? then 1 else 0)
  {
    assert (os + [o])[..|os|] == os;
  }

  lemma {:induction false} OutcomesAppend(a: seq<PairOutcome>, b: seq<PairOutcome>)
    ensures Rows(a + b) == Rows(a) + Rows(b)
    ensures Skips(a + b) == Skips(a) + Skips(b)
    ensures AbandonedCount(a + b) == AbandonedCount(a) + AbandonedCount(b)
  {
    if b == [] {
      assert a + b == a;
    } else {
      var init, last := b[..|b| - 1], b[|b| - 1];
      assert b == init + [last];
      assert a + b == (a + init) + [last];
      OutcomesAppend(a, init);
      OutcomesSnoc(a + init, last);
      OutcomesSnoc(init, last);
    }
  }

  /**
   * Exactly one thing happens per pair: every outcome is a result row, a skip record or
   * nothing, so rows, skip records and abandoned pairs add up to the number of outcomes.
   */
  lemma {:induction false} OutcomeCounts(os: seq<PairOutcome>)
    ensures |Rows(os)| + |Skips(os)| + AbandonedCount(os) == |os|
  {
    if os != [] {
      var n := |os|;
      OutcomeCounts(os[..n - 1]);
      assert os == os[..n - 1] + [os[n - 1]];
      OutcomesSnoc(os[..n - 1], os[n - 1]);
    }
  }

  /** One outcome per pair. */
  lemma {:induction false} AllOutcomesCount(events: seq<EventRow>, t: SpliceType, store: Store, genome: Genome)
    requires AllHaveCoordColumns(events, t)
    ensures |AllOutcomes(events, t, store, genome)| == PairCount(events, store)
  {
    if events != [] {
      AllOutcomesCount(events[..|events| - 1], t, store, genome);
    }
  }

  /** An event whose gene is not in the store adds neither result rows nor skip records. */
  lemma MissingGeneAddsNothing(events: seq<EventRow>, row: EventRow, t: SpliceType, store: Store, genome: Genome)
    requires AllHaveCoordColumns(events, t) && HasCoordColumns(row, t)
    requires row.geneId !in store.transcriptsOf
    ensures AllHaveCoordColumns(events + [row], t)
    ensures Rows(AllOutcomes(events + [row], t, store, genome)) == Rows(AllOutcomes(events, t, store, genome))
    ensures Skips(AllOutcomes(events + [row], t, store, genome)) == Skips(AllOutcomes(events, t, store, genome))
  {
    assert (events + [row])[..|events|] == events;
    assert EventOutcomes(row, t, store, genome) == [];
    assert AllOutcomes(events, t, store, genome) + [] == AllOutcomes(events, t, store, genome);
    assert AllOutcomes(events + [row], t, store, genome) == AllOutcomes(events, t, store, genome) + [];
  }

  /** Every outcome of an event's pairs is consistent with the event's gene and coordinates. */
  lemma {:induction false} PairOutcomesConsistent(row: EventRow, t: SpliceType, txs: seq<Transcript>, genome: Genome)
    requires HasCoordColumns(row, t)
    ensures forall k :: 0 <= k < |txs| ==>
              Consistent(PairOutcomes(row, t, txs, genome)[k], row.geneId, SkipCoords(row, t))
  {
    if txs != [] {
      var n := |txs|;
      PairOutcomesConsistent(row, t, txs[..n - 1], genome);
      ProcessPairConsistent(row.geneId, txs[n - 1], SkipCoords(row, t), row.incLevelDifference, genome);
    }
  }

  /** Every completed outcome carries a well-formed row. */
  predicate CompletedWellFormed(os: seq<PairOutcome>) {
    forall k :: 0 <= k < |os| && os[k].Completed? ==> WellFormed(os[k].row)
  }

  /** Every result row from a list of outcomes whose completed rows are well formed is well formed. */
  lemma {:induction false} RowsWellFormed(os: seq<PairOutcome>)
    requires CompletedWellFormed(os)
    ensures forall r | r in Rows(os) :: WellFormed(r)
  {
    if os != [] {
      RowsWellFormed(os[..|os| - 1]);
    }
  }

  /** Every outcome of the whole run comes from a well-formed classification. */
  lemma {:induction false} AllOutcomesWellFormed(events: seq<EventRow>, t: SpliceType, store: Store, genome: Genome)
    requires AllHaveCoordColumns(events, t)
    ensures CompletedWellFormed(AllOutcomes(events, t, store, genome))
  {
    if events != [] {
      var n := |events|;
      var row := events[n - 1];
      AllOutcomesWellFormed(events[..n - 1], t, store, genome);
      var prev := AllOutcomes(events[..n - 1], t, store, genome);
      var last := EventOutcomes(row, t, store, genome);
      var txs := TranscriptsForGene(store, row.geneId);
      if txs.Some? {
        PairOutcomesConsistent(row, t, txs.value, genome);
      }
      assert forall k :: 0 <= k < |last| && last[k].Completed? ==> WellFormed(last[k].row);
      var os := prev + last;
      assert os == AllOutcomes(events, t, store, genome);
      forall k | 0 <= k < |os| && os[k].Completed?
        ensures WellFormed(os[k].row)
      {
        if k >= |prev| {
          assert os[k] == last[k - |prev|];
        } else {
          assert os[k] == prev[k];
        }
      }
    }
  }

  /**
   * The body of the inner loop of `run_analysis` for one transcript: build the reference, then
   * the skip sequence, and classify; the exon-not-found error becomes a skip record, and any
   * other error abandons the pair.
   */
  method ProcessTranscript(geneId: string, tx: Transcript, skipCoords: (int, int), dpsi: real, genome: Genome)
    returns (outcome: PairOutcome)
    ensures outcome == ProcessPair(geneId, tx, skipCoords, dpsi, genome)
  {
    var refSeq := ExtractTranscriptSequence(tx, genome);
    if refSeq.Err? {
      return Abandoned;
    }
    var altSeq := SimulateExonSkipping(tx, skipCoords, genome);
    ProcessPairBranches(geneId, tx, skipCoords, dpsi, genome, refSeq.value, altSeq);
    if altSeq.Err? {
      if altSeq.error == ExonNotFound {
        return Skipped(SkipRecord(geneId, tx.id, skipCoords.0, skipCoords.1, ExonNotFoundMessage));
      }
      return Abandoned;
    }
    var result := Classify(geneId, tx, skipCoords, dpsi, refSeq.value, altSeq.value);
    outcome := Completed(result);
  }

  /**
   * The inner loop of `run_analysis`: every transcript of one event's gene, in order, appending
   * to the results table and to the skip log.
   */
  method ProcessEvent(row: EventRow, t: SpliceType, transcripts: seq<Transcript>, genome: Genome)
    returns (results: seq<ResultRow>, skipped: seq<SkipRecord>)
    requires HasCoordColumns(row, t)
    ensures results == Rows(PairOutcomes(row, t, transcripts, genome))
    ensures skipped == Skips(PairOutcomes(row, t, transcripts, genome))
  {
    var keys := CoordKeys(t);
    var geneId := row.geneId;
    var exonStart := row.columns[keys.0] + 1;
    var exonEnd := row.columns[keys.1];
    var skipCoords := (exonStart, exonEnd);
    assert skipCoords == SkipCoords(row, t);
    var dpsi := row.incLevelDifference;
    results := [];
    skipped := [];
    ghost var outcomes: seq<PairOutcome> := [];
    assert transcripts[..0] == [];
    for j := 0 to |transcripts|
      invariant outcomes == PairOutcomes(row, t, transcripts[..j], genome)
      invariant results == Rows(outcomes) && skipped == Skips(outcomes)
    {
      var tx := transcripts[j];
      var outcome := ProcessTranscript(geneId, tx, skipCoords, dpsi, genome);
      PairOutcomesStep(row, t, transcripts, j, genome);
      OutcomesSnoc(outcomes, outcome);
      match outcome {
        case Completed(result) => results := results + [result];
        case Skipped(record) => skipped := skipped + [record];
        case Abandoned =>
      }
      outcomes := outcomes + [outcome];
    }
    assert transcripts[..|transcripts|] == transcripts;
  }

  /**
   * The loop of `run_analysis` over the events: an event whose gene lookup fails is passed over,
   * and the others add their transcripts' rows and skip records in order.
   */
  method RunAnalysis(events: seq<EventRow>, t: SpliceType, store: Store, genome: Genome)
    returns (results: seq<ResultRow>, skipped: seq<SkipRecord>)
    requires AllHaveCoordColumns(events, t)
    ensures results == Rows(AllOutcomes(events, t, store, genome))
    ensures skipped == Skips(AllOutcomes(events, t, store, genome))
  {
    results := [];
    skipped := [];
    ghost var outcomes: seq<PairOutcome> := [];
    for i := 0 to |events|
      invariant outcomes == AllOutcomes(events[..i], t, store, genome)
      invariant results == Rows(outcomes) && skipped == Skips(outcomes)
    {
      var row := events[i];
      AllOutcomesStep(events, i, t, store, genome);
      var found := TranscriptsForGene(store, row.geneId);
      if found.None? {
        assert outcomes + [] == outcomes;
        continue;
      }
      var eventResults, eventSkipped := ProcessEvent(row, t, found.value, genome);
      OutcomesAppend(outcomes, PairOutcomes(row, t, found.value, genome));
      results := results + eventResults;
      skipped := skipped + eventSkipped;
      outcomes := outcomes + PairOutcomes(row, t, found.value, genome);
    }
    assert events[..|events|] == events;
  }

  /**
   * The run as a whole: every result row is well formed, and the rows, skip records and
   * abandoned pairs account for every (transcript, event) pair exactly once.
   */
  lemma RunAnalysisSummary(events: seq<EventRow>, t: SpliceType, store: Store, genome: Genome)
    requires AllHaveCoordColumns(events, t)
    ensures var os := AllOutcomes(events, t, store, genome);
            (forall r | r in Rows(os) :: WellFormed(r)) &&
            |Rows(os)| + |Skips(os)| + AbandonedCount(os) == PairCount(events, store) &&
            (AbandonedCount(os) == 0 <==> |Rows(os)| + |Skips(os)| == PairCount(events, store))
  {
    var os := AllOutcomes(events, t, store, genome);
    AllOutcomesWellFormed(events, t, store, genome);
    RowsWellFormed(os);
    OutcomeCounts(os);
    AllOutcomesCount(events, t, store, genome);
  }
}
