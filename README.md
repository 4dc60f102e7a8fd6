# PTC/NMD analysis of splicing events, in Dafny

A model of the core of SNIPR's `ptc_analysis` package. For each splicing event (a row of a
filtered rMATS table) and each transcript of the event's gene, it does three things:

- it rebuilds two spliced sequences from the genome:
  - the *reference* isoform, from the transcript's CDS features;
  - the *alternative* isoform, from its exon features with the event's exon left out;
- it translates both to the first in-frame stop;
- it records one of two things:
  - a result row: reference and alternative protein lengths, truncation, whether the ORF is
    disrupted (more than 300 amino acids lost), whether the transcript is a likely NMD
    target (stop more than 50 nt upstream of the last CDS exon-exon junction) and the
    direction of the splicing change;
  - a skip record: the event's exon is not among the transcript's exons.

Modules, one per concept of the program:

- `Nucleotides`: bases `A C G T N`, complement and reverse complement.
- `GenomeStore`: the genome as a map from chromosome name to bases. Python's slice is
  modelled with its clamping (`PySlice`).
- `FeatureStore`: the annotation database as read-only values. Each transcript carries its
  features. `Children` filters the features by type and orders them by start, the way
  `db.children(..., order_by='start')` does. `TranscriptsForGene` looks up a gene and
  returns nothing when the gene is absent.
- `SplicingSimulator`: `extract_transcript_sequence` and `simulate_exon_skipping`. Each is a
  method with the source's loop, proved equal to a recursive specification (`Assemble`,
  `Kept`, `MatchCount`). The properties are proved about that specification.
- `GeneticCode`: NCBI translation table 1, with the ambiguity rule Biopython applies to a
  codon containing `N`.
- `OrfAnalysis`: `translate_cds`, `check_orf_disruption`, `find_stop_position`,
  `get_last_cds_junction` and `check_nmd_with_junction`, as functions with lemmas.
- `Core`: the `coord_keys` table and the event/transcript loop of `run_analysis`.
  - `ProcessTranscript` is the try block for one pair.
  - `ProcessEvent` is the loop over one gene's transcripts.
  - `RunAnalysis` is the loop over events.
  - They are proved against `ProcessPair` and `AllOutcomes`.
  - Every pair ends as `Completed` (a result row), `Skipped` (a skip record) or `Abandoned`:
    an exception was caught and printed, and nothing was recorded.

Errors are values:

- A chromosome missing from the genome is `MissingChromosome`. It stands for the `KeyError`
  that the outer `except Exception` catches, so the pair is abandoned in both builds.
- No matching exon is `ExonNotFound`, the `ValueError` that becomes a skip record.
- A gene missing from the store contributes no pairs.

The code's quirks are kept, not fixed:

- The reference build keeps a segment unchanged only on strand `+`, while the alternative
  build reverse-complements only on strand `-`. On `.` the two builds disagree, as shown by
  `OrientDiffersOnUnstrandedFeatures`.
- Segments stay in ascending start order on the minus strand.
- The alternative isoform is built from exons, UTRs included, while the reference is built
  from CDS features.

Two consequences of the code as written:

- With CDS lengths 300, 150 and 900 the last junction is 450, the sum of every length but the
  last (`OrfAnalysis.ThreeSegmentJunction`).
- The docstring of `check_orf_disruption` says "at least 300 amino acids shorter". The code
  tests `> 300`, so a loss of exactly 300 is not a disruption
  (`OrfAnalysis.OrfDisruptionThreshold`).

## Model

| member | source | states |
|---|---|---|
| Nucleotides.Complement | ptc_analysis/splicing_simulator.py:16 | a base's complement differs from it for A, C, G, T; N is its own complement |
| Nucleotides.ComplementInvolutive | ptc_analysis/splicing_simulator.py:16 | complementing twice gives the base back |
| Nucleotides.ReverseComplement | ptc_analysis/splicing_simulator.py:16 | same length as the input; position k holds the complement of position n-1-k |
| Nucleotides.ReverseComplementInvolutive | ptc_analysis/splicing_simulator.py:38-39 | reverse-complementing twice gives the sequence back |
| Nucleotides.ReverseComplementConcat | ptc_analysis/splicing_simulator.py:38-40 | the reverse complement of a + b is that of b followed by that of a, so correcting segments one by one is not the same as correcting the joined sequence |
| GenomeStore.ClampIndex | ptc_analysis/splicing_simulator.py:15 | a slice bound is clamped into 0..n, and one already in range is kept |
| GenomeStore.PySlice | ptc_analysis/splicing_simulator.py:15 | Python's `s[i:j]`: never longer than `s`; the ordinary slice for in-range bounds; empty when `0 <= j <= i` |
| FeatureStore.FeatureLength | ptc_analysis/orf_analysis.py:40 | definition: `end - start + 1`, the bases of a 1-based inclusive feature; the sum of these is `TotalLength` |
| FeatureStore.TotalLength | ptc_analysis/orf_analysis.py:40-43 | definition: the lengths summed first to last; its properties are proved in `TotalLengthAppend` and `TotalLengthSnoc` |
| FeatureStore.TotalLengthAppend | ptc_analysis/orf_analysis.py:40-43 | the summed feature length of a + b is the sum of the two sums |
| FeatureStore.TotalLengthSnoc | ptc_analysis/orf_analysis.py:40-43 | appending a feature adds its `end - start + 1` |
| FeatureStore.OfType | ptc_analysis/splicing_simulator.py:9 | only features of the requested type, each as often as in the transcript |
| FeatureStore.Insert | ptc_analysis/splicing_simulator.py:9 | inserting into a start-ordered list keeps it ordered and adds exactly that feature |
| FeatureStore.SortByStart | ptc_analysis/splicing_simulator.py:31 | the result is ordered by start and is a permutation of the input |
| FeatureStore.Children | ptc_analysis/splicing_simulator.py:9 | definition of `db.children(transcript, featuretype=t, order_by='start')`: the transcript's features of type t, stably sorted by start; its properties are proved in `ChildrenSpec` |
| FeatureStore.ChildrenSpec | ptc_analysis/orf_analysis.py:34 | the children of a type are start-ordered, of that type, from the transcript, and each occurs as often as in the transcript |
| FeatureStore.TranscriptsForGene | ptc_analysis/transcript_model.py:13-18 | none exactly when the gene is unknown, otherwise the gene's transcripts |
| SplicingSimulator.Orient | ptc_analysis/splicing_simulator.py:16 | strand correction never changes a segment's length |
| SplicingSimulator.OrientAgreesOnStrandedFeatures | ptc_analysis/splicing_simulator.py:38-39 | on `+` both builds keep the segment, on `-` both reverse-complement it |
| SplicingSimulator.OrientDiffersOnUnstrandedFeatures | ptc_analysis/splicing_simulator.py:16 | on any other strand the reference build reverse-complements and the alternative build does not |
| SplicingSimulator.Fetch | ptc_analysis/splicing_simulator.py:15 | fails exactly on a missing chromosome, naming it; in bounds it is bases `start-1 .. end-1`, `end - start + 1` of them |
| SplicingSimulator.Piece | ptc_analysis/splicing_simulator.py:10-17 | definition: one segment fetched as `genome[chrom][start - 1:end]` and strand-corrected, or the KeyError of a missing chromosome; its properties are proved in `PieceOnPresentChromosome` and `PieceInBounds` |
| SplicingSimulator.PieceOnPresentChromosome | ptc_analysis/splicing_simulator.py:15-16 | a segment on a present chromosome contributes its clamped slice, strand-corrected |
| SplicingSimulator.PieceInBounds | ptc_analysis/splicing_simulator.py:36-39 | an in-bounds segment contributes exactly its 1-based inclusive range, strand-corrected |
| SplicingSimulator.Assemble | ptc_analysis/splicing_simulator.py:9-19 | definition: the segments' pieces joined in order, failing at the first missing chromosome; its properties are proved in `AssembleSucceedsIffChromosomesPresent`, `AssembleFailsAtFirstMissing`, `AssembleLength`, `AssembleAppend` and `AssembleLayout` |
| SplicingSimulator.AssembleSucceedsIffChromosomesPresent | ptc_analysis/splicing_simulator.py:9-17 | a build succeeds exactly when every segment's chromosome is in the genome |
| SplicingSimulator.AssembleFailsAtFirstMissing | ptc_analysis/splicing_simulator.py:10-15 | a failed build has a first segment whose chromosome is missing, with every earlier one present |
| SplicingSimulator.AssembleLength | ptc_analysis/splicing_simulator.py:11-17 | with every segment in bounds the build succeeds and is as long as the segments' summed lengths |
| SplicingSimulator.AssembleAppend | ptc_analysis/splicing_simulator.py:17-19 | building a + b is building a, then b, and joining; the first error wins |
| SplicingSimulator.AssembleLayout | ptc_analysis/splicing_simulator.py:9-19 | segment k's strand-corrected bases sit between the summed lengths of the first k and the first k+1 segments: order is ascending start whatever the strand |
| SplicingSimulator.Join | ptc_analysis/splicing_simulator.py:19 | definition of `''.join`; its step property is proved in `JoinSnoc` |
| SplicingSimulator.JoinSnoc | ptc_analysis/splicing_simulator.py:19 | joining pieces with one more appended is the old join followed by the new piece |
| SplicingSimulator.Kept | ptc_analysis/splicing_simulator.py:31-40 | definition: the exons not matching both coordinates, in order; its properties are proved in `KeptContents`, `KeptMembers`, `KeptSorted` and `KeptCount` |
| SplicingSimulator.KeptContents | ptc_analysis/splicing_simulator.py:32-34 | no matching exon is kept; every other exon is kept as often as it occurs |
| SplicingSimulator.KeptMembers | ptc_analysis/splicing_simulator.py:31-40 | every kept exon is one of the transcript's exons |
| SplicingSimulator.KeptSorted | ptc_analysis/splicing_simulator.py:31 | leaving exons out keeps the rest in start order |
| SplicingSimulator.MatchCount | ptc_analysis/splicing_simulator.py:29-33 | definition: how many exons match both coordinates, the count behind `found_exon`; its properties are proved in `MatchCountZeroIff`, `KeptCount` and `MatchedLengthIsCountTimesLength` |
| SplicingSimulator.MatchCountZeroIff | ptc_analysis/splicing_simulator.py:32-33 | no exon matches exactly when none has both the start and the end of the pair |
| SplicingSimulator.KeptCount | ptc_analysis/splicing_simulator.py:32-40 | kept exons plus matching exons are all the exons |
| SplicingSimulator.Matches | ptc_analysis/splicing_simulator.py:32 | definition: the exon's start and end both equal the pair (a partial overlap is not a match); counted by `MatchCount`, filtered by `Kept` |
| SplicingSimulator.SkipFrom | ptc_analysis/splicing_simulator.py:28-45 | definition: the kept exons assembled, a missing chromosome first, then the ValueError when nothing matched; its properties are proved in `SkipFailsIffNoExonMatches` and `SkippedLength` |
| SplicingSimulator.SkippedSequence | ptc_analysis/splicing_simulator.py:22-45 | definition: `SkipFrom` over the transcript's exons in start order; its properties are proved in `SkipFailsIffNoExonMatches`, `SkippedLength` and `SkippedIgnoresNonExonFeatures` |
| SplicingSimulator.NotFoundMeansNoMatch | ptc_analysis/splicing_simulator.py:42-43 | whatever the genome holds, the exon-not-found error is raised only when no exon matches both coordinates |
| SplicingSimulator.SkipFailsIffNoExonMatches | ptc_analysis/splicing_simulator.py:42-43 | with the chromosome of every non-matching exon present (matching exons are never fetched), the skip build fails exactly when no exon matches both coordinates, and a success always left an exon out |
| SplicingSimulator.MatchedLengthIsCountTimesLength | ptc_analysis/splicing_simulator.py:32-34 | the removed length is the number of matching exons times `end - start + 1` of the pair |
| SplicingSimulator.TotalLengthSplit | ptc_analysis/splicing_simulator.py:31-40 | total exon length is kept length plus removed length |
| SplicingSimulator.SkippedLength | ptc_analysis/splicing_simulator.py:31-45 | with every exon in bounds, a successful skip build is the total exon length less every matching exon's length |
| SplicingSimulator.ReferenceSequence | ptc_analysis/splicing_simulator.py:3-19 | definition: `Assemble` over the transcript's CDS features in start order with the reference strand test; its properties are proved in `ReferenceLength` and `ReferenceIgnoresNonCdsFeatures` |
| SplicingSimulator.ReferenceLength | ptc_analysis/splicing_simulator.py:9-19 | with every CDS segment in bounds, the reference is as long as the CDS segments together |
| SplicingSimulator.ReferenceIgnoresNonCdsFeatures | ptc_analysis/splicing_simulator.py:9 | adding a feature of another type never changes the reference |
| SplicingSimulator.SkippedIgnoresNonExonFeatures | ptc_analysis/splicing_simulator.py:31 | adding a CDS or other non-exon feature never changes the skip build |
| SplicingSimulator.SkipLoopStep | ptc_analysis/splicing_simulator.py:32-40 | one loop step drops a matching exon, keeps a non-matching one, and counts matches |
| SplicingSimulator.ExtractTranscriptSequence | ptc_analysis/splicing_simulator.py:3-19 | returns exactly the reference specification: the CDS segments in start order, fetched, strand-corrected and joined, or the first missing chromosome |
| SplicingSimulator.BuildReference | ptc_analysis/splicing_simulator.py:8-19 | the loop over the segments returns their pieces joined in order, or the first missing chromosome, exactly as `Assemble` specifies |
| SplicingSimulator.BuildLoopKeep | ptc_analysis/splicing_simulator.py:10-17 | one loop step on a present chromosome moves the segment strand-corrected slice into the joined prefix |
| SplicingSimulator.SimulateExonSkipping | ptc_analysis/splicing_simulator.py:22-45 | returns exactly the skip specification for the transcript's start-ordered exons |
| SplicingSimulator.SkipExons | ptc_analysis/splicing_simulator.py:28-45 | the loop with its `found_exon` flag returns the kept exons joined, a missing chromosome, or exon-not-found when nothing matched |
| GeneticCode.IsStopCodon | ptc_analysis/orf_analysis.py:22-23 | definition: TAA, TAG or TGA, the stop codons of table 1; `AminoAcid` gives `*` exactly for these, and `TranslateStops` puts `*` in the translation exactly where one sits in frame |
| GeneticCode.AminoAcid | ptc_analysis/orf_analysis.py:7 | `*` exactly for TAA, TAG, TGA; `X` for an `N` in first or second position; never `X` for a concrete codon |
| GeneticCode.ThirdPositionAmbiguity | ptc_analysis/orf_analysis.py:22 | an `N` in third position resolves exactly when all four readings agree (four-fold boxes), otherwise `X` |
| GeneticCode.LeadingPositionAmbiguity | ptc_analysis/orf_analysis.py:22 | no first- or second-position `N` can resolve: the four readings always disagree |
| OrfAnalysis.Translate | ptc_analysis/orf_analysis.py:22 | `n / 3` symbols, symbol k being codon k's amino acid; a trailing partial codon is ignored |
| OrfAnalysis.TranslateStops | ptc_analysis/orf_analysis.py:22-23 | the translation has `*` at k exactly when codon k is a stop codon |
| OrfAnalysis.TranslateCds | ptc_analysis/orf_analysis.py:3-7 | at most `n / 3` symbols, no `*`, a prefix of the full translation, and followed there by `*` whenever shorter |
| OrfAnalysis.TranslateCdsWhole | ptc_analysis/orf_analysis.py:7 | the truncated protein has all `n / 3` codons exactly when there is no stop, and then equals the full translation |
| OrfAnalysis.Find | ptc_analysis/orf_analysis.py:23 | -1 exactly when absent; otherwise an index holding the symbol with none before it |
| OrfAnalysis.FindStopPosition | ptc_analysis/orf_analysis.py:17-26 | definition: three times the index of the first `*` of the full translation, or the length without one; its properties are proved in `NoStopPosition`, `FirstStopPosition` and `StopPositionIsTruncatedLength` |
| OrfAnalysis.NoStopPosition | ptc_analysis/orf_analysis.py:24-25 | without an in-frame stop codon the offset is the full sequence length |
| OrfAnalysis.FirstStopPosition | ptc_analysis/orf_analysis.py:22-26 | with an in-frame stop codon the offset is a multiple of 3, no later than any stop, whose codon is a stop inside the sequence with none before it |
| OrfAnalysis.StopPositionIsTruncatedLength | ptc_analysis/orf_analysis.py:7 | with a stop, its offset is three times the length of the truncated protein |
| OrfAnalysis.CheckOrfDisruption | ptc_analysis/orf_analysis.py:10-14 | definition: the length difference exceeds 300; its properties are proved in `OrfDisruptionThreshold` |
| OrfAnalysis.OrfDisruptionThreshold | ptc_analysis/orf_analysis.py:10-14 | disrupted only if more than 300 shorter, so exactly 300 is not and 301 is; shortening the alternative never clears the flag |
| OrfAnalysis.LastCdsJunction | ptc_analysis/orf_analysis.py:29-44 | definition: `LastJunction` over the transcript's CDS features in start order; its properties are proved in `SingleSegmentNeverNmd` and, over the segment list, in `LastJunctionSpec` |
| OrfAnalysis.LastJunction | ptc_analysis/orf_analysis.py:36-44 | definition: none below two segments, otherwise the summed lengths of all but the last; its properties are proved in `LastJunctionSpec`, `LastJunctionOpensLastSegment` and `ThreeSegmentJunction` |
| OrfAnalysis.LastJunctionSpec | ptc_analysis/orf_analysis.py:34-44 | none exactly below two CDS segments; otherwise total length less the last segment's, inside the CDS when that segment is non-empty |
| OrfAnalysis.LastJunctionOpensLastSegment | ptc_analysis/orf_analysis.py:39-44 | with every CDS segment in bounds, the reference from the junction on is exactly the last segment's strand-corrected bases |
| OrfAnalysis.CheckNmdWithJunction | ptc_analysis/orf_analysis.py:47-53 | definition: false without a junction, otherwise junction minus stop offset exceeds 50; its properties are proved in `NmdRule` |
| OrfAnalysis.NmdRule | ptc_analysis/orf_analysis.py:47-53 | NMD exactly when there is a junction more than 50 nt past the stop; 50 exactly is not; moving the stop upstream never clears it |
| OrfAnalysis.SingleSegmentNeverNmd | ptc_analysis/orf_analysis.py:36-37 | a transcript with fewer than two CDS segments is never NMD |
| OrfAnalysis.ThreeSegmentJunction | ptc_analysis/orf_analysis.py:42-44 | CDS lengths 300, 150, 900 put the last junction at 450 |
| Core.CoordKeys | ptc_analysis/core.py:38-45 | definition: the start and end column names per splice type; its properties are proved in `CoordKeysShared` |
| Core.CoordKeysShared | ptc_analysis/core.py:38-45 | two splice types read the same columns exactly when equal or A3SS/A5SS; start and end columns differ |
| Core.SkipCoords | ptc_analysis/core.py:49-51 | definition: the 0-based start column plus one, and the end column; its properties are proved in `SkipCoordsSelectColumnRange` |
| Core.SkipCoordsSelectColumnRange | ptc_analysis/core.py:49-51 | an in-bounds exon matching the shifted pair fetches exactly the 0-based half-open range named by the columns |
| Core.DirectionOf | ptc_analysis/core.py:97 | definition: Inclusion when dpsi is positive, otherwise Exclusion; its properties are proved in `DirectionSign` |
| Core.DirectionSign | ptc_analysis/core.py:97 | inclusion exactly for a positive difference; zero is exclusion; opposite non-zero differences get opposite labels |
| Core.WellFormed | ptc_analysis/core.py:87-99 | definition of a well-formed row: TruncationAA equals RefLen_AA minus AltLen_AA (both lengths non-negative); Disrupted exactly when that loss exceeds 300; Likely_NMD only when Disrupted; AS_Direction is Inclusion exactly when IncLevelDifference > 0; proved of every row in `Classify`, `ProcessPairConsistent`, `RowsWellFormed`, `AllOutcomesWellFormed` and `RunAnalysisSummary` |
| Core.Classify | ptc_analysis/core.py:76-99 | a well-formed row for the pair; NMD only for a disrupted pair, from the alternative's stop offset and the reference CDS model's last junction |
| Core.ProcessPair | ptc_analysis/core.py:61-104 | definition: the outcome of one (event, transcript) pair, abandoned when a build raises anything but the ValueError; its properties are proved in `ProcessPairConsistent`, `ProcessPairOnCompleteGenome` and `ProcessPairAbandoned` |
| Core.ProcessPairConsistent | ptc_analysis/core.py:64-100 | a result row is well formed and a skip record carries the exon-not-found message, both for the event's gene and coordinates |
| Core.ProcessPairOnCompleteGenome | ptc_analysis/core.py:61-74 | with every CDS and exon chromosome present a pair is never abandoned, and is skipped exactly when no exon matches the pair |
| Core.ProcessPairAbandoned | ptc_analysis/core.py:102-104 | a pair is abandoned exactly when the reference build fails or the skip build fails on a missing chromosome |
| Core.PairOutcomes | ptc_analysis/core.py:60 | one outcome per transcript |
| Core.Rows | ptc_analysis/core.py:87-100 | definition: the result rows of the completed pairs, in order, what `results.append` accumulates; its properties are proved in `OutcomesAppend`, `OutcomeCounts` and `RowsWellFormed` |
| Core.Skips | ptc_analysis/core.py:64-74 | definition: the skip records of the skipped pairs, in order, what `skipped_transcripts.append` accumulates; its properties are proved in `OutcomesAppend` and `OutcomeCounts` |
| Core.OutcomesAppend | ptc_analysis/core.py:67-100 | rows, skip records and abandon counts of concatenated outcomes concatenate |
| Core.OutcomeCounts | ptc_analysis/core.py:61-104 | rows, skip records and abandoned pairs add up to the number of pairs: exactly one per pair |
| Core.EventOutcomes | ptc_analysis/core.py:54-60 | definition: no outcome when the gene lookup fails, otherwise one `ProcessPair` outcome per transcript; its properties are proved in `MissingGeneAddsNothing` and `AllOutcomesCount` |
| Core.AllOutcomes | ptc_analysis/core.py:47-60 | definition: the outcomes of every pair, event by event, which `RunAnalysis` is proved to accumulate; its properties are proved in `AllOutcomesCount`, `AllOutcomesWellFormed` and `RunAnalysisSummary` |
| Core.PairCount | ptc_analysis/core.py:54-60 | definition: the number of (event, transcript) pairs over the events whose gene is in the store; `AllOutcomesCount` proves one outcome per pair |
| Core.AllOutcomesCount | ptc_analysis/core.py:47-60 | one outcome per (event, transcript of a known gene) |
| Core.MissingGeneAddsNothing | ptc_analysis/core.py:54-58 | an event whose gene lookup fails adds neither rows nor skip records |
| Core.RowsWellFormed | ptc_analysis/core.py:87-100 | the rows kept from well-formed outcomes are all well formed |
| Core.AllOutcomesWellFormed | ptc_analysis/core.py:47-100 | every completed pair of the run has a well-formed row |
| Core.ProcessTranscript | ptc_analysis/core.py:61-104 | the try block for one pair returns exactly the pair's outcome |
| Core.ProcessEvent | ptc_analysis/core.py:60-104 | the transcript loop appends exactly the rows and the skip records of the gene's pairs, in order |
| Core.RunAnalysis | ptc_analysis/core.py:47-104 | the event loop builds exactly the rows and skip records of all pairs, in order |
| Core.RunAnalysisSummary | ptc_analysis/core.py:47-104 | every result row is well formed, every pair is counted once, and rows plus skip records cover every pair exactly when none was abandoned |

## Left out

- Reading the FASTA file, building or opening the annotation database, loading and merging
  the rMATS tables, creating directories, writing the CSV files and printing: these are I/O
  (core.py lines 17-36 and 106-118, utils.py, transcript_model.py `build_gtf_db`,
  data_loader.py). The genome, the store and the merged event rows are parameters.
- Dataset filtering by FDR and effect size (filter_rmats_events.py), the command-line
  runners and packaging: outside the analysis core.
- The order of a gene's transcripts and the order of features with equal starts come from the
  database. The model takes transcripts in stored order and sorts features stably.
- Bases other than A, C, G, T, N (other IUPAC codes, lower-case soft-masking) are not modelled.
  Neither are Biopython's translation errors on invalid letters, or its ambiguous
  protein letters B, Z, J, which no `N`-only codon can produce.
- Core.EventRow: `IncLevelDifference` is a real number. NaN and float rounding are not
  modelled, and the coordinate columns are integers, so `int()` on a float string is not.
- Core.RunAnalysis: requires every event row to hold both coordinate columns of its splice
  type. The loader raises before the loop otherwise (data_loader.py lines 27-30).
- An unsupported splice type raises before the loop. `SpliceType` has only the five
  supported values.
- Only a missing chromosome is modelled as an exception inside the builds. Any other
  exception that the outer handler could catch is not.
- Core.ProcessEvent and Core.ProcessTranscript: these are the nested loop body of
  `run_analysis`, written as separate methods. The source has them inline.
