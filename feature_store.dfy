/**
 * The annotation database as a read-only store: genes own transcripts, transcripts own
 * features (exon, CDS, and others) with 1-based inclusive coordinates and a strand.
 * Children of a transcript are returned filtered by feature type and ordered by start.
 */
module FeatureStore {
  import opened Wrappers

  /** The feature types the analysis asks for; every other type (UTR, start_codon, ...) is `Other`. */
  datatype FeatureType = CDS | Exon | Other

  /** A GTF feature: chromosome, 1-based inclusive start and end, strand character. */
  datatype Feature = Feature(featureType: FeatureType, chrom: string, start: int, end: int, strand: char)

  datatype Transcript = Transcript(id: string, features: seq<Feature>)

  /** Gene id to the transcripts annotated under it. */
  datatype Store = Store(transcriptsOf: map<string, seq<Transcript>>)

  /** `end - start + 1`: the number of bases a feature covers. */
  function FeatureLength(f: Feature): int {
    f.end - f.start + 1
  }

  /** Sum of the feature lengths, first to last. */
  function TotalLength(fs: seq<Feature>): int {
    if fs == [] then 0 else FeatureLength(fs[0]) + TotalLength(fs[1..])
  }

  lemma {:induction false} TotalLengthAppend(a: seq<Feature>, b: seq<Feature>)
    ensures TotalLength(a + b) == TotalLength(a) + TotalLength(b)
  {
    if a == [] {
      assert a + b == b;
    } else {
      assert (a + b)[1..] == a[1..] + b;
      TotalLengthAppend(a[1..], b);
    }
  }

  lemma TotalLengthSnoc(fs: seq<Feature>, g: Feature)
    ensures TotalLength(fs + [g]) == TotalLength(fs) + FeatureLength(g)
  {
    TotalLengthAppend(fs, [g]);
    assert [g][1..] == [];
  }

  predicate SortedByStart(fs: seq<Feature>) {
    forall i, j :: 0 <= i < j < |fs| ==> fs[i].start <= fs[j].start
  }

  /** The features of one type, in store order. */
  function OfType(fs: seq<Feature>, t: FeatureType): (r: seq<Feature>)
    ensures forall f | f in r :: f.featureType == t
    ensures forall f: Feature | f.featureType == t :: multiset(r)[f] == multiset(fs)[f]
  {
    if fs == [] then []
    else
      assert fs == [fs[0]] + fs[1..];
      (if fs[0].featureType == t then [fs[0]] else []) + OfType(fs[1..], t)
  }

  /** Inserts `f` before the first feature that does not start earlier. */
  function Insert(f: Feature, sorted: seq<Feature>): (r: seq<Feature>)
    requires SortedByStart(sorted)
    ensures SortedByStart(r)
    ensures multiset(r) == multiset(sorted) + multiset{f}
  {
    if sorted == [] || f.start <= sorted[0].start then
      ConsSorted(f, sorted);
      [f] + sorted
    else
      var rest := Insert(f, sorted[1..]);
      assert sorted == [sorted[0]] + sorted[1..];
      InsertedAfterHead(f, sorted, rest);
      ConsSorted(sorted[0], rest);
      [sorted[0]] + rest
  }

  /** A feature starting no later than every feature of a sorted sequence can go in front of it. */
  lemma ConsSorted(h: Feature, fs: seq<Feature>)
    requires SortedByStart(fs)
    requires fs == [] || h.start <= fs[0].start || forall g | g in fs :: h.start <= g.start
    ensures SortedByStart([h] + fs)
  {
    if fs != [] && h.start <= fs[0].start {
      assert forall j :: 0 <= j < |fs| ==> fs[0].start <= fs[j].start;
    }
    forall i, j | 0 <= i < j < |[h] + fs|
      ensures ([h] + fs)[i].start <= ([h] + fs)[j].start
    {
      if i == 0 {
        assert ([h] + fs)[j] == fs[j - 1] && fs[j - 1] in fs;
      } else {
        assert ([h] + fs)[i] == fs[i - 1] && ([h] + fs)[j] == fs[j - 1];
      }
    }
  }

  /** What is inserted after the head of a sorted sequence starts no earlier than the head. */
  lemma InsertedAfterHead(f: Feature, sorted: seq<Feature>, rest: seq<Feature>)
    requires SortedByStart(sorted) && sorted != [] && sorted[0].start < f.start
    requires multiset(rest) == multiset(sorted[1..]) + multiset{f}
    ensures forall g | g in rest :: sorted[0].start <= g.start
  {
    forall g | g in rest
      ensures sorted[0].start <= g.start
    {
      assert g in multiset(rest);
      if g != f {
        assert g in multiset(sorted[1..]);
        var j :| 0 <= j < |sorted[1..]| && sorted[1..][j] == g;
        assert sorted[j + 1] == g;
      }
    }
  }

  /** A stable insertion sort by start coordinate (the database's `order_by='start'`). */
  function SortByStart(fs: seq<Feature>): (r: seq<Feature>)
    ensures SortedByStart(r)
    ensures multiset(r) == multiset(fs)
  {
    if fs == [] then []
    else
      assert fs == [fs[0]] + fs[1..];
      Insert(fs[0], SortByStart(fs[1..]))
  }

  /** `db.children(transcript, featuretype=t, order_by='start')`. */
  function Children(tx: Transcript, t: FeatureType): seq<Feature> {
    SortByStart(OfType(tx.features, t))
  }

  /**
   * The children of type `t` are ordered by start and are exactly the transcript's features of
   * that type, each as often as it occurs there.
   */
  lemma ChildrenSpec(tx: Transcript, t: FeatureType)
    ensures var r := Children(tx, t);
            SortedByStart(r) &&
            (forall f | f in r :: f in tx.features && f.featureType == t) &&
            (forall f: Feature | f.featureType == t :: multiset(r)[f] == multiset(tx.features)[f])
  {
    var r := Children(tx, t);
    assert forall f | f in r :: f in multiset(OfType(tx.features, t));
  }

  /** The transcripts of a gene, or `None` when the gene is not in the store (the lookup raises). */
  function TranscriptsForGene(store: Store, geneId: string): (r: Option<seq<Transcript>>)
    ensures r.None? <==> geneId !in store.transcriptsOf
    ensures r.Some? ==> r.value == store.transcriptsOf[geneId]
  {
    if geneId in store.transcriptsOf then Some(store.transcriptsOf[geneId]) else None
  }
}
