/**
 * The genome as the analysis sees it: a dictionary from chromosome name to its base
 * sequence, read with Python's slice operator.
 */
module GenomeStore {
  import opened Nucleotides

  type Genome = map<string, seq<Base>>

  /** Python's normalisation of one slice bound against a sequence of length `n`. */
  function ClampIndex(i: int, n: nat): (k: nat)
    ensures k <= n
    ensures 0 <= i <= n ==> k == i
  {
    if i < 0 then (if i + n < 0 then 0 else i + n)
    else if i > n then n
    else i
  }

  /**
   * `s[i:j]` with Python's semantics: negative bounds count from the end, bounds past
   * either end are clamped, and an empty slice results when the bounds cross.
   */
  function PySlice<X>(s: seq<X>, i: int, j: int): (r: seq<X>)
    ensures |r| <= |s|
    ensures 0 <= i <= j <= |s| ==> r == s[i..j]
    ensures 0 <= j <= i ==> r == []
  {
    var lo := ClampIndex(i, |s|);
    var hi := ClampIndex(j, |s|);
    if lo < hi then s[lo..hi] else []
  }
}
