/** Facts about sequences shared by both seeders. */
module Seqs {

  /** A slice of `a + b` that lies wholly inside one of the two parts. */
  lemma SliceOfAppend<T>(a: seq<T>, b: seq<T>, lo: nat, hi: nat)
    requires lo <= hi <= |a + b| && (hi <= |a| || |a| <= lo)
    ensures hi <= |a| ==> (a + b)[lo..hi] == a[lo..hi]
    ensures |a| <= lo ==> (a + b)[lo..hi] == b[lo - |a|..hi - |a|]
  {
  }
}
