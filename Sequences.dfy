/** Facts about sequences shared by the model's loops. */
module Sequences {

  /** A prefix one longer is the prefix with one more element. */
  lemma PrefixExtend<T>(s: seq<T>, n: nat)
    requires n < |s|
    ensures s[..n + 1] == s[..n] + [s[n]]
  {
  }
}
