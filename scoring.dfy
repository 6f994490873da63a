/**
 * `score_project` with the weights of `SCORE_WEIGHTS`, and the ledger bucket
 * key `name_lc:score` built from a record's score.
 */
module Scoring {
  import opened Text

  const VcHit := 10
  const MultiVc := 8
  const HasLink := 1
  const CoingeckoPresence := 2

  /** `score_project(name, url, tags, has_cg)`; the name takes no part. An
      empty url stands for a missing one. */
  function ScoreProject(name: string, url: string, tags: seq<string>, hasCg: bool): (score: int)
    ensures score == (if |tags| >= 1 then VcHit else 0) + (if |tags| >= 2 then MultiVc else 0)
                     + (if url != "" then HasLink else 0) + (if hasCg then CoingeckoPresence else 0)
    ensures 0 <= score <= 21
  {
    var tagScore := if tags != [] then VcHit + (if |tags| >= 2 then MultiVc else 0) else 0;
    var linkScore := if url != "" then HasLink else 0;
    tagScore + linkScore + (if hasCg then CoingeckoPresence else 0)
  }

  /** The score alone tells how many sources corroborate (none, one, several),
      whether a link is present and whether the listing check matched: equal
      scores mean equal answers to all three. */
  lemma ScoreDetermines(name1: string, url1: string, tags1: seq<string>, cg1: bool,
                        name2: string, url2: string, tags2: seq<string>, cg2: bool)
    requires ScoreProject(name1, url1, tags1, cg1) == ScoreProject(name2, url2, tags2, cg2)
    ensures (|tags1| >= 1) == (|tags2| >= 1)
    ensures (|tags1| >= 2) == (|tags2| >= 2)
    ensures (url1 != "") == (url2 != "")
    ensures cg1 == cg2
  {
  }

  /** The ledger key `f"{name_lc}:{score}"`. */
  function Bucket(nameLc: string, score: nat): string {
    nameLc + ":" + NatToString(score)
  }

  /** Position of the last ':' in `s`, -1 if none. */
  function LastColon(s: string): int {
    if s == [] then -1
    else if s[|s| - 1] == ':' then |s| - 1
    else LastColon(s[..|s| - 1])
  }

  /** The separator is the last ':' of a bucket key, since digits follow it. */
  lemma {:induction false} LastColonOfBucket(n: string, d: string)
    requires AllDigits(d)
    ensures LastColon(n + ":" + d) == |n|
  {
    if d != [] {
      var d' := d[..|d| - 1];
      assert (n + ":" + d)[..|n + ":" + d| - 1] == n + ":" + d';
      LastColonOfBucket(n, d');
    } else {
      assert (n + ":" + d)[|n|] == ':';
    }
  }

  /** Two bucket keys are equal only for the same name and the same score, so
      a changed score always yields a key the ledger has not seen. */
  lemma BucketInjective(n1: string, s1: nat, n2: string, s2: nat)
    requires Bucket(n1, s1) == Bucket(n2, s2)
    ensures n1 == n2 && s1 == s2
  {
    var d1, d2 := NatToString(s1), NatToString(s2);
    var b := Bucket(n1, s1);
    LastColonOfBucket(n1, d1);
    LastColonOfBucket(n2, d2);
    assert n1 == b[..|n1|] == n2;
    assert d1 == b[|n1| + 1..] == d2;
    NatToStringInjective(s1, s2);
  }
}
