/**
 * The signal loop of one run: each merged record is filtered by
 * corroboration, scored, compared with the threshold, gated on the ledger of
 * bucket keys already signalled and, when new, queued for the digest.
 */
module Signals {
  import opened Wrappers
  import opened Text
  import opened Assoc
  import opened Merge
  import opened Scoring
  import opened Digest

  /** The run's settings: `SCORE_THRESHOLD`, `REQUIRE_MULTI_VC` and
      `DIGEST_INTERVAL_HOURS`. */
  datatype Config = Config(threshold: int, requireMultiVc: bool, digestHours: int)

  /** The part of the bot's state the signal loop changes: the ledger
      `seen_items["vc_signals"]` and `pending_signals`. */
  datatype Store = Store(ledger: seq<string>, pending: seq<PendingItem>)

  /** `list(source_map.keys())`: the sources of a record, in first-seen
      order. */
  function Tags(e: Entry): seq<string> {
    Keys(e.sources)
  }

  /** The url of the first source of a record, or none. */
  function FirstLink(e: Entry): string {
    if e.sources == [] then "" else e.sources[0].1
  }

  /** The score of a merged record; `cg` holds the lower-cased CoinGecko
      names. */
  function RecordScore(nameLc: string, e: Entry, cg: set<string>): int {
    ScoreProject(e.display, FirstLink(e), Tags(e), nameLc in cg)
  }

  /** The signal a record yields, if it passes the corroboration filter and
      the threshold. */
  function Admit(nameLc: string, e: Entry, cfg: Config, cg: set<string>): (r: Option<Signal>)
    ensures r.None? <==> (cfg.requireMultiVc && |Tags(e)| < 2) || RecordScore(nameLc, e, cg) < cfg.threshold
    ensures r.Some? ==> r.value.score >= cfg.threshold && r.value.score >= 0
    ensures r.Some? && cfg.requireMultiVc ==> |r.value.tags| >= 2
    ensures r.Some? ==> r.value.name == e.display && r.value.url == FirstLink(e) && r.value.tags == Tags(e)
  {
    if cfg.requireMultiVc && |Tags(e)| < 2 then None
    else
      var score := RecordScore(nameLc, e, cg);
      if score >= cfg.threshold then Some(Signal(e.display, FirstLink(e), Tags(e), score)) else None
  }

  /** The loop body for one record. */
  function Step(st: Store, hit: (string, Entry), cfg: Config, cg: set<string>, now: int): Store {
    match Admit(hit.0, hit.1, cfg, cg)
    case None => st
    case Some(sig) =>
      var b := Bucket(hit.0, sig.score);
      if b in st.ledger then st else Store(st.ledger + [b], Enqueue(st.pending, sig, now))
  }

  /** The loop over all records, in the merge's insertion order. */
  function Process(st: Store, hits: Hits, cfg: Config, cg: set<string>, now: int): Store
    decreases |hits|
  {
    if hits == [] then st
    else Step(Process(st, hits[..|hits| - 1], cfg, cg, now), hits[|hits| - 1], cfg, cg, now)
  }

  /** The ledger only grows: the old ledger is a prefix of the new one. */
  lemma {:induction false} ProcessLedgerGrows(st: Store, hits: Hits, cfg: Config, cg: set<string>, now: int)
    ensures st.ledger <= Process(st, hits, cfg, cg, now).ledger
    decreases |hits|
  {
    if hits != [] {
      ProcessLedgerGrows(st, hits[..|hits| - 1], cfg, cg, now);
    }
  }

  /** After the loop, the bucket of every admitted record is in the ledger. */
  lemma {:induction false} ProcessRecords(st: Store, hits: Hits, cfg: Config, cg: set<string>, now: int, i: int)
    requires 0 <= i < |hits| && Admit(hits[i].0, hits[i].1, cfg, cg).Some?
    ensures Bucket(hits[i].0, Admit(hits[i].0, hits[i].1, cfg, cg).value.score) in Process(st, hits, cfg, cg, now).ledger
    decreases |hits|
  {
    var p := hits[..|hits| - 1];
    if i < |hits| - 1 {
      ProcessRecords(st, p, cfg, cg, now, i);
      var mid := Process(st, p, cfg, cg, now);
      assert mid.ledger <= Step(mid, hits[|hits| - 1], cfg, cg, now).ledger;
    }
  }

  /** A run in which every admitted record's bucket is already known changes
      nothing. */
  lemma {:induction false} ProcessIdle(st: Store, hits: Hits, cfg: Config, cg: set<string>, now: int)
    requires forall i :: 0 <= i < |hits| && Admit(hits[i].0, hits[i].1, cfg, cg).Some? ==>
      Bucket(hits[i].0, Admit(hits[i].0, hits[i].1, cfg, cg).value.score) in st.ledger
    ensures Process(st, hits, cfg, cg, now) == st
    decreases |hits|
  {
    if hits != [] {
      var p := hits[..|hits| - 1];
      assert forall i :: 0 <= i < |p| ==> p[i] == hits[i];
      ProcessIdle(st, p, cfg, cg, now);
    }
  }

  /** A second run on the same records, with the ledger the first run left,
      queues nothing and adds nothing to the ledger, whatever is pending and
      whenever it runs. */
  lemma RerunQueuesNothing(st: Store, hits: Hits, cfg: Config, cg: set<string>, now: int,
                           pending: seq<PendingItem>, later: int)
    ensures var ledger := Process(st, hits, cfg, cg, now).ledger;
      Process(Store(ledger, pending), hits, cfg, cg, later) == Store(ledger, pending)
  {
    var ledger := Process(st, hits, cfg, cg, now).ledger;
    forall i | 0 <= i < |hits| && Admit(hits[i].0, hits[i].1, cfg, cg).Some?
      ensures Bucket(hits[i].0, Admit(hits[i].0, hits[i].1, cfg, cg).value.score) in ledger
    {
      ProcessRecords(st, hits, cfg, cg, now, i);
    }
    ProcessIdle(Store(ledger, pending), hits, cfg, cg, later);
  }

  /** Record `i` of `hits` was admitted with a bucket not in `ledger`, and
      its identity in the queue is `k`. */
  ghost predicate FreshSource(hits: Hits, cfg: Config, cg: set<string>, ledger: seq<string>, i: int, k: string) {
    && 0 <= i < |hits|
    && Admit(hits[i].0, hits[i].1, cfg, cg).Some?
    && QueueKey(hits[i].1.display) == k
    && Bucket(hits[i].0, Admit(hits[i].0, hits[i].1, cfg, cg).value.score) !in ledger
  }

  /** Every identity the run adds to the queue comes from a record that was
      admitted and whose bucket was not in the ledger before the run. */
  lemma {:induction false} ProcessNewKeys(st: Store, hits: Hits, cfg: Config, cg: set<string>, now: int, k: string)
    returns (i: int)
    requires k in ItemKeys(Process(st, hits, cfg, cg, now).pending) && k !in ItemKeys(st.pending)
    ensures FreshSource(hits, cfg, cg, st.ledger, i, k)
    decreases |hits|
  {
    var p := hits[..|hits| - 1];
    var h := hits[|hits| - 1];
    var mid := Process(st, p, cfg, cg, now);
    ProcessLedgerGrows(st, p, cfg, cg, now);
    if k in ItemKeys(mid.pending) {
      i := ProcessNewKeys(st, p, cfg, cg, now, k);
      assert hits[i] == p[i];
    } else {
      i := |hits| - 1;
      assert Process(st, hits, cfg, cg, now) == Step(mid, h, cfg, cg, now);
      var r := Admit(h.0, h.1, cfg, cg);
      assert r.Some?;
      var b := Bucket(h.0, r.value.score);
      assert b !in mid.ledger;
      EnqueueItemKeys(mid.pending, r.value, now);
    }
  }

  /** A signal is queued only when its record was admitted and its bucket
      was absent from the ledger at the start of the run. */
  lemma QueuedOnlyIfFresh(st: Store, hits: Hits, cfg: Config, cg: set<string>, now: int, k: string)
    requires k in ItemKeys(Process(st, hits, cfg, cg, now).pending) && k !in ItemKeys(st.pending)
    ensures exists i :: FreshSource(hits, cfg, cg, st.ledger, i, k)
  {
    var i := ProcessNewKeys(st, hits, cfg, cg, now, k);
  }

  /** With `REQUIRE_MULTI_VC`, no record seen by fewer than two sources adds
      an identity to the queue. */
  lemma SingleSourceNeverQueued(st: Store, hits: Hits, cfg: Config, cg: set<string>, now: int, k: string)
    requires cfg.requireMultiVc
    requires k in ItemKeys(Process(st, hits, cfg, cg, now).pending) && k !in ItemKeys(st.pending)
    ensures exists i :: 0 <= i < |hits| && |Tags(hits[i].1)| >= 2 && QueueKey(hits[i].1.display) == k
  {
    var i := ProcessNewKeys(st, hits, cfg, cg, now, k);
    assert |Tags(hits[i].1)| >= 2;
  }

  /** Every bucket the run adds to the ledger is the bucket of an admitted
      record. */
  lemma {:induction false} ProcessLedgerFrom(st: Store, hits: Hits, cfg: Config, cg: set<string>, now: int, b: string)
    returns (j: int)
    requires b in Process(st, hits, cfg, cg, now).ledger && b !in st.ledger
    ensures 0 <= j < |hits| && Admit(hits[j].0, hits[j].1, cfg, cg).Some?
    ensures Bucket(hits[j].0, Admit(hits[j].0, hits[j].1, cfg, cg).value.score) == b
    decreases |hits|
  {
    var p := hits[..|hits| - 1];
    var mid := Process(st, p, cfg, cg, now);
    if b in mid.ledger {
      j := ProcessLedgerFrom(st, p, cfg, cg, now, b);
      assert hits[j] == p[j];
    } else {
      j := |hits| - 1;
    }
  }

  /** An admitted record whose bucket is not in the ledger when the loop
      reaches it leaves an item with its identity, and at least its score, in
      the queue at the end of the run. */
  lemma {:induction false} FreshQueuedAt(st: Store, hits: Hits, cfg: Config, cg: set<string>, now: int, i: int)
    returns (j: int)
    requires 0 <= i < |hits| && Admit(hits[i].0, hits[i].1, cfg, cg).Some?
    requires Bucket(hits[i].0, Admit(hits[i].0, hits[i].1, cfg, cg).value.score)
      !in Process(st, hits[..i], cfg, cg, now).ledger
    ensures var q := Process(st, hits, cfg, cg, now).pending;
      0 <= j < |q| && QueueKey(q[j].name) == QueueKey(hits[i].1.display)
      && q[j].score >= Admit(hits[i].0, hits[i].1, cfg, cg).value.score
    decreases |hits|
  {
    var p := hits[..|hits| - 1];
    var h := hits[|hits| - 1];
    var mid := Process(st, p, cfg, cg, now);
    if i == |hits| - 1 {
      assert p == hits[..i];
      j := EnqueuePlaces(mid.pending, Admit(h.0, h.1, cfg, cg).value, now);
    } else {
      assert p[..i] == hits[..i] && p[i] == hits[i];
      j := FreshQueuedAt(st, p, cfg, cg, now, i);
      var a := Admit(h.0, h.1, cfg, cg);
      if a.Some? {
        EnqueueKeeps(mid.pending, a.value, now, j);
      }
    }
  }

  /** Some item of the queue has identity `k` and at least score `score`. */
  ghost predicate QueuedWith(q: seq<PendingItem>, k: string, score: int) {
    exists j :: 0 <= j < |q| && QueueKey(q[j].name) == k && q[j].score >= score
  }

  /** The other half of the ledger gate: an admitted record whose bucket the
      ledger does not hold at its turn is queued. */
  lemma FreshQueued(st: Store, hits: Hits, cfg: Config, cg: set<string>, now: int, i: int)
    requires 0 <= i < |hits| && Admit(hits[i].0, hits[i].1, cfg, cg).Some?
    requires Bucket(hits[i].0, Admit(hits[i].0, hits[i].1, cfg, cg).value.score)
      !in Process(st, hits[..i], cfg, cg, now).ledger
    ensures QueuedWith(Process(st, hits, cfg, cg, now).pending, QueueKey(hits[i].1.display),
                       Admit(hits[i].0, hits[i].1, cfg, cg).value.score)
  {
    var j := FreshQueuedAt(st, hits, cfg, cg, now, i);
  }

  /** With one record per name, as the merge yields, an admitted record
      whose bucket is not in the ledger at the start of the run is queued. */
  lemma FreshRecordQueued(st: Store, hits: Hits, cfg: Config, cg: set<string>, now: int, i: int)
    requires DistinctKeys(hits)
    requires 0 <= i < |hits| && Admit(hits[i].0, hits[i].1, cfg, cg).Some?
    requires Bucket(hits[i].0, Admit(hits[i].0, hits[i].1, cfg, cg).value.score) !in st.ledger
    ensures QueuedWith(Process(st, hits, cfg, cg, now).pending, QueueKey(hits[i].1.display),
                       Admit(hits[i].0, hits[i].1, cfg, cg).value.score)
  {
    var b := Bucket(hits[i].0, Admit(hits[i].0, hits[i].1, cfg, cg).value.score);
    var p := hits[..i];
    if b in Process(st, p, cfg, cg, now).ledger {
      var j := ProcessLedgerFrom(st, p, cfg, cg, now, b);
      assert p[j] == hits[j];
      BucketInjective(hits[j].0, Admit(hits[j].0, hits[j].1, cfg, cg).value.score,
                      hits[i].0, Admit(hits[i].0, hits[i].1, cfg, cg).value.score);
      assert false;
    }
    FreshQueued(st, hits, cfg, cg, now, i);
  }

  /** A name that already alerted at one score alerts again in a later run
      when it reaches a higher score that has not been signalled before. */
  lemma HigherScoreRealerts(st: Store, hits1: Hits, cg1: set<string>, now1: int,
                            pending: seq<PendingItem>, hits2: Hits, cg2: set<string>, now2: int,
                            cfg: Config, i1: int, i2: int)
    requires DistinctKeys(hits1) && DistinctKeys(hits2)
    requires 0 <= i1 < |hits1| && 0 <= i2 < |hits2| && hits1[i1].0 == hits2[i2].0
    requires Admit(hits1[i1].0, hits1[i1].1, cfg, cg1).Some? && Admit(hits2[i2].0, hits2[i2].1, cfg, cg2).Some?
    requires Admit(hits2[i2].0, hits2[i2].1, cfg, cg2).value.score > Admit(hits1[i1].0, hits1[i1].1, cfg, cg1).value.score
    requires Bucket(hits2[i2].0, Admit(hits2[i2].0, hits2[i2].1, cfg, cg2).value.score) !in st.ledger
    ensures QueuedWith(Process(Store(Process(st, hits1, cfg, cg1, now1).ledger, pending), hits2, cfg, cg2, now2).pending,
                       QueueKey(hits2[i2].1.display), Admit(hits2[i2].0, hits2[i2].1, cfg, cg2).value.score)
  {
    var ledger := Process(st, hits1, cfg, cg1, now1).ledger;
    var s2 := Admit(hits2[i2].0, hits2[i2].1, cfg, cg2).value.score;
    var b := Bucket(hits2[i2].0, s2);
    if b in ledger {
      var j := ProcessLedgerFrom(st, hits1, cfg, cg1, now1, b);
      var s1 := Admit(hits1[j].0, hits1[j].1, cfg, cg1).value.score;
      BucketInjective(hits1[j].0, s1, hits2[i2].0, s2);
      assert false;
    }
    FreshRecordQueued(Store(ledger, pending), hits2, cfg, cg2, now2, i2);
  }

  /** The tags of a merged record are its sources in first-reported order,
      and its link is the latest url of the first of them. */
  lemma RecordTagsAndLink(obs: seq<Obs>, key: string)
    requires Get(MergeObs(obs), key).Some?
    ensures var e := Get(MergeObs(obs), key).value;
      && Tags(e) == FirstSeenSources(obs, key)
      && FirstSeenSources(obs, key) != []
      && LastUrl(obs, key, FirstSeenSources(obs, key)[0]) == Some(FirstLink(e))
  {
    var e := Get(MergeObs(obs), key).value;
    MergeSourceOrder(obs, key);
    MergeSourcesWellFormed(obs, key);
    KeysAt(e.sources, 0);
    MergeSources(obs, key, e.sources[0].0);
  }

  /** The loop keeps the identities of the queue distinct. */
  lemma {:induction false} ProcessDistinct(st: Store, hits: Hits, cfg: Config, cg: set<string>, now: int)
    requires DistinctQueueKeys(st.pending)
    ensures DistinctQueueKeys(Process(st, hits, cfg, cg, now).pending)
    decreases |hits|
  {
    if hits != [] {
      var p := hits[..|hits| - 1];
      ProcessDistinct(st, p, cfg, cg, now);
      var mid := Process(st, p, cfg, cg, now);
      var h := hits[|hits| - 1];
      if Admit(h.0, h.1, cfg, cg).Some? {
        EnqueueDistinct(mid.pending, Admit(h.0, h.1, cfg, cg).value, now);
      }
    }
  }
}
