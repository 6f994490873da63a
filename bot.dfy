/**
 * The bot's persistent state and the steps of one run that change it:
 * queuing a signal, the signal loop, and sending the digest when it is due.
 */
module Bot {
  import opened Wrappers
  import opened Text
  import opened Merge
  import opened Scoring
  import opened Digest
  import opened Signals

  /** What one digest carries: the rows of the HTML body, in digest order,
      and the items of the plain-text fallback, in queue order. */
  datatype DigestMail = DigestMail(rows: seq<PendingItem>, plain: seq<PendingItem>)

  class BotState {
    /** `seen_items["vc_signals"]`: the bucket keys already signalled. */
    var ledger: seq<string>
    /** `pending_signals`: the digest queue. */
    var pending: seq<PendingItem>
    /** `last_digest_sent`. */
    var last: LastSent

    /** The state as loaded: a missing ledger or queue, or a queue that is
        not a list, starts empty. */
    constructor Load(savedLedger: Option<seq<string>>, savedPending: Option<seq<PendingItem>>, savedLast: LastSent)
      ensures ledger == (if savedLedger.Some? then savedLedger.value else [])
      ensures pending == (if savedPending.Some? then savedPending.value else [])
      ensures last == savedLast
    {
      ledger := if savedLedger.Some? then savedLedger.value else [];
      pending := if savedPending.Some? then savedPending.value else [];
      last := savedLast;
    }

    /** `queue_signal`: merges `sig` into the first queued item with the
        same identity, or appends it stamped with `now`. */
    method QueueSignal(sig: Signal, now: int)
      modifies this
      ensures pending == Enqueue(old(pending), sig, now)
      ensures ledger == old(ledger) && last == old(last)
    {
      var key := QueueKey(sig.name);
      ghost var ks := ItemKeys(pending);
      var i := 0;
      while i < |pending|
        invariant 0 <= i <= |pending|
        invariant pending == old(pending) && ledger == old(ledger) && last == old(last)
        invariant forall j :: 0 <= j < i ==> ks[j] != key
      {
        ItemKeysAt(pending, i);
        if QueueKey(pending[i].name) == key {
          FindKeyAt(ks, key, i);
          pending := pending[i := MergeInto(pending[i], sig)];
          return;
        }
        i := i + 1;
      }
      pending := pending + [PendingItem(sig.name, sig.url, sig.tags, sig.score, now)];
    }

    /** The signal loop over the merged records `hits`. */
    method ProcessSignals(hits: Hits, cfg: Config, cg: set<string>, now: int)
      modifies this
      ensures Store(ledger, pending) == Process(Store(old(ledger), old(pending)), hits, cfg, cg, now)
      ensures old(ledger) <= ledger
      ensures DistinctQueueKeys(old(pending)) ==> DistinctQueueKeys(pending)
      ensures last == old(last)
    {
      var st0 := Store(ledger, pending);
      for i := 0 to |hits|
        invariant Store(ledger, pending) == Process(st0, hits[..i], cfg, cg, now)
        invariant last == old(last)
      {
        assert hits[..i + 1][..i] == hits[..i];
        var nameLc := hits[i].0;
        var entry := hits[i].1;
        var tags := Tags(entry);
        if cfg.requireMultiVc && |tags| < 2 {
          continue;
        }
        var score := ScoreProject(entry.display, FirstLink(entry), tags, nameLc in cg);
        if score >= cfg.threshold {
          var bucket := Bucket(nameLc, score);
          if bucket !in ledger {
            ledger := ledger + [bucket];
            QueueSignal(Signal(entry.display, FirstLink(entry), tags, score), now);
          }
        }
      }
      assert hits[..|hits|] == hits;
      ProcessLedgerGrows(st0, hits, cfg, cg, now);
      if DistinctQueueKeys(st0.pending) {
        ProcessDistinct(st0, hits, cfg, cg, now);
      }
    }

    /** `send_digest_if_due`: when due, the digest is handed to the transport,
        whose outcome is `delivered`; only a delivered digest empties the
        queue and records the time. The result is the digest handed over, if
        any. */
    method SendDigestIfDue(now: int, window: int, delivered: bool) returns (sent: Option<DigestMail>)
      modifies this
      ensures sent.Some? <==> ShouldSendDigest(old(pending), old(last), now, window)
      ensures sent.Some? ==> sent.value.rows == DigestOrder(old(pending)) && sent.value.plain == old(pending)
      ensures sent.Some? && delivered ==> pending == [] && last == At(now)
      ensures sent.None? || !delivered ==> pending == old(pending) && last == old(last)
      ensures ledger == old(ledger)
    {
      if !ShouldSendDigest(pending, last, now, window) {
        return None;
      }
      sent := Some(DigestMail(DigestOrder(pending), pending));
      if delivered {
        last := At(now);
        pending := [];
      }
    }

    /** One run: merge the sources' candidate lists, run the signal loop,
        then send the digest if it is due. */
    method RunOnce(runs: seq<SourceRun>, cfg: Config, cg: set<string>, now: int, delivered: bool)
      returns (sent: Option<DigestMail>)
      modifies this
      ensures var st := Process(Store(old(ledger), old(pending)), MergeObs(Flatten(runs)), cfg, cg, now);
        && ledger == st.ledger
        && (sent.Some? <==> ShouldSendDigest(st.pending, old(last), now, WindowSeconds(cfg.digestHours)))
        && (sent.Some? ==> sent.value.rows == DigestOrder(st.pending) && sent.value.plain == st.pending)
        && (sent.Some? && delivered ==> pending == [] && last == At(now))
        && (sent.None? || !delivered ==> pending == st.pending && last == old(last))
      ensures old(ledger) <= ledger
    {
      var hits := MergeRuns(runs);
      ProcessSignals(hits, cfg, cg, now);
      sent := SendDigestIfDue(now, WindowSeconds(cfg.digestHours), delivered);
    }
  }
}
