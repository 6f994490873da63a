/**
 * The digest queue (`queue_signal`), the due condition of the digest window
 * (`should_send_digest`) and the row order of the rendered digest
 * (`render_digest_html`).
 */
module Digest {
  import opened Wrappers
  import opened Text
  import opened Order

  /** A signal as built by the signal loop; an empty url stands for none. */
  datatype Signal = Signal(name: string, url: string, tags: seq<string>, score: int)

  /** An entry of `pending_signals`; `ts` is when it was first queued, in
      seconds. */
  datatype PendingItem = PendingItem(name: string, url: string, tags: seq<string>, score: int, ts: int)

  /** `last_digest_sent`: absent or empty, a parseable timestamp (seconds), or
      a string `datetime.fromisoformat` rejects. */
  datatype LastSent = Never | At(t: int) | Unparseable

  /** The identity of a queued item: `name.lower().strip()`. */
  function QueueKey(name: string): string {
    Strip(LowerStr(name))
  }

  /** The identities of the queued items, in queue order. */
  function ItemKeys(pending: seq<PendingItem>): (ks: seq<string>)
    ensures |ks| == |pending|
  {
    if pending == [] then [] else ItemKeys(pending[..|pending| - 1]) + [QueueKey(pending[|pending| - 1].name)]
  }

  lemma {:induction false} ItemKeysAt(pending: seq<PendingItem>, i: int)
    requires 0 <= i < |pending|
    ensures ItemKeys(pending)[i] == QueueKey(pending[i].name)
  {
    if i < |pending| - 1 {
      var p := pending[..|pending| - 1];
      ItemKeysAt(p, i);
    }
  }

  /** Only the names of the items determine their identities. */
  lemma {:induction false} ItemKeysNames(p: seq<PendingItem>, q: seq<PendingItem>)
    requires |p| == |q| && forall i :: 0 <= i < |p| ==> p[i].name == q[i].name
    ensures ItemKeys(p) == ItemKeys(q)
  {
    if p != [] {
      ItemKeysNames(p[..|p| - 1], q[..|q| - 1]);
    }
  }

  ghost predicate Distinct(ks: seq<string>) {
    forall i, j :: 0 <= i < j < |ks| ==> ks[i] != ks[j]
  }

  /** No two queued items share an identity. */
  ghost predicate DistinctQueueKeys(pending: seq<PendingItem>) {
    Distinct(ItemKeys(pending))
  }

  /** The first position of `key` in `ks`. */
  function FindKey(ks: seq<string>, key: string): (r: Option<nat>)
    ensures r.Some? ==> r.value < |ks| && ks[r.value] == key && key !in ks[..r.value]
    ensures r.None? <==> key !in ks
  {
    if ks == [] then None
    else if ks[0] == key then Some(0)
    else match FindKey(ks[1..], key)
      case None => None
      case Some(i) =>
        assert ks[..i + 1] == [ks[0]] + ks[1..][..i];
        Some(i + 1)
  }

  /** The first position of `key` is the one with no earlier `key`. */
  lemma FindKeyAt(ks: seq<string>, key: string, i: int)
    requires 0 <= i < |ks| && ks[i] == key
    requires forall j :: 0 <= j < i ==> ks[j] != key
    ensures FindKey(ks, key) == Some(i)
  {
  }

  /** The scan of `queue_signal` for an item with the signal's identity. */
  function FindItem(pending: seq<PendingItem>, key: string): (r: Option<nat>)
    ensures r.Some? ==> r.value < |pending|
  {
    FindKey(ItemKeys(pending), key)
  }

  /** `FindItem` finds the first item whose identity is `key`, and finds
      nothing exactly when no item has it. */
  lemma FindItemFirst(pending: seq<PendingItem>, key: string)
    ensures FindItem(pending, key).Some? ==>
      var i := FindItem(pending, key).value;
      QueueKey(pending[i].name) == key && forall j :: 0 <= j < i ==> QueueKey(pending[j].name) != key
    ensures FindItem(pending, key).None? <==> forall j :: 0 <= j < |pending| ==> QueueKey(pending[j].name) != key
  {
    var ks := ItemKeys(pending);
    forall j | 0 <= j < |pending| ensures ks[j] == QueueKey(pending[j].name) {
      ItemKeysAt(pending, j);
    }
    if FindItem(pending, key).Some? {
      var i := FindItem(pending, key).value;
      forall j | 0 <= j < i ensures QueueKey(pending[j].name) != key {
        assert ks[j] in ks[..i];
      }
    }
  }

  /** The in-place update of a matching item: union of the tags, sorted; the
      existing url unless it is empty; the larger score. */
  function MergeInto(item: PendingItem, sig: Signal): (r: PendingItem)
    ensures r.name == item.name && r.ts == item.ts
    ensures StrictlySorted(r.tags) && Elems(r.tags) == Elems(item.tags) + Elems(sig.tags)
    ensures item.url != "" ==> r.url == item.url
    ensures item.url == "" ==> r.url == sig.url
    ensures r.score >= item.score && r.score >= sig.score
    ensures r.score == item.score || r.score == sig.score
  {
    var tags := SortedSet(item.tags + sig.tags);
    assert Elems(item.tags + sig.tags) == Elems(item.tags) + Elems(sig.tags);
    var url := if item.url == "" && sig.url != "" then sig.url else item.url;
    var score := if item.score >= sig.score then item.score else sig.score;
    PendingItem(item.name, url, tags, score, item.ts)
  }

  /** A new item for an unseen signal, stamped with the current time. */
  function NewItem(sig: Signal, now: int): PendingItem {
    PendingItem(sig.name, sig.url, sig.tags, sig.score, now)
  }

  /** `pending_signals` after `queue_signal(state, sig)` at time `now`. */
  function Enqueue(pending: seq<PendingItem>, sig: Signal, now: int): seq<PendingItem> {
    match FindItem(pending, QueueKey(sig.name))
    case Some(i) => pending[i := MergeInto(pending[i], sig)]
    case None => pending + [NewItem(sig, now)]
  }

  /** Queuing adds the signal's identity to the identities of the queue, and
      only when it was not there yet. */
  lemma EnqueueItemKeys(pending: seq<PendingItem>, sig: Signal, now: int)
    ensures QueueKey(sig.name) in ItemKeys(pending) ==> ItemKeys(Enqueue(pending, sig, now)) == ItemKeys(pending)
    ensures QueueKey(sig.name) !in ItemKeys(pending) ==>
      ItemKeys(Enqueue(pending, sig, now)) == ItemKeys(pending) + [QueueKey(sig.name)]
  {
    var r := Enqueue(pending, sig, now);
    match FindItem(pending, QueueKey(sig.name))
    case Some(i) =>
      ItemKeysNames(pending, r);
    case None =>
      assert r[..|r| - 1] == pending;
  }

  /** Queuing keeps identities distinct. */
  lemma EnqueueDistinct(pending: seq<PendingItem>, sig: Signal, now: int)
    requires DistinctQueueKeys(pending)
    ensures DistinctQueueKeys(Enqueue(pending, sig, now))
  {
    EnqueueItemKeys(pending, sig, now);
  }

  /** When an item already has the signal's identity, the first such item is
      merged in place: same length, every other item untouched. */
  lemma EnqueueMerges(pending: seq<PendingItem>, sig: Signal, now: int, i: int)
    requires 0 <= i < |pending| && QueueKey(pending[i].name) == QueueKey(sig.name)
    requires forall j :: 0 <= j < i ==> QueueKey(pending[j].name) != QueueKey(sig.name)
    ensures |Enqueue(pending, sig, now)| == |pending|
    ensures Enqueue(pending, sig, now)[i] == MergeInto(pending[i], sig)
    ensures forall j :: 0 <= j < |pending| && j != i ==> Enqueue(pending, sig, now)[j] == pending[j]
  {
    FindItemFirst(pending, QueueKey(sig.name));
  }

  /** Otherwise exactly one new item, stamped `now`, goes at the end. */
  lemma EnqueueAppends(pending: seq<PendingItem>, sig: Signal, now: int)
    requires forall j :: 0 <= j < |pending| ==> QueueKey(pending[j].name) != QueueKey(sig.name)
    ensures Enqueue(pending, sig, now) == pending + [PendingItem(sig.name, sig.url, sig.tags, sig.score, now)]
  {
    FindItemFirst(pending, QueueKey(sig.name));
  }

  /** Queuing never drops, renames or downgrades an item already queued. */
  lemma EnqueueKeeps(pending: seq<PendingItem>, sig: Signal, now: int, j: int)
    requires 0 <= j < |pending|
    ensures var r := Enqueue(pending, sig, now);
      j < |r| && r[j].name == pending[j].name && r[j].score >= pending[j].score
  {
  }

  /** After queuing, some item carries the signal's identity with at least
      the signal's score. */
  lemma EnqueuePlaces(pending: seq<PendingItem>, sig: Signal, now: int) returns (j: nat)
    ensures var r := Enqueue(pending, sig, now);
      j < |r| && QueueKey(r[j].name) == QueueKey(sig.name) && r[j].score >= sig.score
  {
    match FindItem(pending, QueueKey(sig.name))
    case Some(i) =>
      ItemKeysAt(pending, i);
      j := i;
    case None =>
      j := |pending|;
  }

  /** `timedelta(hours=DIGEST_INTERVAL_HOURS)` in seconds. */
  function WindowSeconds(hours: int): int {
    hours * 3600
  }

  /** `should_send_digest`: nothing to send means not due; no usable record
      of a previous send means due; otherwise due once the window has
      elapsed. */
  function ShouldSendDigest(pending: seq<PendingItem>, last: LastSent, now: int, window: int): (due: bool)
    ensures pending == [] ==> !due
    ensures pending != [] && (last.Never? || last.Unparseable?) ==> due
    ensures pending != [] && last.At? ==> (due <==> now - last.t >= window)
  {
    if pending == [] then false
    else match last
      case Never => true
      case Unparseable => true
      case At(t) => now - t >= window
  }

  /** The window boundary is exact: not due one second before `t + window`,
      due at `t + window`. */
  lemma DueBoundary(pending: seq<PendingItem>, t: int, window: int)
    requires pending != []
    ensures !ShouldSendDigest(pending, At(t), t + window - 1, window)
    ensures ShouldSendDigest(pending, At(t), t + window, window)
  {
  }

  /** Once due, a digest stays due as time passes. */
  lemma DueStaysDue(pending: seq<PendingItem>, last: LastSent, now: int, later: int, window: int)
    requires ShouldSendDigest(pending, last, now, window) && now <= later
    ensures ShouldSendDigest(pending, last, later, window)
  {
  }

  /** `a` may precede `b` under the sort key `(-score, name.lower())`. */
  predicate RowLe(a: PendingItem, b: PendingItem) {
    a.score > b.score || (a.score == b.score && !Less(LowerStr(b.name), LowerStr(a.name)))
  }

  lemma RowLeTotal(a: PendingItem, b: PendingItem)
    ensures RowLe(a, b) || RowLe(b, a)
  {
    if a.score == b.score && Less(LowerStr(b.name), LowerStr(a.name)) {
      LessAsymmetric(LowerStr(b.name), LowerStr(a.name));
    }
  }

  lemma RowLeTransitive(a: PendingItem, b: PendingItem, c: PendingItem)
    requires RowLe(a, b) && RowLe(b, c)
    ensures RowLe(a, c)
  {
    var la, lb, lc := LowerStr(a.name), LowerStr(b.name), LowerStr(c.name);
    if a.score == c.score && Less(lc, la) {
      assert a.score == b.score && b.score == c.score;
      LessTotal(la, lb);
      LessTotal(lb, lc);
      if la == lb {
      } else if lb == lc {
      } else {
        LessTransitive(la, lb, lc);
        LessAsymmetric(la, lc);
      }
    }
  }

  ghost predicate RowsSorted(rows: seq<PendingItem>) {
    forall i, j :: 0 <= i < j < |rows| ==> RowLe(rows[i], rows[j])
  }

  /** Inserts `x` after the leading rows that sort before or with it. */
  function InsertRow(rows: seq<PendingItem>, x: PendingItem): (r: seq<PendingItem>)
    ensures multiset(r) == multiset(rows) + multiset{x}
  {
    if rows == [] then [x]
    else if !RowLe(rows[0], x) then [x] + rows
    else
      assert rows == [rows[0]] + rows[1..];
      [rows[0]] + InsertRow(rows[1..], x)
  }

  /** Ordered rows stay ordered behind a row that sorts before or with all
      of them. */
  lemma SortedCons(h: PendingItem, s: seq<PendingItem>)
    requires RowsSorted(s)
    requires forall j :: 0 <= j < |s| ==> RowLe(h, s[j])
    ensures RowsSorted([h] + s)
  {
  }

  /** Inserting into ordered rows keeps them ordered. */
  lemma {:induction false} InsertRowSorted(rows: seq<PendingItem>, x: PendingItem)
    requires RowsSorted(rows)
    ensures RowsSorted(InsertRow(rows, x))
  {
    if rows == [] {
    } else if !RowLe(rows[0], x) {
      RowLeTotal(rows[0], x);
      forall j | 0 <= j < |rows| ensures RowLe(x, rows[j]) {
        if j > 0 {
          RowLeTransitive(x, rows[0], rows[j]);
        }
      }
      SortedCons(x, rows);
    } else {
      var tail := rows[1..];
      var t := InsertRow(tail, x);
      assert RowsSorted(tail) by {
        forall i, j | 0 <= i < j < |tail| ensures RowLe(tail[i], tail[j]) {
          assert tail[i] == rows[i + 1] && tail[j] == rows[j + 1];
        }
      }
      InsertRowSorted(tail, x);
      forall j | 0 <= j < |t| ensures RowLe(rows[0], t[j]) {
        assert t[j] in multiset(t);
        if t[j] != x {
          assert t[j] in multiset(tail);
          var k :| 0 <= k < |tail| && tail[k] == t[j];
          assert rows[k + 1] == t[j];
        }
      }
      SortedCons(rows[0], t);
    }
  }

  /** `sorted(pending, key=lambda x: (-score, name.lower()))`: the same items,
      ordered by score descending, then by lower-cased name ascending. */
  function DigestOrder(pending: seq<PendingItem>): (rows: seq<PendingItem>)
    ensures RowsSorted(rows)
    ensures multiset(rows) == multiset(pending)
  {
    if pending == [] then []
    else
      var p := pending[..|pending| - 1];
      assert pending == p + [pending[|pending| - 1]];
      InsertRowSorted(DigestOrder(p), pending[|pending| - 1]);
      InsertRow(DigestOrder(p), pending[|pending| - 1])
  }
}
