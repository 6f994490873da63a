# VC signal bot: aggregation and digest pipeline, in Dafny

This project models the core of `vc_signal_bot.py`. The bot reads the
portfolio pages of several venture-capital firms. It merges the project
names it finds across firms and scores each project by how many firms
corroborate it. Projects above a threshold that have not been signalled at
that score before go into a digest queue. The queue is flushed as one
digest once the digest window has elapsed.

The model follows the program's own steps:

- `text.dfy` (module `Text`) covers the string operations the pipeline
  relies on:
  - whitespace as Python's `str.isspace` set;
  - `lower()`;
  - `strip()`;
  - the `\s+` collapse of `normalize_project_name`, proved to join the
    name's words with single spaces;
  - decimal rendering of the score inside a bucket key.
- `order.dfy` (module `Order`) covers Python's string order and
  `sorted(set(...))` on lists of strings.
- `assoc.dfy` (module `Assoc`) models an insertion-ordered Python dict as an
  association list. `Put` overwrites a key in place or appends it.
- `parser.dfy` (module `Parser`) covers the filters and the first-wins
  de-duplication of `generic_portfolio_parser`.
- `merge.dfy` (module `Merge`) covers the cross-source merge loop of `main`,
  which builds `vc_hits`.
- `scoring.dfy` (module `Scoring`) covers `score_project`, its weights and
  the bucket key `name_lc:score`.
- `digest.dfy` (module `Digest`) covers the following:
  - the digest queue (`queue_signal`);
  - the due condition (`should_send_digest`);
  - the row order of the digest.
- `signals.dfy` (module `Signals`) gives a functional specification of the
  signal loop of `main`. The loop covers the corroboration filter, the
  threshold, the ledger gate and queuing.
- `bot.dfy` (module `Bot`) holds the class `BotState`. Its fields are the
  ledger `seen_items["vc_signals"]`, `pending_signals` and
  `last_digest_sent`. Its methods update them in place, one method per step
  of a run, and each is proved equal to the functional specification.

Time is an integer number of seconds. The transport outcome of the digest
mail is a boolean parameter. The CoinGecko name set is a parameter. Each
source's fetched candidate list is a parameter.

Three behaviours of the code are easy to misread:

- Within one source, duplicate names are resolved first-wins (the
  `continue` at line 267), not last-wins.
- The `tags` of a signal are the source names in first-seen order
  (line 646). They are sorted only when `queue_signal` merges two signals
  (line 508). A newly appended item keeps the unsorted order.
- `should_send_digest` treats an unparseable `last_digest_sent` as due
  (line 526), just as it treats a missing one.

## Model

| member | source | states |
|---|---|---|
| Text.IsSpace | vc_signal_bot.py:115 | the whitespace set of `\s` and `str.strip()` (Python's `str.isspace`), also used by the `strip()` of line 503; `Strip`, `Collapse` and `Words` are stated in terms of it |
| Text.Strip | vc_signal_bot.py:115 | the result has no leading or trailing whitespace and keeps every non-whitespace character of the input, in order |
| Text.StripOffset | vc_signal_bot.py:115 | the stripped string is a contiguous slice of the input |
| Text.CollapseSound | vc_signal_bot.py:115 | collapsing whitespace runs leaves no two adjacent whitespace characters, only ' ' as whitespace, and the same non-whitespace characters; it is empty exactly when the input is (that the words stay apart is `WordsCollapse`) |
| Text.StripCollapsed | vc_signal_bot.py:115 | stripping a collapsed string yields a canonical name |
| Text.NormalizeProjectName | vc_signal_bot.py:114-116 | the normalised name has no leading or trailing whitespace, no two consecutive whitespace characters, only ' ' as whitespace, exactly the input's non-whitespace characters in order, and exactly the input's words in order |
| Text.CanonicalFixed | vc_signal_bot.py:114-116 | a canonical name is its own normal form |
| Text.NormalizeIdempotent | vc_signal_bot.py:114-116 | normalising twice gives the same result as normalising once |
| Text.Collapse | vc_signal_bot.py:115 | `re.sub(r"\s+", " ", name)`: each maximal whitespace run becomes one ' '; its properties are stated by `CollapseSound` and `WordsCollapse` |
| Text.WordsCollapse | vc_signal_bot.py:115 | collapsing keeps the words (maximal non-whitespace runs) of the name: a run between two words becomes a space, never nothing |
| Text.CanonicalJoin | vc_signal_bot.py:114-116 | a canonical name is its words joined by single spaces |
| Text.NormalizeJoinsWords | vc_signal_bot.py:114-116 | the normalised name is the input's words joined by single spaces, so names that differ in their word breaks stay different |
| Text.LowerStr | vc_signal_bot.py:266 | `s.lower()` keeps the length; `LowerStrAt` gives it character by character |
| Text.LowerStrAt | vc_signal_bot.py:266 | `lower()` maps each character independently and keeps the length |
| Text.NatToString | vc_signal_bot.py:657 | the decimal rendering of a score is a non-empty string of digits with no leading zero except for 0 itself |
| Text.ParseNatToString | vc_signal_bot.py:657 | reading the decimal rendering back gives the score |
| Text.NatToStringInjective | vc_signal_bot.py:657 | different scores render differently |
| Order.Less | vc_signal_bot.py:508 | Python's `<` on `str` (code-point order), used by `sorted` here and at line 531; `LessTotal`, `LessTransitive`, `LessIrreflexive` and `LessAsymmetric` state that it is a strict total order |
| Order.LessTotal | vc_signal_bot.py:531 | any two different strings are ordered one way or the other |
| Order.LessTransitive | vc_signal_bot.py:531 | string order is transitive |
| Order.LessIrreflexive | vc_signal_bot.py:531 | no string precedes itself |
| Order.LessAsymmetric | vc_signal_bot.py:531 | two strings never precede each other |
| Order.InsertUnique | vc_signal_bot.py:508 | inserting into a strictly sorted list keeps it strictly sorted and adds exactly the new element |
| Order.SortedSet | vc_signal_bot.py:508 | `sorted(set(xs))` is strictly ascending, without duplicates, and holds exactly the elements of `xs` |
| Order.StrictlySortedUnique | vc_signal_bot.py:508 | two strictly sorted lists with the same elements are equal |
| Assoc.Put | vc_signal_bot.py:629 | `d[k] = v` on an insertion-ordered dict; its key order is stated by `PutKeys` and its reads by `GetPut` |
| Assoc.Get | vc_signal_bot.py:627-629 | a lookup finds a value exactly when the key is present, and the value it finds is stored under that key |
| Assoc.PutKeys | vc_signal_bot.py:627-629 | assigning to a dict keeps the key order and appends a key only when it is new |
| Assoc.GetPut | vc_signal_bot.py:627-629 | after an assignment, the assigned key reads the new value and every other key reads what it read before |
| Assoc.PutDistinct | vc_signal_bot.py:627-629 | assignment keeps the keys distinct |
| Parser.Keep | vc_signal_bot.py:243-259 | the conjunction of every filter of the extraction loop; `KeptAnchor` states it |
| Parser.Extracted | vc_signal_bot.py:240-260 | the extracted pairs, in page order, are never more than the anchors; membership is stated by `ExtractedMembers` |
| Parser.Item | vc_signal_bot.py:260 | the pair appended for a kept anchor: the normalised text and the resolved link; `KeptAnchor` states that its name is canonical |
| Parser.ExtractedMembers | vc_signal_bot.py:240-260 | a pair is extracted exactly when some anchor passes every filter and yields that pair |
| Parser.KeptAnchor | vc_signal_bot.py:243-260 | a kept anchor has a non-empty href not starting with '#', text length in [2, 60], a lower-cased text outside the stop words, is not own-domain navigation, and yields a canonical name |
| Parser.ExtractItems | vc_signal_bot.py:240-260 | the extraction loop yields the kept anchors' pairs in page order |
| Parser.NameKey | vc_signal_bot.py:266 | the de-duplication key `name.lower()`; `DedupKeepsFirsts` states the first-wins rule over it |
| Parser.Dedup | vc_signal_bot.py:262-271 | the first-wins de-duplication by lower-cased name, specified against `KeepFirsts` by `DedupKeepsFirsts` |
| Parser.DedupByName | vc_signal_bot.py:262-271 | the de-duplication loop computes the first-wins de-duplication |
| Parser.DedupKeys | vc_signal_bot.py:262-271 | every lower-cased name of the input survives de-duplication |
| Parser.DedupDistinct | vc_signal_bot.py:262-271 | the de-duplicated list has pairwise distinct lower-cased names |
| Parser.DedupKeepsFirsts | vc_signal_bot.py:262-271 | de-duplication keeps exactly the first pair of each lower-cased name, in input order |
| Parser.KeepFirstsSubset | vc_signal_bot.py:262-271 | every pair kept by de-duplication comes from its input |
| Parser.CleanCandidates | vc_signal_bot.py:240-271 | a source's result is the first pair per lower-cased name among the extracted pairs, with distinct lower-cased names and canonical names |
| Merge.Flatten | vc_signal_bot.py:622-625 | the candidates of all sources in source order, each tagged with its source; `FlattenSnoc` and `MergeRuns` state how the nested loops visit them |
| Merge.FlattenSnoc | vc_signal_bot.py:622-625 | the observations of the first i+1 sources are those of the first i followed by those of source i |
| Merge.AddObs | vc_signal_bot.py:626-629 | one pass of the merge loop body (`setdefault`, display overwrite, source url assignment); its effect is stated by `MergeDisplay`, `MergeSources` and `MergeSourceOrder` |
| Merge.SourcesOf | vc_signal_bot.py:627 | the source map of a name's record, or the empty map the `setdefault` default supplies for a new name; `MergeSources` states its contents |
| Merge.MergeObs | vc_signal_bot.py:620-629 | `vc_hits` after the merge of a sequence of observations; stated by the lemmas below |
| Merge.MergeSnoc | vc_signal_bot.py:625-629 | merging one more observation is one more step of the merge loop |
| Merge.MergeDisplay | vc_signal_bot.py:626-628 | a lower-cased name has a record exactly when some observation had it, and its display name is the last such observation's casing |
| Merge.MergeSources | vc_signal_bot.py:629 | a source's url in a record is the last url that source gave for that name, and a source that never gave it is absent |
| Merge.LastUrlNone | vc_signal_bot.py:627-629 | a name never observed has no source url |
| Merge.MergeSourcesWellFormed | vc_signal_bot.py:627-629 | every record has at least one source, and each source appears at most once |
| Merge.MergeKeys | vc_signal_bot.py:625-627 | there is exactly one record per lower-cased observed name and no other |
| Merge.MergeOrder | vc_signal_bot.py:625-627 | `vc_hits` iterates the lower-cased names in the order they were first observed |
| Merge.MergeSourceOrder | vc_signal_bot.py:627-629 | a record's source map iterates its sources in the order they first reported the name; a source reporting it again keeps its place |
| Merge.FoldRunMerges | vc_signal_bot.py:625-629 | the inner loop over one source continues the merge of all earlier observations |
| Merge.MergeSource | vc_signal_bot.py:625-629 | the inner loop over one source's pairs computes its fold |
| Merge.MergeRuns | vc_signal_bot.py:620-629 | the merge loop over all sources equals the merge of all observations in source order |
| Scoring.ScoreProject | vc_signal_bot.py:436-464 | the score is 10 for a source, plus 8 for two or more, plus 1 for a url, plus 2 for CoinGecko presence, so it lies in 0..21 and the +8 never comes without the +10 |
| Scoring.ScoreDetermines | vc_signal_bot.py:454-464 | equal scores imply the same source tier, the same url presence and the same CoinGecko presence |
| Scoring.Bucket | vc_signal_bot.py:657 | the ledger key `f"{name_lc}:{score}"`; `BucketInjective` states that it identifies name and score |
| Scoring.LastColonOfBucket | vc_signal_bot.py:657 | the last ':' of a bucket key separates the name from the score |
| Scoring.BucketInjective | vc_signal_bot.py:657 | equal bucket keys have the same lower-cased name and the same score |
| Digest.QueueKey | vc_signal_bot.py:503 | an item's identity `name.lower().strip()`; `ItemKeysAt` ties it to the queue scan |
| Digest.ItemKeysAt | vc_signal_bot.py:503-506 | the identity of a queued item is its name lower-cased and stripped |
| Digest.ItemKeysNames | vc_signal_bot.py:503-506 | items with the same names have the same identities |
| Digest.FindKey | vc_signal_bot.py:505-506 | the scan finds the first position holding the identity, and finds nothing exactly when none does |
| Digest.FindItem | vc_signal_bot.py:505-506 | the scan for an item with the signal's identity; `FindItemFirst` states that it finds the first such item, and nothing exactly when none exists |
| Digest.FindItemFirst | vc_signal_bot.py:505-506 | the scan finds the first queued item with the signal's identity, and finds nothing exactly when there is none |
| Digest.MergeInto | vc_signal_bot.py:507-511 | a merged item keeps its name and time stamp, gets the sorted union of the tags, gets the new url only if its own is empty, and gets the larger score |
| Digest.NewItem | vc_signal_bot.py:513-514 | the appended item: the signal stamped with the current time; `EnqueueAppends` states when and where it is added |
| Digest.Enqueue | vc_signal_bot.py:500-514 | `pending_signals` after `queue_signal`; stated by `EnqueueMerges`, `EnqueueAppends`, `EnqueueItemKeys`, `EnqueueKeeps` and `EnqueuePlaces` |
| Digest.EnqueueMerges | vc_signal_bot.py:505-512 | when an item matches, the first match is merged in place, the length is unchanged and every other item is untouched |
| Digest.EnqueueAppends | vc_signal_bot.py:513-514 | when nothing matches, exactly one item stamped with the current time is appended |
| Digest.EnqueueItemKeys | vc_signal_bot.py:500-514 | queuing adds the signal's identity to the queue's identities only when it was absent |
| Digest.EnqueueDistinct | vc_signal_bot.py:500-514 | queuing keeps the identities of the queue distinct |
| Digest.EnqueueKeeps | vc_signal_bot.py:505-514 | queuing never removes, renames or lowers the score of an item already queued |
| Digest.EnqueuePlaces | vc_signal_bot.py:505-514 | after queuing, some item has the signal's identity and at least the signal's score |
| Digest.ShouldSendDigest | vc_signal_bot.py:516-527 | not due when nothing is pending; due when something is pending and no usable last-sent time exists; otherwise due exactly when the window has elapsed |
| Digest.WindowSeconds | vc_signal_bot.py:527 | `timedelta(hours=DIGEST_INTERVAL_HOURS)` in seconds; `DueBoundary` states the boundary it sets |
| Digest.DueBoundary | vc_signal_bot.py:527 | not due one second before last + window, due at last + window |
| Digest.DueStaysDue | vc_signal_bot.py:527 | once due, the digest stays due as time passes |
| Digest.RowLe | vc_signal_bot.py:531 | the sort key (-score, lower-cased name) as an order on items; `RowLeTotal`, `RowLeTransitive` and `DigestOrder` state its properties |
| Digest.RowLeTotal | vc_signal_bot.py:531 | any two items are comparable under the key (-score, lower-cased name) |
| Digest.RowLeTransitive | vc_signal_bot.py:531 | the order under that key is transitive |
| Digest.InsertRow | vc_signal_bot.py:531 | inserting a row adds exactly that row: the result holds the old rows and the new one, as a multiset |
| Digest.InsertRowSorted | vc_signal_bot.py:531 | inserting a row into rows ordered by (-score, lower-cased name) keeps them ordered |
| Digest.DigestOrder | vc_signal_bot.py:531 | the digest rows are the pending items, permuted, ordered by score descending and then by lower-cased name ascending |
| Signals.Tags | vc_signal_bot.py:646 | `list(source_map.keys())`; `RecordTagsAndLink` states that these are the sources in first-reported order |
| Signals.FirstLink | vc_signal_bot.py:645 | the first url of the source map, or none; `RecordTagsAndLink` states that it is the latest url of the first source |
| Signals.RecordScore | vc_signal_bot.py:653-654 | `has_cg = name_lc in cg_names` and the call to `score_project`; `Admit` and `ScoreProject` state the result |
| Signals.Admit | vc_signal_bot.py:642-656 | a record yields a signal exactly when it passes the corroboration filter and its score reaches the threshold; the signal carries the display name, the first url, the sources and that score |
| Signals.Step | vc_signal_bot.py:642-667 | the loop body for one record: filter, score, threshold, ledger gate, then append the bucket and queue |
| Signals.Process | vc_signal_bot.py:642-667 | the signal loop over the records in `vc_hits` order; stated by the lemmas below |
| Signals.RecordTagsAndLink | vc_signal_bot.py:643-646 | a merged record's tags are its sources in first-reported order, and its first link is the latest url of the first of them |
| Signals.ProcessLedgerGrows | vc_signal_bot.py:657-660 | the signal loop only appends to the ledger |
| Signals.ProcessRecords | vc_signal_bot.py:656-660 | after the loop, the bucket of every admitted record is in the ledger |
| Signals.ProcessIdle | vc_signal_bot.py:642-667 | a loop in which every admitted bucket is already known changes neither the ledger nor the queue |
| Signals.RerunQueuesNothing | vc_signal_bot.py:642-667 | a second run on the same records with the ledger the first left adds nothing to the ledger and queues nothing, whatever is pending |
| Signals.QueuedOnlyIfFresh | vc_signal_bot.py:649-667 | every identity the loop adds to the queue comes from a record that passed the filter and threshold and whose bucket was absent beforehand |
| Signals.ProcessLedgerFrom | vc_signal_bot.py:656-660 | every bucket the loop adds to the ledger is the bucket of an admitted record |
| Signals.FreshQueuedAt | vc_signal_bot.py:656-667 | an admitted record whose bucket is absent at its turn leaves an item with its identity and at least its score in the queue |
| Signals.FreshQueued | vc_signal_bot.py:656-667 | the same, as a statement about the queue after the loop: the gate lets a fresh bucket through to the queue |
| Signals.FreshRecordQueued | vc_signal_bot.py:642-667 | with one record per name, as the merge yields, an admitted record whose bucket is not in the ledger at the start is queued |
| Signals.HigherScoreRealerts | vc_signal_bot.py:656-667 | a name that alerted at one score is queued again in a later run when it reaches a higher score not signalled before |
| Signals.SingleSourceNeverQueued | vc_signal_bot.py:649-650 | with `REQUIRE_MULTI_VC`, every identity the loop adds comes from a record with at least two sources |
| Signals.ProcessDistinct | vc_signal_bot.py:642-667 | the loop keeps the queue's identities distinct |
| Bot.BotState.Load | vc_signal_bot.py:493-498 | a missing queue starts empty, as `state_get_list` makes it; a missing ledger starts empty too, which the `setdefault` calls at lines 616 and 658 provide |
| Bot.BotState.QueueSignal | vc_signal_bot.py:500-514 | the in-place queue update equals the specified merge-or-append (so `EnqueueDistinct` applies to it) and leaves the ledger and the last-sent time alone |
| Bot.BotState.ProcessSignals | vc_signal_bot.py:642-667 | the in-place signal loop equals its specification (so `FreshQueued` and `QueuedOnlyIfFresh` describe what it queues), only appends to the ledger, and keeps the queue's identities distinct |
| Bot.BotState.SendDigestIfDue | vc_signal_bot.py:569-585 | a digest is handed over exactly when due, with rows in digest order and the fallback in queue order; only a delivered digest empties the queue and records the time; otherwise nothing changes |
| Bot.BotState.RunOnce | vc_signal_bot.py:614-670 | one run merges the sources, runs the signal loop and sends the digest if due, with the state each step specifies |

## Left out

- `lower()` is modelled for ASCII letters only. Python lower-cases every cased Unicode character, and some of them change length.
- HTTP fetching with its retry and back-off loop, random User-Agent choice and cloudscraper (lines 274-307) are not modelled. A source's result is a given candidate list, and a failed source gives the empty list.
- BeautifulSoup anchor extraction, `get_text(strip=True)`, `urljoin`, `domain_of` and the project-path regex (lines 236-260) are not modelled. Each anchor arrives with its text, raw href, resolved link, and an own-navigation flag.
- Fetching the CoinGecko list (lines 419-431) is not modelled. The lower-cased name set is a parameter.
- The transports (`send_email_html`, `send_email`, `send_sms`, `tg_send`, `notify`) are not modelled. The digest mail's outcome is the boolean `delivered`.
- `load_state` and `save_state` (lines 93-111) are not modelled: JSON file I/O and the atomic rename. `BotState.Load` takes the already parsed fields.
- `now_local`, time zones and ISO formatting are not modelled. Time is integer seconds, and one clock value serves a whole run. The code reads the clock again for each queued item and for the sent time.
- A naive stored `last_digest_sent` compared with an aware clock raises `TypeError` at line 527. The model has a single time scale, so this error is not modelled.
- The HTML and plain-text markup of `render_digest_html` and `send_digest_if_due` is not modelled, nor is `html.escape`. The digest is modelled as its ordered rows and its queue-order fallback items.
- Digest.DigestOrder: the sort is specified as ordered and a permutation, but stability for equal keys is not stated.
- An absent url (`None`) and an empty url are both modelled as the empty string. The code treats both as false everywhere it tests a url.
- A ledger that is present but not a list is not modelled.
- Configuration from the environment, the `EMAIL_TEST` exit and the polling loop in `__main__` are not modelled. The threshold, `REQUIRE_MULTI_VC` and the digest hours are fields of `Config`.
- `build_alert_message` and per-signal alerts are not modelled, because nothing in the run calls them.
