/**
 * The cross-source merge of one run (`vc_hits` in `main`): every candidate of
 * every source is folded, in registry order, into one record per lower-cased
 * name holding the latest casing and, per source name, the latest url.
 */
module Merge {
  import opened Wrappers
  import opened Text
  import opened Assoc
  import opened Parser

  /** The candidates one source yielded this run (empty when fetching or
      parsing failed). */
  datatype SourceRun = SourceRun(source: string, projects: seq<Candidate>)

  /** One candidate as seen by the merge loop, tagged with its source. */
  datatype Obs = Obs(source: string, name: string, url: string)

  /** `{"display": ..., "sources": {source name: url}}` */
  datatype Entry = Entry(display: string, sources: Assoc<string, string>)

  /** `vc_hits`: lower-cased name -> entry, in insertion order. */
  type Hits = Assoc<string, Entry>

  /** The candidates of all sources in processing order. */
  function Flatten(runs: seq<SourceRun>): (obs: seq<Obs>) {
    if runs == [] then []
    else Flatten(runs[..|runs| - 1]) + ObsOf(runs[|runs| - 1], |runs[|runs| - 1].projects|)
  }

  /** The first `n` candidates of one source. */
  function ObsOf(run: SourceRun, n: nat): seq<Obs>
    requires n <= |run.projects|
  {
    if n == 0 then []
    else ObsOf(run, n - 1) + [Obs(run.source, run.projects[n - 1].name, run.projects[n - 1].url)]
  }

  /** One pass of the inner loop body: `setdefault`, overwrite the display
      name, set the source's url. */
  function AddObs(hits: Hits, o: Obs): Hits {
    var key := LowerStr(o.name);
    Put(hits, key, Entry(o.name, Put(SourcesOf(hits, key), o.source, o.url)))
  }

  /** The source map recorded for `key`, empty for a new key. */
  function SourcesOf(hits: Hits, key: string): Assoc<string, string> {
    match Get(hits, key)
    case Some(e) => e.sources
    case None => []
  }

  /** The candidates of the first `i + 1` sources. */
  lemma FlattenSnoc(runs: seq<SourceRun>, i: nat)
    requires i < |runs|
    ensures Flatten(runs[..i + 1]) == Flatten(runs[..i]) + ObsOf(runs[i], |runs[i].projects|)
  {
    assert runs[..i + 1][..i] == runs[..i];
  }

  /** Merging one more candidate is one more pass of the loop body. */
  lemma MergeSnoc(obs: seq<Obs>, o: Obs)
    ensures MergeObs(obs + [o]) == AddObs(MergeObs(obs), o)
  {
  }

  /** `vc_hits` after folding in `obs`. */
  function MergeObs(obs: seq<Obs>): Hits {
    if obs == [] then [] else AddObs(MergeObs(obs[..|obs| - 1]), obs[|obs| - 1])
  }

  /** Reference: the casing of the last candidate whose lower-cased name is
      `key`. */
  function LastName(obs: seq<Obs>, key: string): Option<string> {
    if obs == [] then None
    else if LowerStr(obs[|obs| - 1].name) == key then Some(obs[|obs| - 1].name)
    else LastName(obs[..|obs| - 1], key)
  }

  /** Reference: the url of the last candidate of source `src` whose
      lower-cased name is `key`. */
  function LastUrl(obs: seq<Obs>, key: string, src: string): Option<string> {
    if obs == [] then None
    else if LowerStr(obs[|obs| - 1].name) == key && obs[|obs| - 1].source == src then Some(obs[|obs| - 1].url)
    else LastUrl(obs[..|obs| - 1], key, src)
  }

  /** A record exists for `key` exactly when some candidate has that
      lower-cased name, and its display name is the last casing seen. */
  lemma {:induction false} MergeDisplay(obs: seq<Obs>, key: string)
    ensures Get(MergeObs(obs), key).Some? <==> LastName(obs, key).Some?
    ensures Get(MergeObs(obs), key).Some? ==> Get(MergeObs(obs), key).value.display == LastName(obs, key).value
  {
    if obs != [] {
      var p := obs[..|obs| - 1];
      var o := obs[|obs| - 1];
      MergeDisplay(p, key);
      var h := MergeObs(p);
      var k := LowerStr(o.name);
      GetPut(h, k, Entry(o.name, Put(SourcesOf(h, k), o.source, o.url)), key);
    }
  }

  /** In the record of `key`, each source holds the last url that source gave
      for the name, and no url for a source that never gave the name. */
  lemma {:induction false} MergeSources(obs: seq<Obs>, key: string, src: string)
    requires Get(MergeObs(obs), key).Some?
    ensures Get(Get(MergeObs(obs), key).value.sources, src) == LastUrl(obs, key, src)
  {
    var p := obs[..|obs| - 1];
    var o := obs[|obs| - 1];
    var h := MergeObs(p);
    var k := LowerStr(o.name);
    var sources := SourcesOf(h, k);
    GetPut(h, k, Entry(o.name, Put(sources, o.source, o.url)), key);
    if k == key {
      GetPut(sources, o.source, o.url, src);
      if Get(h, k).Some? {
        MergeSources(p, key, src);
      } else {
        MergeDisplay(p, key);
        LastUrlNone(p, key, src);
      }
    } else {
      MergeSources(p, key, src);
    }
  }

  lemma {:induction false} LastUrlNone(obs: seq<Obs>, key: string, src: string)
    requires LastName(obs, key).None?
    ensures LastUrl(obs, key, src).None?
  {
    if obs != [] {
      LastUrlNone(obs[..|obs| - 1], key, src);
    }
  }

  /** The source map of every record is a proper dict with at least one
      source, so `first_link` always exists. */
  lemma {:induction false} MergeSourcesWellFormed(obs: seq<Obs>, key: string)
    requires Get(MergeObs(obs), key).Some?
    ensures Get(MergeObs(obs), key).value.sources != []
    ensures DistinctKeys(Get(MergeObs(obs), key).value.sources)
  {
    var p := obs[..|obs| - 1];
    var o := obs[|obs| - 1];
    var h := MergeObs(p);
    var k := LowerStr(o.name);
    var sources := SourcesOf(h, k);
    GetPut(h, k, Entry(o.name, Put(sources, o.source, o.url)), key);
    if k == key {
      if Get(h, k).Some? {
        MergeSourcesWellFormed(p, key);
      } else {
        assert DistinctKeys<string, string>([]);
      }
      PutDistinct(sources, o.source, o.url);
      PutKeys(sources, o.source, o.url);
    } else {
      MergeSourcesWellFormed(p, key);
    }
  }

  /** After the merge no lower-cased name has two records. */
  lemma {:induction false} MergeDistinct(obs: seq<Obs>)
    ensures DistinctKeys(MergeObs(obs))
  {
    if obs != [] {
      var p := obs[..|obs| - 1];
      var o := obs[|obs| - 1];
      MergeDistinct(p);
      var h := MergeObs(p);
      var k := LowerStr(o.name);
      PutDistinct(h, k, Entry(o.name, Put(SourcesOf(h, k), o.source, o.url)));
    }
  }

  /** Some candidate of `obs` has lower-cased name `key`. */
  ghost predicate HasName(obs: seq<Obs>, key: string) {
    exists o :: o in obs && LowerStr(o.name) == key
  }

  /** A name occurs in `p + [o]` exactly when it occurs in `p` or is `o`'s. */
  lemma HasNameSnoc(p: seq<Obs>, o: Obs, key: string)
    ensures HasName(p + [o], key) <==> HasName(p, key) || LowerStr(o.name) == key
  {
  }

  /** A lower-cased name has a record after the merge exactly when some
      candidate had it. */
  lemma {:induction false} MergeHasKey(obs: seq<Obs>, key: string)
    ensures key in Keys(MergeObs(obs)) <==> HasName(obs, key)
  {
    if obs != [] {
      var p := obs[..|obs| - 1];
      var o := obs[|obs| - 1];
      MergeHasKey(p, key);
      var h := MergeObs(p);
      var k := LowerStr(o.name);
      PutKeys(h, k, Entry(o.name, Put(SourcesOf(h, k), o.source, o.url)));
      SplitLast(obs);
      HasNameSnoc(p, o, key);
    }
  }

  /** After the merge the keys are distinct and are exactly the lower-cased
      candidate names. */
  lemma MergeKeys(obs: seq<Obs>)
    ensures DistinctKeys(MergeObs(obs))
    ensures forall key :: key in Keys(MergeObs(obs)) <==> exists o :: o in obs && LowerStr(o.name) == key
  {
    MergeDistinct(obs);
    forall key ensures key in Keys(MergeObs(obs)) <==> exists o :: o in obs && LowerStr(o.name) == key {
      MergeHasKey(obs, key);
    }
  }

  /** Reference: the lower-cased candidate names, each once, in the order
      they were first seen. */
  function FirstSeenNames(obs: seq<Obs>): seq<string> {
    if obs == [] then []
    else
      var p := FirstSeenNames(obs[..|obs| - 1]);
      var k := LowerStr(obs[|obs| - 1].name);
      if k in p then p else p + [k]
  }

  /** Reference: the sources that gave the name `key`, each once, in the
      order they first gave it. */
  function FirstSeenSources(obs: seq<Obs>, key: string): seq<string> {
    if obs == [] then []
    else
      var p := FirstSeenSources(obs[..|obs| - 1], key);
      var o := obs[|obs| - 1];
      if LowerStr(o.name) == key && o.source !in p then p + [o.source] else p
  }

  /** `vc_hits` iterates its names in the order they were first seen, so the
      signal loop visits records in that order. */
  lemma {:induction false} MergeOrder(obs: seq<Obs>)
    ensures Keys(MergeObs(obs)) == FirstSeenNames(obs)
  {
    if obs != [] {
      var p := obs[..|obs| - 1];
      var o := obs[|obs| - 1];
      MergeOrder(p);
      var h := MergeObs(p);
      var k := LowerStr(o.name);
      PutKeys(h, k, Entry(o.name, Put(SourcesOf(h, k), o.source, o.url)));
    }
  }

  /** A record's source map iterates its sources in the order they first
      reported the name; a later report of the same source keeps its place. */
  lemma {:induction false} MergeSourceOrder(obs: seq<Obs>, key: string)
    ensures Keys(SourcesOf(MergeObs(obs), key)) == FirstSeenSources(obs, key)
  {
    if obs != [] {
      var p := obs[..|obs| - 1];
      var o := obs[|obs| - 1];
      MergeSourceOrder(p, key);
      var h := MergeObs(p);
      var k := LowerStr(o.name);
      var sources := SourcesOf(h, k);
      GetPut(h, k, Entry(o.name, Put(sources, o.source, o.url)), key);
      if k == key {
        PutKeys(sources, o.source, o.url);
      }
    }
  }

  /** The merge loop of `main`: for each source, for each candidate, update
      `vc_hits` in place. */
  method MergeRuns(runs: seq<SourceRun>) returns (hits: Hits)
    ensures hits == MergeObs(Flatten(runs))
  {
    hits := [];
    var i := 0;
    while i < |runs|
      invariant 0 <= i <= |runs|
      invariant hits == MergeObs(Flatten(runs[..i]))
    {
      FlattenSnoc(runs, i);
      FoldRunMerges(Flatten(runs[..i]), runs[i], |runs[i].projects|);
      hits := MergeSource(hits, runs[i]);
      i := i + 1;
    }
    assert runs[..i] == runs;
  }

  /** `hits` after folding in the first `j` candidates of one source. */
  function FoldRun(hits: Hits, run: SourceRun, j: nat): Hits
    requires j <= |run.projects|
  {
    if j == 0 then hits
    else AddObs(FoldRun(hits, run, j - 1), Obs(run.source, run.projects[j - 1].name, run.projects[j - 1].url))
  }

  /** The candidates of a source up to `j` are those up to `j - 1` and then
      candidate `j - 1`. */
  lemma ObsOfSnoc(before: seq<Obs>, run: SourceRun, j: nat)
    requires 0 < j <= |run.projects|
    ensures before + ObsOf(run, j)
         == (before + ObsOf(run, j - 1)) + [Obs(run.source, run.projects[j - 1].name, run.projects[j - 1].url)]
  {
  }

  /** Folding one source into the merge of earlier candidates is the merge
      of all of them. */
  lemma {:induction false} FoldRunMerges(before: seq<Obs>, run: SourceRun, j: nat)
    requires j <= |run.projects|
    ensures FoldRun(MergeObs(before), run, j) == MergeObs(before + ObsOf(run, j))
    decreases j, 1
  {
    if j > 0 {
      FoldRunMergesStep(before, run, j);
    } else {
      FoldRunMergesBase(before, run);
    }
  }

  /** The base case of `FoldRunMerges`: no candidate of the source yet. */
  lemma FoldRunMergesBase(before: seq<Obs>, run: SourceRun)
    ensures FoldRun(MergeObs(before), run, 0) == MergeObs(before + ObsOf(run, 0))
  {
    assert before + ObsOf(run, 0) == before;
  }

  /** The inductive step of `FoldRunMerges`. */
  lemma {:induction false} FoldRunMergesStep(before: seq<Obs>, run: SourceRun, j: nat)
    requires 0 < j <= |run.projects|
    ensures FoldRun(MergeObs(before), run, j) == MergeObs(before + ObsOf(run, j))
    decreases j, 0
  {
    var o := Obs(run.source, run.projects[j - 1].name, run.projects[j - 1].url);
    var a := before + ObsOf(run, j - 1);
    ObsOfSnoc(before, run, j);
    MergeSnoc(a, o);
    FoldRunMerges(before, run, j - 1);
  }

  /** The inner loop of the merge: folds one source's candidates into `hits`
      (`setdefault`, then overwrite the display name and the source's url). */
  method MergeSource(hits0: Hits, run: SourceRun) returns (hits: Hits)
    ensures hits == FoldRun(hits0, run, |run.projects|)
  {
    hits := hits0;
    var j := 0;
    while j < |run.projects|
      invariant 0 <= j <= |run.projects|
      invariant hits == FoldRun(hits0, run, j)
    {
      var name, link := run.projects[j].name, run.projects[j].url;
      var key := LowerStr(name);
      var sources := SourcesOf(hits, key);
      hits := Put(hits, key, Entry(name, Put(sources, run.source, link)));
      j := j + 1;
    }
  }
}
