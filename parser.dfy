/**
 * The filtering and de-duplication done by `generic_portfolio_parser` on the
 * anchors of one portfolio page. Extracting the anchors from HTML, resolving
 * the link against the page URL and the own-domain test are done elsewhere;
 * their results arrive as fields of `Anchor`.
 */
module Parser {
  import opened Wrappers
  import opened Text

  /** One `<a>` of a page: its stripped text, its raw `href`, the link resolved
      against the page URL, and whether it is an own-domain link whose path
      does not look like a project page. */
  datatype Anchor = Anchor(text: string, href: string, full: string, ownNavigation: bool)

  /** A (project name, project url) pair produced for one source. */
  datatype Candidate = Candidate(name: string, url: string)

  /** Link texts that are navigation, not projects (compared lower-cased). */
  const StopWords: set<string> :=
    {"learn more", "portfolio", "read more", "apply", "about", "careers", "contact", "news"}

  const MinTextLength := 2
  const MaxTextLength := 60

  /** The anchor survives every `continue` of the extraction loop. */
  predicate Keep(a: Anchor) {
    && a.href != [] && a.text != []
    && a.href[0] != '#'
    && MinTextLength <= |a.text| <= MaxTextLength
    && LowerStr(a.text) !in StopWords
    && !a.ownNavigation
  }

  /** The pair appended for a kept anchor. */
  function Item(a: Anchor): Candidate {
    Candidate(NormalizeProjectName(a.text), a.full)
  }

  /** The `items` list after the extraction loop: kept anchors, in page order. */
  function Extracted(anchors: seq<Anchor>): (items: seq<Candidate>)
    ensures |items| <= |anchors|
  {
    if anchors == [] then []
    else
      var p := Extracted(anchors[..|anchors| - 1]);
      var a := anchors[|anchors| - 1];
      if Keep(a) then p + [Item(a)] else p
  }

  /** A pair is extracted exactly when some anchor passes every filter and
      yields that pair. */
  lemma {:induction false} ExtractedMembers(anchors: seq<Anchor>, c: Candidate)
    ensures c in Extracted(anchors) <==> exists a :: a in anchors && Keep(a) && c == Item(a)
  {
    if anchors != [] {
      var p := anchors[..|anchors| - 1];
      var x := anchors[|anchors| - 1];
      ExtractedMembers(p, c);
      SplitLast(anchors);
      if c in Extracted(anchors) {
        if c !in Extracted(p) {
          assert Keep(x) && c == Item(x);
        } else {
          var a :| a in p && Keep(a) && c == Item(a);
          assert a in anchors;
        }
      } else {
        forall a | a in anchors && Keep(a) ensures c != Item(a) {
          if a != x {
            assert a in p;
          }
        }
      }
    }
  }

  /** What the filters guarantee of an anchor that is kept. */
  lemma KeptAnchor(a: Anchor)
    requires Keep(a)
    ensures 2 <= |a.text| <= 60 && LowerStr(a.text) !in StopWords
    ensures a.href != [] && a.href[0] != '#' && !a.ownNavigation
    ensures Canonical(Item(a).name)
  {
  }

  /** The extraction loop of `generic_portfolio_parser`. */
  method ExtractItems(anchors: seq<Anchor>) returns (items: seq<Candidate>)
    ensures items == Extracted(anchors)
  {
    items := [];
    var i := 0;
    while i < |anchors|
      invariant 0 <= i <= |anchors|
      invariant items == Extracted(anchors[..i])
    {
      var a := anchors[i];
      assert anchors[..i + 1][..i] == anchors[..i];
      if Keep(a) {
        items := items + [Item(a)];
      }
      i := i + 1;
    }
    assert anchors[..i] == anchors;
  }

  /** The de-duplication key: `name.lower()`. */
  function NameKey(c: Candidate): string {
    LowerStr(c.name)
  }

  function NameKeys(s: seq<Candidate>): set<string> {
    set c | c in s :: NameKey(c)
  }

  ghost predicate DistinctNames(s: seq<Candidate>) {
    forall i, j :: 0 <= i < j < |s| ==> NameKey(s[i]) != NameKey(s[j])
  }

  /** The result of the de-duplication loop: a pair is appended unless its key
      was already seen, so the first pair of each key wins. */
  function Dedup(items: seq<Candidate>): seq<Candidate> {
    if items == [] then []
    else
      var d := Dedup(items[..|items| - 1]);
      var last := items[|items| - 1];
      if NameKey(last) in NameKeys(d) then d else d + [last]
  }

  /** No earlier pair of `s` has the key of `s[i]`. */
  ghost predicate FirstOfKey(s: seq<Candidate>, i: int)
    requires 0 <= i < |s|
  {
    forall j :: 0 <= j < i ==> NameKey(s[j]) != NameKey(s[i])
  }

  /** Reference definition: the pairs of `s` that are the first of their key,
      in their original order. */
  ghost function KeepFirsts(s: seq<Candidate>): seq<Candidate> {
    if s == [] then []
    else
      var p := s[..|s| - 1];
      if FirstOfKey(s, |s| - 1) then KeepFirsts(p) + [s[|s| - 1]] else KeepFirsts(p)
  }

  /** Every key of the input survives de-duplication. */
  lemma {:induction false} DedupKeys(s: seq<Candidate>)
    ensures NameKeys(Dedup(s)) == NameKeys(s)
  {
    if s != [] {
      var p := s[..|s| - 1];
      var x := s[|s| - 1];
      DedupKeys(p);
      assert s == p + [x];
      assert NameKeys(s) == NameKeys(p) + {NameKey(x)};
      var d := Dedup(p);
      assert NameKeys(d + [x]) == NameKeys(d) + {NameKey(x)};
    }
  }

  /** No two pairs of the de-duplicated list share a key. */
  lemma {:induction false} DedupDistinct(s: seq<Candidate>)
    ensures DistinctNames(Dedup(s))
  {
    if s != [] {
      var p := s[..|s| - 1];
      var x := s[|s| - 1];
      DedupDistinct(p);
      var d := Dedup(p);
      if NameKey(x) !in NameKeys(d) {
        assert forall i :: 0 <= i < |d| ==> NameKey(d[i]) in NameKeys(d);
      }
    }
  }

  /** The de-duplicated list is the reference filter: exactly the first pair
      of every key, in input order. */
  lemma {:induction false} DedupKeepsFirsts(s: seq<Candidate>)
    ensures Dedup(s) == KeepFirsts(s)
  {
    if s != [] {
      var p := s[..|s| - 1];
      var x := s[|s| - 1];
      DedupKeepsFirsts(p);
      DedupKeys(p);
      assert FirstOfKey(s, |s| - 1) <==> NameKey(x) !in NameKeys(p) by {
        if NameKey(x) in NameKeys(p) {
          var c :| c in p && NameKey(c) == NameKey(x);
          var j :| 0 <= j < |p| && p[j] == c;
          assert s[j] == c;
        }
      }
    }
  }

  /** The de-duplication loop of `generic_portfolio_parser`. */
  method DedupByName(items: seq<Candidate>) returns (out: seq<Candidate>)
    ensures out == Dedup(items)
  {
    out := [];
    var seen: set<string> := {};
    var i := 0;
    while i < |items|
      invariant 0 <= i <= |items|
      invariant out == Dedup(items[..i])
      invariant seen == NameKeys(out)
    {
      var c := items[i];
      assert items[..i + 1][..i] == items[..i];
      var key := LowerStr(c.name);
      if key !in seen {
        seen := seen + {key};
        out := out + [c];
      }
      i := i + 1;
    }
    assert items[..i] == items;
  }

  /** `generic_portfolio_parser` after anchor extraction: filter, then
      de-duplicate by lower-cased name, first wins. */
  method CleanCandidates(anchors: seq<Anchor>) returns (out: seq<Candidate>)
    ensures out == KeepFirsts(Extracted(anchors))
    ensures DistinctNames(out)
    ensures forall c :: c in out ==> c in Extracted(anchors) && Canonical(c.name)
  {
    var items := ExtractItems(anchors);
    out := DedupByName(items);
    DedupKeepsFirsts(items);
    DedupDistinct(items);
    forall c | c in out ensures c in Extracted(anchors) && Canonical(c.name) {
      KeepFirstsSubset(items, c);
      ExtractedMembers(anchors, c);
      var a :| a in anchors && Keep(a) && c == Item(a);
      KeptAnchor(a);
    }
  }

  lemma {:induction false} KeepFirstsSubset(s: seq<Candidate>, c: Candidate)
    requires c in KeepFirsts(s)
    ensures c in s
  {
    if s != [] {
      var p := s[..|s| - 1];
      if c in KeepFirsts(p) {
        KeepFirstsSubset(p, c);
      }
    }
  }
}
