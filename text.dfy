/**
 * Character-level helpers: Python's notion of whitespace, ASCII lower-casing,
 * `str.strip()`, the project-name normalisation of the bot, and decimal
 * rendering of non-negative integers (used in ledger bucket keys).
 */
module Text {

  /** The characters for which Python's `str.isspace()` holds; `\s` in a
      `str` regular expression and `str.strip()` use the same set. */
  predicate IsSpace(c: char) {
    || c == ' ' || c == '\t' || c == '\n' || c == '\r' || c == '\U{B}' || c == '\U{C}'
    || ('\U{1C}' <= c <= '\U{1F}') || c == '\U{85}' || c == '\U{A0}' || c == '\U{1680}'
    || ('\U{2000}' <= c <= '\U{200A}') || c == '\U{2028}' || c == '\U{2029}'
    || c == '\U{202F}' || c == '\U{205F}' || c == '\U{3000}'
  }

  /** Lower-casing of one character (ASCII letters only). */
  function Lower(c: char): char {
    if 'A' <= c <= 'Z' then (c as int + 32) as char else c
  }

  /** `s.lower()` */
  function LowerStr(s: string): (r: string)
    ensures |r| == |s|
  {
    if s == [] then [] else [Lower(s[0])] + LowerStr(s[1..])
  }

  /** `s.lower()` lower-cases character by character. */
  lemma {:induction false} LowerStrAt(s: string, i: int)
    requires 0 <= i < |s|
    ensures LowerStr(s)[i] == Lower(s[i])
  {
    if i > 0 {
      LowerStrAt(s[1..], i - 1);
    }
  }

  /** Drops the leading whitespace of `s` (`str.lstrip()`). */
  function TrimLeft(s: string): (r: string)
    ensures |r| <= |s|
    ensures r == [] || !IsSpace(r[0])
    ensures forall i :: 0 <= i < |s| - |r| ==> IsSpace(s[i])
  {
    if s != [] && IsSpace(s[0]) then TrimLeft(s[1..]) else s
  }

  /** `TrimLeft(s)` is a suffix of `s`. */
  lemma {:induction false} TrimLeftSuffix(s: string)
    ensures TrimLeft(s) == s[|s| - |TrimLeft(s)|..]
  {
    if s != [] && IsSpace(s[0]) {
      TrimLeftSuffix(s[1..]);
    }
  }

  /** Drops the trailing whitespace of `s` (`str.rstrip()`). */
  function TrimRight(s: string): (r: string)
    ensures |r| <= |s|
    ensures r == [] || !IsSpace(r[|r| - 1])
    ensures forall i :: |r| <= i < |s| ==> IsSpace(s[i])
  {
    if s != [] && IsSpace(s[|s| - 1]) then TrimRight(s[..|s| - 1]) else s
  }

  /** `TrimRight(s)` is a prefix of `s`. */
  lemma {:induction false} TrimRightPrefix(s: string)
    ensures TrimRight(s) == s[..|TrimRight(s)|]
  {
    if s != [] && IsSpace(s[|s| - 1]) {
      TrimRightPrefix(s[..|s| - 1]);
    }
  }

  /** `s.strip()`: a slice of `s` with only whitespace cut from either end. */
  function Strip(s: string): (r: string)
    ensures r == [] || (!IsSpace(r[0]) && !IsSpace(r[|r| - 1]))
    ensures Squeeze(r) == Squeeze(s)
  {
    var l := TrimLeft(s);
    SqueezeTrimLeft(s);
    SqueezeTrimRight(l);
    TrimRightPrefix(l);
    TrimRight(l)
  }

  /** `Strip(s)` is a contiguous piece of `s`, starting at offset `k`. */
  lemma StripOffset(s: string) returns (k: nat)
    ensures k + |Strip(s)| <= |s| && Strip(s) == s[k..k + |Strip(s)|]
  {
    k := |s| - |TrimLeft(s)|;
    TrimLeftSuffix(s);
    TrimRightPrefix(TrimLeft(s));
  }

  /** Replaces every maximal run of whitespace by one ' '
      (`re.sub(r"\s+", " ", s)`). */
  function Collapse(s: string): (r: string)
    decreases |s|
  {
    if s == [] then []
    else if IsSpace(s[0]) then [' '] + Collapse(TrimLeft(s))
    else [s[0]] + Collapse(s[1..])
  }

  /** No two neighbouring whitespace characters, and every whitespace
      character is a plain ' '. */
  ghost predicate Collapsed(s: string) {
    && (forall i :: 0 <= i < |s| && IsSpace(s[i]) ==> s[i] == ' ')
    && (forall i :: 0 <= i < |s| - 1 ==> !(IsSpace(s[i]) && IsSpace(s[i + 1])))
  }

  /** What `NormalizeProjectName` promises of its result. */
  ghost predicate Canonical(s: string) {
    && Collapsed(s)
    && (s == [] || (!IsSpace(s[0]) && !IsSpace(s[|s| - 1])))
  }

  /** The non-whitespace characters of `s`, in order. */
  function Squeeze(s: string): (r: string)
    ensures |r| <= |s|
  {
    if s == [] then []
    else (if IsSpace(s[0]) then [] else [s[0]]) + Squeeze(s[1..])
  }

  lemma {:induction false} SqueezeAppend(a: string, b: string)
    ensures Squeeze(a + b) == Squeeze(a) + Squeeze(b)
  {
    if a == [] {
      assert a + b == b;
    } else {
      assert (a + b)[0] == a[0];
      assert (a + b)[1..] == a[1..] + b;
      SqueezeAppend(a[1..], b);
    }
  }

  lemma {:induction false} SqueezeTrimLeft(s: string)
    ensures Squeeze(TrimLeft(s)) == Squeeze(s)
  {
    if s != [] && IsSpace(s[0]) {
      SqueezeTrimLeft(s[1..]);
    }
  }

  lemma {:induction false} SqueezeTrimRight(s: string)
    ensures Squeeze(TrimRight(s)) == Squeeze(s)
  {
    if s != [] && IsSpace(s[|s| - 1]) {
      var p := s[..|s| - 1];
      assert s == p + [s[|s| - 1]];
      SqueezeAppend(p, [s[|s| - 1]]);
      SqueezeTrimRight(p);
    }
  }

  /** `Collapse` yields a collapsed string that starts with whitespace exactly
      when its input does, and keeps every non-whitespace character. */
  lemma {:induction false} CollapseSound(s: string)
    ensures Collapsed(Collapse(s))
    ensures Collapse(s) != [] <==> s != []
    ensures Collapse(s) != [] ==> (IsSpace(Collapse(s)[0]) <==> IsSpace(s[0]))
    ensures Squeeze(Collapse(s)) == Squeeze(s)
    decreases |s|
  {
    if s == [] {
    } else if IsSpace(s[0]) {
      var t := TrimLeft(s);
      CollapseSound(t);
      SqueezeTrimLeft(s);
      var r := Collapse(s);
      assert r == [' '] + Collapse(t);
      assert r[1..] == Collapse(t);
      assert Squeeze(r) == Squeeze(Collapse(t));
    } else {
      CollapseSound(s[1..]);
      var r := Collapse(s);
      assert r[1..] == Collapse(s[1..]);
    }
  }

  /** A collapsed string is left as it is by `Collapse`. */
  lemma {:induction false} CollapseFixed(s: string)
    requires Collapsed(s)
    ensures Collapse(s) == s
  {
    if s != [] {
      assert Collapsed(s[1..]);
      CollapseFixed(s[1..]);
      if IsSpace(s[0]) {
        assert TrimLeft(s) == s[1..] by {
          assert TrimLeft(s) == TrimLeft(s[1..]);
          if |s| > 1 {
            assert !IsSpace(s[1]);
          }
        }
      }
    }
  }

  /** Stripping a collapsed string leaves it collapsed. */
  lemma StripCollapsed(c: string)
    requires Collapsed(c)
    ensures Canonical(Strip(c))
  {
    var r := Strip(c);
    var k := StripOffset(c);
    forall i | 0 <= i < |r| - 1 ensures !(IsSpace(r[i]) && IsSpace(r[i + 1])) {
      assert r[i] == c[k + i] && r[i + 1] == c[k + i + 1];
    }
    forall i | 0 <= i < |r| && IsSpace(r[i]) ensures r[i] == ' ' {
      assert r[i] == c[k + i];
    }
  }

  /** `normalize_project_name`: whitespace runs become one space, then the
      result is stripped; no non-whitespace character is lost or added, and
      the words stay apart. */
  function NormalizeProjectName(name: string): (r: string)
    ensures Canonical(r)
    ensures Squeeze(r) == Squeeze(name)
    ensures Words(r) == Words(name)
  {
    var c := Collapse(name);
    CollapseSound(name);
    StripCollapsed(c);
    WordsCollapse(name);
    WordsTrimLeft(c);
    WordsTrimRight(TrimLeft(c));
    Strip(c)
  }

  /** A canonical string is its own normal form. */
  lemma CanonicalFixed(s: string)
    requires Canonical(s)
    ensures NormalizeProjectName(s) == s
  {
    CollapseFixed(s);
  }

  /** Normalising twice is normalising once. */
  lemma NormalizeIdempotent(name: string)
    ensures NormalizeProjectName(NormalizeProjectName(name)) == NormalizeProjectName(name)
  {
    CanonicalFixed(NormalizeProjectName(name));
  }

  /** The length of the run of non-whitespace characters `s` starts with. */
  function WordLen(s: string): (n: nat)
    ensures n <= |s|
    ensures forall i :: 0 <= i < n ==> !IsSpace(s[i])
    ensures n < |s| ==> IsSpace(s[n])
  {
    if s == [] || IsSpace(s[0]) then 0 else 1 + WordLen(s[1..])
  }

  /** The words of `s`: its maximal runs of non-whitespace characters, in
      order (`s.split()`). */
  function Words(s: string): seq<string>
    decreases |s|
  {
    if s == [] then []
    else if IsSpace(s[0]) then Words(s[1..])
    else [s[..WordLen(s)]] + Words(s[WordLen(s)..])
  }

  /** The words joined by single spaces (`" ".join(words)`). */
  function Join(ws: seq<string>): string {
    if ws == [] then []
    else if |ws| == 1 then ws[0]
    else ws[0] + [' '] + Join(ws[1..])
  }

  /** Text after the first word does not change where that word ends, unless
      the word reached the end of `s` and the text continues it. */
  lemma {:induction false} WordLenAppend(s: string, t: string)
    requires WordLen(s) < |s| || t == [] || IsSpace(t[0])
    ensures WordLen(s + t) == WordLen(s)
  {
    if s != [] && !IsSpace(s[0]) {
      assert (s + t)[1..] == s[1..] + t;
      WordLenAppend(s[1..], t);
    } else if s == [] {
      assert s + t == t;
    }
  }

  /** Leading whitespace separates no words. */
  lemma {:induction false} WordsTrimLeft(s: string)
    ensures Words(TrimLeft(s)) == Words(s)
  {
    if s != [] && IsSpace(s[0]) {
      WordsTrimLeft(s[1..]);
    }
  }

  /** A whitespace character at the end separates no words. */
  lemma {:induction false} WordsSnocSpace(s: string, c: char)
    requires IsSpace(c)
    ensures Words(s + [c]) == Words(s)
    decreases |s|
  {
    var sc := s + [c];
    if s == [] {
      assert sc[1..] == [];
    } else if IsSpace(s[0]) {
      assert sc[1..] == s[1..] + [c];
      WordsSnocSpace(s[1..], c);
    } else {
      var n := WordLen(s);
      WordLenAppend(s, [c]);
      assert sc[..n] == s[..n];
      assert sc[n..] == s[n..] + [c];
      WordsSnocSpace(s[n..], c);
    }
  }

  /** Trailing whitespace separates no words. */
  lemma {:induction false} WordsTrimRight(s: string)
    ensures Words(TrimRight(s)) == Words(s)
    decreases |s|
  {
    if s != [] && IsSpace(s[|s| - 1]) {
      var p := s[..|s| - 1];
      assert s == p + [s[|s| - 1]];
      WordsSnocSpace(p, s[|s| - 1]);
      WordsTrimRight(p);
    }
  }

  /** Collapsing passes the first word of `s` through unchanged. */
  lemma {:induction false} CollapseWord(s: string)
    requires s != [] && !IsSpace(s[0])
    ensures Collapse(s) == s[..WordLen(s)] + Collapse(s[WordLen(s)..])
    decreases |s|
  {
    var n := WordLen(s);
    var t := s[1..];
    assert Collapse(s) == [s[0]] + Collapse(t);
    if n > 1 {
      assert WordLen(t) == n - 1;
      CollapseWord(t);
      assert t[..n - 1] == s[1..n] && t[n - 1..] == s[n..];
      assert s[..n] == [s[0]] + s[1..n];
    } else {
      assert t == s[n..];
      assert s[..n] == [s[0]];
    }
  }

  /** A single space in front separates no words. */
  lemma WordsConsSpace(x: string)
    ensures Words([' '] + x) == Words(x)
  {
    assert ([' '] + x)[1..] == x;
  }

  /** The first word of `s` is a word all the way through. */
  lemma WordLenPrefix(s: string)
    ensures WordLen(s[..WordLen(s)]) == WordLen(s)
  {
    var n := WordLen(s);
    assert s == s[..n] + s[n..];
    WordLenAppend(s[..n], s[n..]);
  }

  /** A word followed by nothing or by whitespace is the first word. */
  lemma WordsWordThen(w: string, c: string)
    requires w != [] && WordLen(w) == |w|
    requires c == [] || IsSpace(c[0])
    ensures Words(w + c) == [w] + Words(c)
  {
    WordLenAppend(w, c);
    assert (w + c)[..|w|] == w && (w + c)[|w|..] == c;
  }

  /** `Collapse` keeps the words of `s`: each whitespace run becomes one
      space, not nothing. */
  lemma {:induction false} WordsCollapse(s: string)
    ensures Words(Collapse(s)) == Words(s)
    decreases |s|
  {
    if s == [] {
    } else if IsSpace(s[0]) {
      var t := TrimLeft(s);
      assert t == TrimLeft(s[1..]);
      WordsConsSpace(Collapse(t));
      WordsCollapse(t);
      WordsTrimLeft(s);
    } else {
      var n := WordLen(s);
      var w, rest := s[..n], s[n..];
      CollapseWord(s);
      CollapseSound(rest);
      WordLenPrefix(s);
      WordsWordThen(w, Collapse(rest));
      WordsCollapse(rest);
    }
  }

  /** In a canonical string the first word, if not the whole string, is
      followed by one space and a canonical remainder. */
  lemma CanonicalRest(s: string)
    requires Canonical(s) && WordLen(s) < |s|
    ensures WordLen(s) + 1 < |s| && s[WordLen(s)] == ' ' && Canonical(s[WordLen(s) + 1..])
  {
    var n := WordLen(s);
    var rest := s[n + 1..];
    assert !IsSpace(s[n + 1]);
    forall i | 0 <= i < |rest| && IsSpace(rest[i]) ensures rest[i] == ' ' {
      assert rest[i] == s[n + 1 + i];
    }
    forall i | 0 <= i < |rest| - 1 ensures !(IsSpace(rest[i]) && IsSpace(rest[i + 1])) {
      assert rest[i] == s[n + 1 + i] && rest[i + 1] == s[n + 2 + i];
    }
  }

  /** The words of a string whose first word ends before one whitespace
      character. */
  lemma WordsSplit(s: string)
    requires s != [] && !IsSpace(s[0]) && WordLen(s) < |s|
    ensures Words(s) == [s[..WordLen(s)]] + Words(s[WordLen(s) + 1..])
  {
    var n := WordLen(s);
    WordsSpaceFront(s[n..]);
    assert s[n..][1..] == s[n + 1..];
  }

  /** Whitespace in front separates no words. */
  lemma WordsSpaceFront(r: string)
    requires r != [] && IsSpace(r[0])
    ensures Words(r) == Words(r[1..])
  {
  }

  /** A string that is one word has just that word. */
  lemma WordsWhole(s: string)
    requires s != [] && WordLen(s) == |s|
    ensures Words(s) == [s]
  {
    assert s[|s|..] == [] && s[..|s|] == s;
  }

  /** A string starting with a non-whitespace character has a word. */
  lemma WordsNonEmpty(s: string)
    requires s != [] && !IsSpace(s[0])
    ensures Words(s) != []
  {
  }

  /** Joining a word in front of further words puts one space between. */
  lemma JoinCons(w: string, ws: seq<string>)
    requires ws != []
    ensures Join([w] + ws) == w + [' '] + Join(ws)
  {
    assert ([w] + ws)[1..] == ws;
  }

  /** `s` is the part before position `n`, the character at `n` and the
      part after it. */
  lemma SplitAround(s: string, n: int)
    requires 0 <= n < |s|
    ensures s == s[..n] + [s[n]] + s[n + 1..]
  {
  }

  /** A canonical string is its words joined by single spaces. */
  lemma {:induction false} CanonicalJoin(s: string)
    requires Canonical(s)
    ensures s == Join(Words(s))
    decreases |s|
  {
    if s != [] {
      var n := WordLen(s);
      if n == |s| {
        WordsWhole(s);
      } else {
        var rest := s[n + 1..];
        CanonicalRest(s);
        CanonicalJoin(rest);
        WordsSplit(s);
        WordsNonEmpty(rest);
        JoinCons(s[..n], Words(rest));
        SplitAround(s, n);
      }
    }
  }

  /** `normalize_project_name` is exactly the words of the name joined by
      single spaces: every whitespace run between two words becomes one
      space, and the ends lose theirs. */
  lemma NormalizeJoinsWords(name: string)
    ensures NormalizeProjectName(name) == Join(Words(name))
  {
    CanonicalJoin(NormalizeProjectName(name));
  }

  /** The decimal digit for 0 <= d < 10. */
  function Digit(d: nat): (c: char)
    requires d < 10
    ensures '0' <= c <= '9' && c as int - '0' as int == d
  {
    ('0' as int + d) as char
  }

  predicate AllDigits(s: string) {
    forall i :: 0 <= i < |s| ==> '0' <= s[i] <= '9'
  }

  /** Python's `str(n)` for a non-negative integer. */
  function NatToString(n: nat): (s: string)
    ensures |s| >= 1 && AllDigits(s)
    ensures (s[0] == '0') ==> n == 0
  {
    if n < 10 then [Digit(n)] else NatToString(n / 10) + [Digit(n % 10)]
  }

  /** Reads a string of decimal digits back as a number. */
  function ParseDecimal(s: string): nat
    requires AllDigits(s)
  {
    if s == [] then 0
    else ParseDecimal(s[..|s| - 1]) * 10 + (s[|s| - 1] as int - '0' as int)
  }

  /** Decimal rendering round-trips. */
  lemma {:induction false} ParseNatToString(n: nat)
    ensures ParseDecimal(NatToString(n)) == n
  {
    var s := NatToString(n);
    if n >= 10 {
      ParseNatToString(n / 10);
      assert s[..|s| - 1] == NatToString(n / 10);
    } else {
      assert s[..0] == [];
    }
  }

  /** Different numbers render differently. */
  lemma NatToStringInjective(m: nat, n: nat)
    requires NatToString(m) == NatToString(n)
    ensures m == n
  {
    ParseNatToString(m);
    ParseNatToString(n);
  }
}
