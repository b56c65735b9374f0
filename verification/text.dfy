/**
 * The Python `str` operations the two scrapers rely on, with Python's meaning:
 * `pat in s`, `s.replace(pat, rep)`, `s.split(sep)`,
 * `s.strip()` and `s.rstrip(chars)`.  Strings are sequences of characters.
 */
module Text {
  import opened Wrappers

  /** `pat` occurs in `s` starting at index `i`. */
  predicate OccursAt(s: string, pat: string, i: nat) {
    i + |pat| <= |s| && s[i..i + |pat|] == pat
  }

  /** Python's `pat in s`. */
  predicate Contains(s: string, pat: string) {
    exists i: nat | i <= |s| :: OccursAt(s, pat, i)
  }

  lemma OccursAtStart(s: string, pat: string)
    ensures OccursAt(s, pat, 0) <==> pat <= s
  {
    if |pat| <= |s| {
      assert s[0..|pat|] == s[..|pat|];
    }
  }

  lemma OccursShift(s: string, pat: string, j: nat)
    requires s != []
    ensures OccursAt(s[1..], pat, j) <==> OccursAt(s, pat, j + 1)
  {
    if j + 1 + |pat| <= |s| {
      assert s[1..][j..j + |pat|] == s[j + 1..j + 1 + |pat|];
    }
  }

  lemma OccursShiftBack(s: string, pat: string)
    requires s != []
    ensures forall i: nat :: 0 < i && OccursAt(s, pat, i) ==> OccursAt(s[1..], pat, i - 1)
  {
    forall i: nat | 0 < i ensures OccursAt(s, pat, i) ==> OccursAt(s[1..], pat, i - 1) {
      OccursShift(s, pat, i - 1);
    }
  }

  lemma ContainsTail(s: string, pat: string)
    requires s != []
    ensures Contains(s[1..], pat) ==> Contains(s, pat)
  {
    if Contains(s[1..], pat) {
      var j: nat :| j <= |s[1..]| && OccursAt(s[1..], pat, j);
      OccursShift(s, pat, j);
    }
  }

  /** For a one-character pattern, Python's `c in s` is plain membership. */
  lemma ContainsChar(s: string, c: char)
    ensures Contains(s, [c]) <==> c in s
  {
    if c in s {
      var i :| 0 <= i < |s| && s[i] == c;
      assert s[i..i + 1] == [c];
      assert OccursAt(s, [c], i);
    }
    if Contains(s, [c]) {
      var i: nat :| i <= |s| && OccursAt(s, [c], i);
      assert s[i..i + 1][0] == s[i];
    }
  }

  /** Python's `s.find(pat)`: the first index at which `pat` occurs, if any. */
  function Find(s: string, pat: string): (r: Option<nat>)
    requires pat != []
    ensures r.Some? ==> OccursAt(s, pat, r.value)
    ensures r.Some? ==> forall j: nat :: j < r.value ==> !OccursAt(s, pat, j)
    ensures r.None? <==> !Contains(s, pat)
    decreases |s|
  {
    OccursAtStart(s, pat);
    if |s| < |pat| then None
    else if pat <= s then Some(0)
    else
      OccursShiftBack(s, pat);
      match Find(s[1..], pat)
      case None => None
      case Some(j) =>
        OccursShift(s, pat, j);
        Some(j + 1)
  }

  /** The text before the first occurrence found by `Find` holds no occurrence. */
  lemma NothingBeforeFirst(s: string, pat: string, i: nat)
    requires pat != [] && Find(s, pat) == Some(i)
    ensures !Contains(s[..i], pat)
  {
    forall j: nat ensures !OccursAt(s[..i], pat, j) {
      if j + |pat| <= i {
        assert s[..i][j..j + |pat|] == s[j..j + |pat|];
        assert !OccursAt(s, pat, j);
      }
    }
  }

  /** Python's `s.replace(pat, rep)`: every non-overlapping occurrence, scanning left to right. */
  function ReplaceAll(s: string, pat: string, rep: string): string
    requires pat != []
    decreases |s|
  {
    if |s| < |pat| then s
    else if pat <= s then rep + ReplaceAll(s[|pat|..], pat, rep)
    else [s[0]] + ReplaceAll(s[1..], pat, rep)
  }

  /** `s` with every character of `cs` removed, the others kept in order. */
  function Without(s: string, cs: set<char>): (r: string)
    ensures forall c :: c in r <==> c in s && c !in cs
    ensures |r| <= |s|
    decreases |s|
  {
    if s == [] then []
    else
      assert s == [s[0]] + s[1..];
      (if s[0] in cs then [] else [s[0]]) + Without(s[1..], cs)
  }

  /** Python's `s.split(sep)` for a non-empty separator. */
  function Split(s: string, sep: string): (parts: seq<string>)
    requires sep != []
    ensures |parts| >= 1
    ensures |parts| >= 2 <==> Contains(s, sep)
    ensures forall k :: 0 <= k < |parts| ==> !Contains(parts[k], sep)
    decreases |s|
  {
    match Find(s, sep)
    case None => [s]
    case Some(i) =>
      NothingBeforeFirst(s, sep, i);
      [s[..i]] + Split(s[i + |sep|..], sep)
  }

  /** `s.split(sep)[0]`: the text before the first `sep`, or all of `s`. */
  function Before(s: string, sep: string): (r: string)
    requires sep != []
    ensures r <= s && !Contains(r, sep)
    ensures Contains(s, sep) ==> OccursAt(s, sep, |r|)
    ensures !Contains(s, sep) ==> r == s
  {
    match Find(s, sep)
    case None => s
    case Some(i) =>
      NothingBeforeFirst(s, sep, i);
      s[..i]
  }

  /**
   * `s.split(sep)[1]`: the text between the first `sep` and the next one (or the end);
   * `None` where Python raises `IndexError` because `sep` does not occur.
   */
  function After(s: string, sep: string): (r: Option<string>)
    requires sep != []
    ensures r.Some? <==> Contains(s, sep)
  {
    match Find(s, sep)
    case None => None
    case Some(i) => Some(Before(s[i + |sep|..], sep))
  }

  /** Before and After are the first two pieces of Python's `split`. */
  lemma SplitPieces(s: string, sep: string)
    requires sep != []
    ensures Split(s, sep)[0] == Before(s, sep)
    ensures |Split(s, sep)| >= 2 ==> After(s, sep) == Some(Split(s, sep)[1])
  {
  }

  /** Python's `s.lstrip(chars)`, the characters to drop given as a predicate. */
  function LStrip(s: string, drop: char -> bool): (r: string)
    ensures |r| <= |s| && r == s[|s| - |r|..]
    ensures forall i :: 0 <= i < |s| - |r| ==> drop(s[i])
    ensures r == [] || !drop(r[0])
    decreases |s|
  {
    if s != [] && drop(s[0]) then LStrip(s[1..], drop) else s
  }

  /** Python's `s.rstrip(chars)`, the characters to drop given as a predicate. */
  function RStrip(s: string, drop: char -> bool): (r: string)
    ensures |r| <= |s| && r == s[..|r|]
    ensures forall i :: |r| <= i < |s| ==> drop(s[i])
    ensures r == [] || !drop(r[|r| - 1])
    decreases |s|
  {
    if s != [] && drop(s[|s| - 1]) then RStrip(s[..|s| - 1], drop) else s
  }

  /**
   * Python's `str.isspace` for one character: the characters `strip()`, `float()` and `int()`
   * discard (tab to carriage return, the four separators U+001C to U+001F, space, U+0085,
   * no-break space and the Unicode space separators).
   */
  predicate IsSpace(c: char) {
    || '\t' <= c <= '\r'
    || '\U{001C}' <= c <= ' '
    || c == '\U{0085}' || c == '\U{00A0}' || c == '\U{1680}'
    || '\U{2000}' <= c <= '\U{200A}'
    || c == '\U{2028}' || c == '\U{2029}' || c == '\U{202F}' || c == '\U{205F}' || c == '\U{3000}'
  }

  /** Python's `s.strip()`. */
  function Strip(s: string): (r: string)
    ensures r == [] || (!IsSpace(r[0]) && !IsSpace(r[|r| - 1]))
    ensures (s == [] || (!IsSpace(s[0]) && !IsSpace(s[|s| - 1]))) ==> r == s
  {
    RStrip(LStrip(s, IsSpace), IsSpace)
  }

  /** `strip()` removes whitespace only: every character it keeps was there, every other one was a space. */
  lemma StripChars(s: string)
    ensures forall c :: c in Strip(s) ==> c in s
    ensures forall c :: c in s ==> c in Strip(s) || IsSpace(c)
  {
    var left := LStrip(s, IsSpace);
    StripFront(s, left, IsSpace);
    StripBack(left, RStrip(left, IsSpace), IsSpace);
  }

  lemma StripFront(s: string, left: string, drop: char -> bool)
    requires |left| <= |s| && left == s[|s| - |left|..]
    requires forall i :: 0 <= i < |s| - |left| ==> drop(s[i])
    ensures forall c :: c in left ==> c in s
    ensures forall c :: c in s ==> c in left || drop(c)
  {
    forall c | c in s ensures c in left || drop(c) {
      var i :| 0 <= i < |s| && s[i] == c;
      if i >= |s| - |left| {
        assert left[i - (|s| - |left|)] == c;
      }
    }
  }

  lemma StripBack(s: string, right: string, drop: char -> bool)
    requires |right| <= |s| && right == s[..|right|]
    requires forall i :: |right| <= i < |s| ==> drop(s[i])
    ensures forall c :: c in right ==> c in s
    ensures forall c :: c in s ==> c in right || drop(c)
  {
    forall c | c in s ensures c in right || drop(c) {
      var i :| 0 <= i < |s| && s[i] == c;
      if i < |right| {
        assert right[i] == c;
      }
    }
  }

  // ---------------------------------------------------------------------------------------
  // Properties of replace

  /** Replacing a pattern that does not occur changes nothing. */
  lemma {:induction false} ReplaceAbsent(s: string, pat: string, rep: string)
    requires pat != [] && !Contains(s, pat)
    ensures ReplaceAll(s, pat, rep) == s
    decreases |s|
  {
    OccursAtStart(s, pat);
    if |s| >= |pat| {
      ContainsTail(s, pat);
      ReplaceAbsent(s[1..], pat, rep);
      assert [s[0]] + s[1..] == s;
    }
  }

  /** `replace` copies the first `i` characters when no occurrence starts among them. */
  lemma {:induction false} ReplaceUpTo(s: string, pat: string, rep: string, i: nat)
    requires pat != [] && i <= |s|
    requires forall j: nat :: j < i ==> !OccursAt(s, pat, j)
    ensures ReplaceAll(s, pat, rep) == s[..i] + ReplaceAll(s[i..], pat, rep)
    decreases i
  {
    if i == 0 {
      assert s[i..] == s;
    } else if |s| < |pat| {
      assert s[..i] + s[i..] == s;
    } else {
      OccursAtStart(s, pat);
      assert !OccursAt(s, pat, 0);
      forall j: nat | j < i - 1 ensures !OccursAt(s[1..], pat, j) {
        OccursShift(s, pat, j);
      }
      ReplaceUpTo(s[1..], pat, rep, i - 1);
      assert s[1..][..i - 1] == s[1..i] && s[1..][i - 1..] == s[i..];
      assert [s[0]] + s[1..i] == s[..i];
    }
  }

  /** Deleting a single character with `replace(c, '')` is removing it wherever it stands. */
  lemma {:induction false} ReplaceCharIsWithout(s: string, c: char)
    ensures ReplaceAll(s, [c], []) == Without(s, {c})
    decreases |s|
  {
    if s != [] {
      ReplaceCharIsWithout(s[1..], c);
    }
  }

  lemma {:induction false} WithoutAppend(a: string, b: string, cs: set<char>)
    ensures Without(a + b, cs) == Without(a, cs) + Without(b, cs)
    decreases |a|
  {
    if a != [] {
      assert (a + b)[1..] == a[1..] + b;
      WithoutAppend(a[1..], b, cs);
    } else {
      assert a + b == b;
    }
  }

  lemma {:induction false} WithoutWithout(s: string, a: set<char>, b: set<char>)
    ensures Without(Without(s, a), b) == Without(s, a + b)
    decreases |s|
  {
    if s != [] {
      WithoutWithout(s[1..], a, b);
      var head := if s[0] in a then [] else [s[0]];
      WithoutAppend(head, Without(s[1..], a), b);
    }
  }

  /** Without leaves a text free of the removed characters unchanged. */
  lemma {:induction false} WithoutNothing(s: string, cs: set<char>)
    requires forall c :: c in s ==> c !in cs
    ensures Without(s, cs) == s
    decreases |s|
  {
    if s != [] {
      WithoutNothing(s[1..], cs);
      assert [s[0]] + s[1..] == s;
    }
  }

  /** Whatever does not start with the first character of `[c, c]` is kept in front by its removal. */
  lemma {:induction false} PairRemovalKeepsHead(t: string, c: char)
    requires t != [] && t[0] != c
    ensures ReplaceAll(t, [c, c], []) != [] && ReplaceAll(t, [c, c], [])[0] == t[0]
  {
  }

  /**
   * Removing every doubled character (Python's `s.replace(cc, '')`) leaves no doubled
   * character behind, although `replace` makes a single left-to-right pass.
   */
  lemma {:induction false} PairRemovalLeavesNoPair(s: string, c: char)
    ensures !Contains(ReplaceAll(s, [c, c], []), [c, c])
    decreases |s|
  {
    var pat := [c, c];
    var r := ReplaceAll(s, pat, []);
    if |s| < 2 {
      assert r == s;
      forall i: nat ensures !OccursAt(r, pat, i) {
      }
    } else if pat <= s {
      PairRemovalLeavesNoPair(s[2..], c);
      assert r == ReplaceAll(s[2..], pat, []);
    } else {
      var tail := ReplaceAll(s[1..], pat, []);
      PairRemovalLeavesNoPair(s[1..], c);
      assert r == [s[0]] + tail;
      assert r[1..] == tail;
      if s[0] == c {
        assert s[1] != c by {
          assert s[..2] == [s[0], s[1]];
        }
        PairRemovalKeepsHead(s[1..], c);
      }
      forall i: nat ensures !OccursAt(r, pat, i) {
        if i == 0 {
          if |r| >= 2 {
            assert r[0..2] == [r[0], r[1]];
          }
        } else {
          OccursShift(r, pat, i - 1);
        }
      }
    }
  }

  /**
   * `replace` rewrites one occurrence of `pat` placed between two texts that hold none, when the
   * first character of `pat` does not recur in it (so no occurrence can straddle a boundary).
   */
  lemma ReplaceOnce(a: string, pat: string, rep: string, b: string)
    requires pat != [] && pat[0] !in pat[1..]
    requires !Contains(a, pat) && !Contains(b, pat)
    ensures ReplaceAll(a + pat + b, pat, rep) == a + rep + b
  {
    var s := a + pat + b;
    forall j: nat | j < |a| ensures !OccursAt(s, pat, j) {
      if j + |pat| <= |s| {
        if j + |pat| <= |a| {
          assert s[j..j + |pat|] == a[j..j + |pat|];
          assert !OccursAt(a, pat, j);
        } else {
          var m := |a| - j;
          assert s[|a|] == pat[0];
          assert s[j..j + |pat|][m] == s[|a|];
          assert pat[1..][m - 1] == pat[m];
        }
      }
    }
    ReplaceUpTo(s, pat, rep, |a|);
    assert s[..|a|] == a && s[|a|..] == pat + b;
    ReplaceLeading(pat, b, rep);
    ReplaceAbsent(b, pat, rep);
  }

  /** A prefix of a text in which `pat` does not occur has no occurrence either. */
  lemma PrefixKeepsAbsence(s: string, p: string, pat: string)
    requires p <= s && !Contains(s, pat)
    ensures !Contains(p, pat)
  {
    forall i: nat ensures !OccursAt(p, pat, i) {
      if i + |pat| <= |p| {
        assert p[i..i + |pat|] == s[i..i + |pat|];
        assert !OccursAt(s, pat, i);
      }
    }
  }

  /** The texts `f` gives for each item of `xs`, concatenated in order. */
  function ConcatMap<T>(xs: seq<T>, f: T -> string): string
    decreases |xs|
  {
    if xs == [] then "" else ConcatMap(xs[..|xs| - 1], f) + f(xs[|xs| - 1])
  }

  lemma {:induction false} ConcatMapAppend<T>(a: seq<T>, b: seq<T>, f: T -> string)
    ensures ConcatMap(a + b, f) == ConcatMap(a, f) + ConcatMap(b, f)
    decreases |b|
  {
    if b == [] {
      assert a + b == a;
    } else {
      var b' := b[..|b| - 1];
      assert (a + b)[..|a + b| - 1] == a + b';
      ConcatMapAppend(a, b', f);
    }
  }

  /** An item mapped to the empty text can be dropped from the concatenation. */
  lemma ConcatMapSkip<T>(a: seq<T>, x: T, b: seq<T>, f: T -> string)
    requires f(x) == []
    ensures ConcatMap(a + [x] + b, f) == ConcatMap(a + b, f)
  {
    ConcatMapAppend(a + [x], b, f);
    ConcatMapAppend(a, [x], f);
    ConcatMapAppend(a, b, f);
    assert [x][..0] == [];
  }

  /** A leading occurrence of the pattern is the first one replaced. */
  lemma ReplaceLeading(pat: string, rest: string, rep: string)
    requires pat != []
    ensures ReplaceAll(pat + rest, pat, rep) == rep + ReplaceAll(rest, pat, rep)
  {
    assert pat <= pat + rest;
    assert (pat + rest)[|pat|..] == rest;
  }

  /** A trailing pattern is removed whole when its first character does not occur before it. */
  lemma ReplaceTrailing(body: string, pat: string)
    requires pat != [] && pat[0] !in body
    ensures ReplaceAll(body + pat, pat, "") == body
  {
    var s := body + pat;
    forall j: nat | j < |body| ensures !OccursAt(s, pat, j) {
      assert s[j] == body[j];
    }
    ReplaceUpTo(s, pat, "", |body|);
    assert s[..|body|] == body && s[|body|..] == pat;
    ReplaceLeading(pat, "", "");
    assert pat + "" == pat;
  }

  /** Without a separator, `s.split(sep)[0]` is the whole text. */
  lemma BeforeAbsent(s: string, sep: string)
    requires sep != [] && !Contains(s, sep)
    ensures Before(s, sep) == s
  {
  }

  /** An occurrence in a suffix is an occurrence in the whole text, shifted. */
  lemma OccursInSuffix(s: string, k: nat, pat: string, j: nat)
    requires k <= |s| && OccursAt(s[k..], pat, j)
    ensures OccursAt(s, pat, k + j)
  {
    assert s[k..][j..j + |pat|] == s[k + j..k + j + |pat|];
  }

  /** An occurrence in a prefix is an occurrence in the whole text. */
  lemma OccursInPrefix(p: string, s: string, pat: string, j: nat)
    requires p <= s && OccursAt(p, pat, j)
    ensures OccursAt(s, pat, j)
  {
    assert p[j..j + |pat|] == s[j..j + |pat|];
  }

  /** A text containing `big` contains every piece of `big`. */
  lemma ContainsPiece(s: string, big: string, k: nat, n: nat)
    requires k + n <= |big| && Contains(s, big)
    ensures Contains(s, big[k..k + n])
  {
    var i: nat :| i <= |s| && OccursAt(s, big, i);
    assert s[i..i + |big|] == big;
    assert forall m :: k <= m < k + n ==> s[i + m] == big[m];
    assert s[i + k..i + k + n] == big[k..k + n];
    assert OccursAt(s, big[k..k + n], i + k);
  }

  /**
   * `s.split(open)[1].split(close)[0]`: the text after the first `open`, cut at a second `open`
   * and then at the first `close`; `None` where the first split raises IndexError.
   */
  function Between(s: string, open: string, close: string): Option<string>
    requires open != [] && close != []
  {
    match After(s, open)
    case None => None
    case Some(x) => Some(Before(x, close))
  }

  /** The cut exists exactly when `open` occurs. */
  lemma BetweenExists(s: string, open: string, close: string)
    requires open != [] && close != []
    ensures Between(s, open, close).Some? <==> Contains(s, open)
  {
  }

  /**
   * A cut starts right after the first `open`, contains neither separator, and stops where the
   * text after that `open` ends, or where an `open` or a `close` starts in it.
   */
  lemma BetweenSeparators(s: string, open: string, close: string, i: nat, p: string)
    requires open != [] && close != [] && Find(s, open) == Some(i) && Between(s, open, close) == Some(p)
    ensures p <= s[i + |open|..]
    ensures !Contains(p, open) && !Contains(p, close)
    ensures var rest := s[i + |open|..];
            |p| == |rest| || OccursAt(rest, open, |p|) || OccursAt(rest, close, |p|)
  {
    var rest := s[i + |open|..];
    assert p == Before(Before(rest, open), close) by {
      BetweenAt(s, open, close, i);
    }
    CutBounds(rest, open, close, p);
  }

  /** The cut taken from the text after the first `open`, found at `i`. */
  lemma BetweenAt(s: string, open: string, close: string, i: nat)
    requires open != [] && close != [] && Find(s, open) == Some(i)
    ensures Between(s, open, close) == Some(Before(Before(s[i + |open|..], open), close))
  {
    AfterFirst(s, open, i);
  }

  lemma AfterFirst(s: string, sep: string, i: nat)
    requires sep != [] && Find(s, sep) == Some(i)
    ensures After(s, sep) == Some(Before(s[i + |sep|..], sep))
  {
  }

  lemma CutBounds(rest: string, open: string, close: string, p: string)
    requires open != [] && close != [] && p == Before(Before(rest, open), close)
    ensures p <= rest && !Contains(p, open) && !Contains(p, close)
    ensures |p| == |rest| || OccursAt(rest, open, |p|) || OccursAt(rest, close, |p|)
  {
    var x := Before(rest, open);
    PrefixKeepsAbsence(x, p, open);
    if Contains(x, close) {
      OccursInPrefix(x, rest, close, |p|);
    } else {
      BeforeAbsent(x, close);
      if !Contains(rest, open) {
        BeforeAbsent(rest, open);
      }
    }
  }
}
