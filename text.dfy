/**
 * String primitives the crawler and the loaders are built on: Python's notion of
 * whitespace, `re.sub(r"\s+", " ", s)`, `str.strip`, `str.replace`, `str.join`,
 * `str.split` on one character, and decimal numerals.
 */
module Text {
  import opened Common

  /** Python's `\s` in a `str` pattern and `str.isspace`: the ASCII controls 9-13 and
      28-31, space, NEL, no-break space and the Unicode space separators. */
  predicate IsSpace(c: char) {
    c == ' ' || ('\t' <= c <= '\r') || ('\U{1C}' <= c <= '\U{1F}') ||
    c == '\U{85}' || c == '\U{A0}' || c == '\U{1680}' ||
    ('\U{2000}' <= c <= '\U{200A}') || c == '\U{2028}' || c == '\U{2029}' ||
    c == '\U{202F}' || c == '\U{205F}' || c == '\U{3000}'
  }

  /** The number of whitespace characters at the start of `s`. */
  function LeadingSpaces(s: string): (n: nat)
    ensures n <= |s|
  {
    if s != [] && IsSpace(s[0]) then 1 + LeadingSpaces(s[1..]) else 0
  }

  /** The leading run is all whitespace and is followed by none. */
  lemma {:induction false} LeadingSpacesRun(s: string)
    ensures LeadingSpaces(s) == |s| || !IsSpace(s[LeadingSpaces(s)])
    ensures forall i :: 0 <= i < LeadingSpaces(s) ==> IsSpace(s[i])
  {
    if s != [] && IsSpace(s[0]) {
      LeadingSpacesRun(s[1..]);
    }
  }

  /** The longest suffix of `s` that does not start with whitespace. */
  function DropSpaces(s: string): string {
    s[LeadingSpaces(s)..]
  }

  /** The number of whitespace characters at the end of `s`. */
  function TrailingSpaces(s: string): (n: nat)
    ensures n <= |s|
  {
    if s != [] && IsSpace(s[|s| - 1]) then 1 + TrailingSpaces(s[..|s| - 1]) else 0
  }

  /** The trailing run is all whitespace and is preceded by none. */
  lemma {:induction false} TrailingSpacesRun(s: string)
    ensures TrailingSpaces(s) == |s| || !IsSpace(s[|s| - TrailingSpaces(s) - 1])
    ensures forall i :: |s| - TrailingSpaces(s) <= i < |s| ==> IsSpace(s[i])
  {
    if s != [] && IsSpace(s[|s| - 1]) {
      TrailingSpacesRun(s[..|s| - 1]);
    }
  }

  /** The longest prefix of `s` that does not end with whitespace. */
  function DropTrailingSpaces(s: string): string {
    s[..|s| - TrailingSpaces(s)]
  }

  /** `re.sub(r"\s+", " ", s)`: every maximal run of whitespace becomes one space. */
  function Collapse(s: string): (r: string)
    ensures |r| <= |s|
    ensures s != [] ==> r != [] && r[0] == (if IsSpace(s[0]) then ' ' else s[0])
    decreases |s|
  {
    if s == [] then []
    else if IsSpace(s[0]) then " " + Collapse(DropSpaces(s[1..]))
    else [s[0]] + Collapse(s[1..])
  }

  /** `s.strip()` */
  function Strip(s: string): string {
    DropTrailingSpaces(DropSpaces(s))
  }

  /** `clean_text`: collapse whitespace runs to one space, then strip. */
  function CleanText(s: string): string {
    Strip(Collapse(s))
  }

  /** No whitespace at either end. */
  predicate Trimmed(s: string) {
    s == [] || (!IsSpace(s[0]) && !IsSpace(s[|s| - 1]))
  }

  /** Every whitespace character is a plain space and none is followed by whitespace. */
  ghost predicate Collapsed(s: string) {
    && (forall i :: 0 <= i < |s| && IsSpace(s[i]) ==> s[i] == ' ')
    && (forall i, j :: 0 <= i < j < |s| && j == i + 1 ==> !(IsSpace(s[i]) && IsSpace(s[j])))
  }

  /** The characters of `s` that are not whitespace, in order. */
  function NonSpaces(s: string): string {
    if s == [] then [] else (if IsSpace(s[0]) then [] else [s[0]]) + NonSpaces(s[1..])
  }

  lemma {:induction false} NonSpacesAppend(a: string, b: string)
    ensures NonSpaces(a + b) == NonSpaces(a) + NonSpaces(b)
  {
    if a != [] {
      assert (a + b)[0] == a[0] && (a + b)[1..] == a[1..] + b;
      NonSpacesAppend(a[1..], b);
    } else {
      assert a + b == b;
    }
  }

  lemma {:induction false} NonSpacesOfSpaces(s: string)
    requires forall i :: 0 <= i < |s| ==> IsSpace(s[i])
    ensures NonSpaces(s) == []
  {
    if s != [] {
      NonSpacesOfSpaces(s[1..]);
    }
  }

  /** Dropping a run of whitespace after a whitespace character: what is left starts
      with a non-whitespace character (or is empty) and has the same non-whitespace
      characters. */
  lemma SpaceRun(s: string)
    requires s != [] && IsSpace(s[0])
    ensures var t := DropSpaces(s[1..]);
      (t == [] || !IsSpace(t[0])) && NonSpaces(s) == NonSpaces(t) && |t| < |s|
  {
    LeadingSpacesRun(s[1..]);
    NonSpacesDrop(s[1..]);
  }

  /** Dropping leading whitespace drops no other character. */
  lemma {:induction false} NonSpacesDrop(s: string)
    ensures NonSpaces(DropSpaces(s)) == NonSpaces(s)
  {
    if s != [] && IsSpace(s[0]) {
      NonSpacesDrop(s[1..]);
      assert DropSpaces(s) == DropSpaces(s[1..]);
    }
  }

  /** Dropping trailing whitespace drops no other character. */
  lemma {:induction false} NonSpacesDropTrailing(s: string)
    ensures NonSpaces(DropTrailingSpaces(s)) == NonSpaces(s)
  {
    if s != [] && IsSpace(s[|s| - 1]) {
      var p := s[..|s| - 1];
      NonSpacesDropTrailing(p);
      assert DropTrailingSpaces(s) == DropTrailingSpaces(p);
      assert p + [s[|s| - 1]] == s;
      NonSpacesAppend(p, [s[|s| - 1]]);
      assert NonSpaces([s[|s| - 1]]) == [] + NonSpaces([]);
    } else {
      assert DropTrailingSpaces(s) == s[..|s|] == s;
    }
  }

  /** A space in front of a collapsed text that starts with no whitespace. */
  lemma SpaceConsCollapsed(c: string)
    requires Collapsed(c) && (c == [] || !IsSpace(c[0]))
    ensures Collapsed(" " + c)
  {
    var r := " " + c;
    forall i, j | 0 <= i < j < |r| && j == i + 1 ensures !(IsSpace(r[i]) && IsSpace(r[j])) {
      if i > 0 {
        assert r[i] == c[i - 1] && r[j] == c[j - 1];
      }
    }
  }

  /** A non-whitespace character in front of a collapsed text. */
  lemma CharConsCollapsed(x: char, c: string)
    requires Collapsed(c) && !IsSpace(x)
    ensures Collapsed([x] + c)
  {
    var r := [x] + c;
    forall i, j | 0 <= i < j < |r| && j == i + 1 ensures !(IsSpace(r[i]) && IsSpace(r[j])) {
      if i > 0 {
        assert r[i] == c[i - 1] && r[j] == c[j - 1];
      }
    }
  }

  /** Collapsing keeps every non-whitespace character, in order, and leaves a collapsed string. */
  lemma {:induction false} CollapseProperties(s: string)
    ensures Collapsed(Collapse(s))
    ensures NonSpaces(Collapse(s)) == NonSpaces(s)
    decreases |s|
  {
    if s == [] {
    } else if IsSpace(s[0]) {
      var t := DropSpaces(s[1..]);
      SpaceRun(s);
      CollapseProperties(t);
      var c := Collapse(t);
      SpaceConsCollapsed(c);
      NonSpacesAppend(" ", c);
    } else {
      CollapseProperties(s[1..]);
      CharConsCollapsed(s[0], Collapse(s[1..]));
      NonSpacesAppend([s[0]], Collapse(s[1..]));
    }
  }

  /** Stripping gives the slice between the leading and the trailing whitespace. */
  lemma StripIsSlice(s: string) returns (lo: nat, hi: nat)
    ensures lo <= hi <= |s| && Strip(s) == s[lo..hi]
    ensures forall i :: 0 <= i < lo ==> IsSpace(s[i])
    ensures forall i :: hi <= i < |s| ==> IsSpace(s[i])
    ensures Trimmed(Strip(s))
  {
    var d := DropSpaces(s);
    LeadingSpacesRun(s);
    TrailingSpacesRun(d);
    lo := |s| - |d|;
    hi := lo + |DropTrailingSpaces(d)|;
    forall i | hi <= i < |s| ensures IsSpace(s[i]) {
      assert s[i] == d[i - lo];
    }
  }

  lemma {:induction false} CollapsedSlice(s: string, lo: nat, hi: nat)
    requires Collapsed(s) && lo <= hi <= |s|
    ensures Collapsed(s[lo..hi])
  {
    var t := s[lo..hi];
    forall i | 0 <= i < |t| ensures t[i] == s[lo + i] {
    }
    forall i, j | 0 <= i && j == i + 1 && j < |t| ensures !(IsSpace(t[i]) && IsSpace(t[j])) {
      assert t[i] == s[lo + i] && t[j] == s[lo + j];
    }
  }

  lemma NonSpacesStrip(s: string)
    ensures NonSpaces(Strip(s)) == NonSpaces(s)
  {
    NonSpacesDrop(s);
    NonSpacesDropTrailing(DropSpaces(s));
  }

  /** `clean_text` leaves no whitespace at the ends, no whitespace other than single
      spaces, and every other character of the input in its order. */
  lemma CleanTextProperties(s: string)
    ensures Trimmed(CleanText(s)) && Collapsed(CleanText(s))
    ensures NonSpaces(CleanText(s)) == NonSpaces(s)
  {
    var c := Collapse(s);
    CollapseProperties(s);
    var lo, hi := StripIsSlice(c);
    CollapsedSlice(c, lo, hi);
    NonSpacesStrip(c);
  }

  lemma {:induction false} CollapseFixes(s: string)
    requires Collapsed(s)
    ensures Collapse(s) == s
    decreases |s|
  {
    if s != [] {
      if IsSpace(s[0]) {
        assert DropSpaces(s[1..]) == s[1..];
      }
      CollapsedSlice(s, 1, |s|);
      CollapseFixes(s[1..]);
    }
  }

  lemma StripFixes(s: string)
    requires Trimmed(s)
    ensures Strip(s) == s
  {
  }

  /** `clean_text` is idempotent. */
  lemma CleanTextIdempotent(s: string)
    ensures CleanText(CleanText(s)) == CleanText(s)
  {
    var t := CleanText(s);
    CleanTextProperties(s);
    CollapseFixes(t);
    StripFixes(t);
  }

  // ---------------------------------------------------------------------------
  // Words: clean_text as `" ".join(s.split())`

  /** The number of non-whitespace characters at the start of `s`. */
  function WordLength(s: string): (n: nat)
    ensures n <= |s|
  {
    if s != [] && !IsSpace(s[0]) then 1 + WordLength(s[1..]) else 0
  }

  /** `s.split()`: the maximal runs of non-whitespace characters, in order. */
  function Words(s: string): seq<string>
    decreases |s|
  {
    if s == [] then []
    else if IsSpace(s[0]) then Words(s[1..])
    else [s[..WordLength(s)]] + Words(s[WordLength(s)..])
  }

  /** A non-empty run of non-whitespace characters. */
  ghost predicate IsWord(w: string) {
    w != [] && forall i :: 0 <= i < |w| ==> !IsSpace(w[i])
  }

  lemma {:induction false} WordLengthRun(s: string)
    ensures forall i :: 0 <= i < WordLength(s) ==> !IsSpace(s[i])
    ensures WordLength(s) == |s| || IsSpace(s[WordLength(s)])
  {
    if s != [] && !IsSpace(s[0]) {
      WordLengthRun(s[1..]);
    }
  }

  /** Every word is non-empty and holds no whitespace. */
  lemma {:induction false} WordsAreWords(s: string)
    ensures forall k :: 0 <= k < |Words(s)| ==> IsWord(Words(s)[k])
    decreases |s|
  {
    if s != [] {
      if IsSpace(s[0]) {
        WordsAreWords(s[1..]);
      } else {
        WordLengthRun(s);
        WordsAreWords(s[WordLength(s)..]);
      }
    }
  }

  /** Leading whitespace does not change the words. */
  lemma {:induction false} WordsDropSpaces(s: string)
    ensures Words(DropSpaces(s)) == Words(s)
  {
    if s != [] && IsSpace(s[0]) {
      WordsDropSpaces(s[1..]);
      assert DropSpaces(s) == DropSpaces(s[1..]);
    } else {
      assert DropSpaces(s) == s[0..] == s;
    }
  }

  /** Collapsing after a word copies the word. */
  lemma {:induction false} CollapseWord(w: string, r: string)
    requires forall i :: 0 <= i < |w| ==> !IsSpace(w[i])
    ensures Collapse(w + r) == w + Collapse(r)
  {
    if w != [] {
      var t := w + r;
      var c := w[0];
      assert t[0] == c && !IsSpace(c);
      assert t[1..] == w[1..] + r;
      assert Collapse(t) == [c] + Collapse(w[1..] + r);
      CollapseWord(w[1..], r);
      AppendAssoc([c], w[1..], Collapse(r));
      assert [c] + w[1..] == w;
    } else {
      assert w + r == r;
    }
  }

  /** Joining two or more parts: the first, the separator, then the rest joined. */
  lemma JoinCons(sep: string, w: string, ws: seq<string>)
    requires ws != []
    ensures Join(sep, [w] + ws) == w + sep + Join(sep, ws)
  {
    assert ([w] + ws)[1..] == ws;
  }

  /** One space when `s` ends with whitespace, nothing otherwise. */
  function EndGap(s: string): string {
    if s != [] && IsSpace(s[|s| - 1]) then " " else ""
  }

  /** One space when `s` starts with whitespace, nothing otherwise. */
  function LeadGap(s: string): string {
    if s != [] && IsSpace(s[0]) then " " else ""
  }

  /** Skipping a whitespace gap: what is left is shorter and starts with no
      whitespace. */
  lemma GapShrinks(r: string)
    requires r != [] && IsSpace(r[0])
    ensures |DropSpaces(r[1..])| < |r|
    ensures DropSpaces(r[1..]) == [] || !IsSpace(DropSpaces(r[1..])[0])
  {
    LeadingSpacesRun(r[1..]);
  }

  /** A whitespace gap collapses to one space before the rest and has the rest's
      words. */
  lemma GapRun(r: string)
    requires r != [] && IsSpace(r[0])
    ensures Collapse(r) == " " + Collapse(DropSpaces(r[1..]))
    ensures Words(r) == Words(DropSpaces(r[1..]))
  {
    WordsDropSpaces(r[1..]);
  }

  /** The rest after a whitespace gap ends like the gap unless it is empty, in
      which case the gap ends with whitespace. */
  lemma GapEnd(r: string)
    requires r != [] && IsSpace(r[0])
    ensures DropSpaces(r[1..]) == [] ==> IsSpace(r[|r| - 1])
    ensures DropSpaces(r[1..]) != [] ==> DropSpaces(r[1..])[|DropSpaces(r[1..])| - 1] == r[|r| - 1]
  {
    LeadingSpacesRun(r[1..]);
    if |r| > 1 {
      assert r[|r| - 1] == r[1..][|r| - 2];
    }
  }

  /** A text that starts with a word: the word, then the rest, which is empty or
      starts with whitespace. */
  lemma WordSplit(t: string) returns (w: string, r: string)
    requires t != [] && !IsSpace(t[0])
    ensures t == w + r && IsWord(w)
    ensures r == [] || IsSpace(r[0])
    ensures w == t[..WordLength(t)] && r == t[WordLength(t)..]
  {
    var n := WordLength(t);
    WordLengthRun(t);
    w, r := t[..n], t[n..];
    assert t == w + r;
  }

  /** A text that starts with no whitespace collapses to its words joined by single
      spaces, with one space more when it ends with whitespace. */
  lemma {:induction false} CollapseWords(t: string)
    requires t == [] || !IsSpace(t[0])
    ensures Collapse(t) == Join(" ", Words(t)) + EndGap(t)
    decreases |t|
  {
    if t != [] {
      var w, r := WordSplit(t);
      if r == [] {
        SingleWord(t, w);
      } else {
        GapShrinks(r);
        var r' := DropSpaces(r[1..]);
        CollapseWords(r');
        WordThenGap(t, w, r, r');
      }
    }
  }

  /** A text that is one word. */
  lemma SingleWord(t: string, w: string)
    requires t == w && IsWord(w) && w == t[..WordLength(t)] && t[WordLength(t)..] == []
    ensures Collapse(t) == Join(" ", Words(t)) + EndGap(t)
  {
    CollapseWord(w, []);
    assert w + [] == w;
    assert Words(t) == [w] + Words([]);
  }

  /** A word, a whitespace gap and the rest `r'`, given the claim for `r'`. */
  lemma WordThenGap(t: string, w: string, r: string, r': string)
    requires t == w + r && IsWord(w) && r != [] && IsSpace(r[0])
    requires w == t[..WordLength(t)] && r == t[WordLength(t)..]
    requires r' == DropSpaces(r[1..])
    requires Collapse(r') == Join(" ", Words(r')) + EndGap(r')
    ensures Collapse(t) == Join(" ", Words(t)) + EndGap(t)
  {
    CollapseWord(w, r);
    GapRun(r);
    GapEnd(r);
    GapShrinks(r);
    assert Words(t) == [w] + Words(r);
    assert t[|t| - 1] == r[|r| - 1];
    if r' == [] {
      GlueEnd(w, Words(t), Collapse(t), EndGap(t));
    } else {
      WordsNonEmpty(r');
      assert EndGap(r') == EndGap(t);
      JoinGap(w, Words(r'), Collapse(r'), Collapse(t), EndGap(t));
    }
  }

  /** A word and a final gap, over plain values. */
  lemma GlueEnd(w: string, wt: seq<string>, ct: string, gap: string)
    requires wt == [w] && ct == w + (" " + []) && gap == " "
    ensures ct == Join(" ", wt) + gap
  {
  }

  /** The step of `CollapseWords` for a word followed by a whitespace gap, over the
      collapsed rest `cr` and its words `ws`. */
  lemma JoinGap(w: string, ws: seq<string>, cr: string, ct: string, tail: string)
    requires ct == w + (" " + cr)
    requires ws != [] && cr == Join(" ", ws) + tail
    ensures ct == Join(" ", [w] + ws) + tail
  {
    JoinCons(" ", w, ws);
    AppendAssoc(w, " ", Join(" ", ws) + tail);
    AppendAssoc(w + " ", Join(" ", ws), tail);
  }

  lemma WordsNonEmpty(s: string)
    requires s != [] && !IsSpace(s[0])
    ensures Words(s) != []
  {
    assert Words(s) == [s[..WordLength(s)]] + Words(s[WordLength(s)..]);
  }

  /** Words joined by single spaces have no whitespace at either end. */
  lemma {:induction false} JoinWordsTrimmed(ws: seq<string>)
    requires forall k :: 0 <= k < |ws| ==> IsWord(ws[k])
    ensures ws == [] <==> Join(" ", ws) == []
    ensures Trimmed(Join(" ", ws))
  {
    if |ws| > 1 {
      JoinWordsTrimmed(ws[1..]);
      var j := Join(" ", ws[1..]);
      assert Join(" ", ws) == ws[0] + " " + j;
      assert IsWord(ws[0]) && IsWord(ws[1]);
    } else if |ws| == 1 {
      assert IsWord(ws[0]);
    }
  }

  /** Stripping a trimmed text with whitespace around it gives the text. */
  lemma StripPadded(a: string, m: string, b: string)
    requires forall i :: 0 <= i < |a| ==> IsSpace(a[i])
    requires forall i :: 0 <= i < |b| ==> IsSpace(b[i])
    requires Trimmed(m)
    ensures Strip(a + m + b) == m
  {
    var s := a + m + b;
    var lo, hi := StripIsSlice(s);
    if m == [] {
      assert forall i :: 0 <= i < |s| ==> IsSpace(s[i]);
    } else {
      assert s[|a|] == m[0] && s[|a| + |m| - 1] == m[|m| - 1];
      assert forall i :: 0 <= i < |a| ==> s[i] == a[i];
      assert forall i :: |a| + |m| <= i < |s| ==> s[i] == b[i - |a| - |m|];
      assert s[|a|..|a| + |m|] == m;
    }
  }

  /** Collapsing a text: one space for its leading whitespace, then the collapse
      of the rest. */
  lemma CollapseLead(s: string)
    ensures Collapse(s) == LeadGap(s) + Collapse(DropSpaces(s))
    ensures DropSpaces(s) == [] || !IsSpace(DropSpaces(s)[0])
  {
    LeadingSpacesRun(s);
    if s != [] && IsSpace(s[0]) {
      assert DropSpaces(s) == DropSpaces(s[1..]);
    } else {
      assert DropSpaces(s) == s[0..] == s;
    }
  }

  /** `clean_text(s)` is `" ".join(s.split())`: every whitespace run between two
      words becomes exactly one space and whitespace at the ends goes away. */
  lemma CleanTextWords(s: string)
    ensures CleanText(s) == Join(" ", Words(s))
  {
    var t := DropSpaces(s);
    CollapseLead(s);
    WordsDropSpaces(s);
    CollapseWords(t);
    var j := Join(" ", Words(t));
    WordsAreWords(t);
    JoinWordsTrimmed(Words(t));
    AppendAssoc(LeadGap(s), j, EndGap(t));
    StripPadded(LeadGap(s), j, EndGap(t));
  }

  // ---------------------------------------------------------------------------
  // str.replace

  /** `s.replace(p, r)` for a non-empty `p`: occurrences are found left to right and
      do not overlap. */
  function Replace(s: string, p: string, r: string): string
    requires p != []
    decreases |s|
  {
    if s == [] then []
    else if p <= s then r + Replace(s[|p|..], p, r)
    else [s[0]] + Replace(s[1..], p, r)
  }

  /** `p` occurs nowhere in `s`. */
  predicate Absent(s: string, p: string) {
    forall i :: 0 <= i <= |s| ==> !(p <= s[i..])
  }

  /** Replacing a pattern that does not occur changes nothing. */
  lemma {:induction false} ReplaceAbsent(s: string, p: string, r: string)
    requires p != [] && Absent(s, p)
    ensures Replace(s, p, r) == s
    decreases |s|
  {
    if s != [] {
      assert s[0..] == s;
      assert Absent(s[1..], p) by {
        forall i | 0 <= i <= |s| - 1 ensures !(p <= s[1..][i..]) {
          assert s[1..][i..] == s[i + 1..];
        }
      }
      ReplaceAbsent(s[1..], p, r);
    }
  }

  /** No character `a` is immediately followed by a character `b`. */
  ghost predicate NoPair(s: string, a: char, b: char) {
    forall i, j :: 0 <= i < j < |s| && j == i + 1 ==> !(s[i] == a && s[j] == b)
  }

  lemma {:induction false} ReplaceHead(s: string, p: string, r: string)
    requires p != [] && s != []
    ensures var t := Replace(s, p, r);
      (p <= s && r != [] ==> t != [] && t[0] == r[0]) &&
      (!(p <= s) ==> t != [] && t[0] == s[0])
  {
  }

  /** Replacing a two-character pattern by a non-empty text that contains neither of
      the characters `a`, `b` leaves no `a` followed by `b`, provided that the pair is
      the pattern itself or did not occur before. */
  lemma {:induction false} ReplaceLeavesNoPair(s: string, p: string, r: string, a: char, b: char)
    requires |p| == 2 && r != [] && a !in r && b !in r
    requires p == [a, b] || NoPair(s, a, b)
    ensures NoPair(Replace(s, p, r), a, b)
    decreases |s|
  {
    if s == [] {
    } else {
      var k := if p <= s then 2 else 1;
      var rest := Replace(s[k..], p, r);
      assert NoPair(s, a, b) ==> NoPair(s[k..], a, b) by {
        if NoPair(s, a, b) {
          forall i, j | 0 <= i && j == i + 1 && j < |s[k..]| ensures !(s[k..][i] == a && s[k..][j] == b) {
            assert s[k..][i] == s[i + k] && s[k..][j] == s[j + k];
          }
        }
      }
      ReplaceLeavesNoPair(s[k..], p, r, a, b);
      var head := if p <= s then r else [s[0]];
      var t := head + rest;
      assert t == Replace(s, p, r);
      if rest != [] {
        ReplaceHead(s[k..], p, r);
        if k == 1 && s[0] == a {
          assert |s| >= 2 && s[..2] == [s[0], s[1]];
          assert s[1] != b;
        }
        assert head[|head| - 1] == a ==> rest[0] != b;
      }
      forall i, j | 0 <= i && j == i + 1 && j < |t| ensures !(t[i] == a && t[j] == b) {
        if j < |head| {
          assert t[i] == r[i];
        } else if i >= |head| {
          assert t[i] == rest[i - |head|] && t[j] == rest[j - |head|];
        } else {
          assert t[i] == head[|head| - 1] && t[j] == rest[0];
        }
      }
    }
  }

  /** Replacing keeps the absence of a character that the replacement does not contain. */
  lemma {:induction false} ReplaceKeepsOut(s: string, p: string, r: string, c: char)
    requires p != [] && c !in s && c !in r
    ensures c !in Replace(s, p, r)
    decreases |s|
  {
    if s != [] {
      if p <= s {
        ReplaceKeepsOut(s[|p|..], p, r, c);
      } else {
        ReplaceKeepsOut(s[1..], p, r, c);
      }
    }
  }

  // ---------------------------------------------------------------------------
  // str.join and str.split

  /** `sep.join(parts)` */
  function Join(sep: string, parts: seq<string>): string {
    if parts == [] then []
    else if |parts| == 1 then parts[0]
    else parts[0] + sep + Join(sep, parts[1..])
  }

  /** The index of the first `c` in `s`, or `|s|` when there is none. */
  function IndexOf(s: string, c: char): (i: nat)
    ensures i <= |s| && c !in s[..i] && (i < |s| ==> s[i] == c)
  {
    if s == [] then 0 else if s[0] == c then 0 else 1 + IndexOf(s[1..], c)
  }

  /** `s.split(c)` for a one-character separator. */
  function Split(s: string, c: char): (parts: seq<string>)
    ensures |parts| >= 1
    decreases |s|
  {
    var i := IndexOf(s, c);
    if i == |s| then [s] else [s[..i]] + Split(s[i + 1..], c)
  }

  /** A text without `c`, then `c`, then the rest: the text is the first piece. */
  lemma SplitCons(a: string, rest: string, c: char)
    requires c !in a
    ensures Split(a + [c] + rest, c) == [a] + Split(rest, c)
  {
    var s := a + [c] + rest;
    assert s == a + ([c] + rest);
    IndexOfPrefix(a, [c] + rest, c);
    assert IndexOf([c] + rest, c) == 0;
    assert s[..|a|] == a;
    assert s[|a| + 1..] == rest;
  }

  /** Splitting a joined text at the separator gives back the parts, provided no part
      contains the separator. */
  lemma {:induction false} SplitJoin(parts: seq<string>, c: char)
    requires |parts| >= 1
    requires forall k :: 0 <= k < |parts| ==> c !in parts[k]
    ensures Split(Join([c], parts), c) == parts
  {
    if |parts| == 1 {
      assert IndexOf(parts[0], c) == |parts[0]|;
    } else {
      assert Join([c], parts) == parts[0] + [c] + Join([c], parts[1..]);
      SplitCons(parts[0], Join([c], parts[1..]), c);
      SplitJoin(parts[1..], c);
      assert parts == [parts[0]] + parts[1..];
    }
  }

  lemma {:induction false} IndexOfPrefix(a: string, b: string, c: char)
    requires c !in a
    ensures IndexOf(a + b, c) == |a| + IndexOf(b, c)
  {
    if a != [] {
      assert (a + b)[0] == a[0] && a[0] != c;
      assert (a + b)[1..] == a[1..] + b;
      assert c !in a[1..];
      IndexOfPrefix(a[1..], b, c);
    } else {
      assert a + b == b;
    }
  }

  // ---------------------------------------------------------------------------
  // Decimal numerals

  predicate IsDigit(c: char) {
    '0' <= c <= '9'
  }

  predicate AllDigits(s: string) {
    forall i :: 0 <= i < |s| ==> IsDigit(s[i])
  }

  /** `int(s)` for a numeral made of ASCII digits. */
  function DecimalValue(s: string): nat
    requires AllDigits(s)
  {
    if s == [] then 0 else 10 * DecimalValue(s[..|s| - 1]) + ((s[|s| - 1] as int) - ('0' as int))
  }

  /** `str(n)` for a natural number. */
  function NatToString(n: nat): (r: string)
    ensures r != [] && AllDigits(r)
  {
    if n < 10 then [('0' as int + n) as char]
    else NatToString(n / 10) + [('0' as int + n % 10) as char]
  }

  /** Reading back a printed number gives the number. */
  lemma {:induction false} DecimalOfNatToString(n: nat)
    ensures DecimalValue(NatToString(n)) == n
  {
    var s := NatToString(n);
    if n >= 10 {
      DecimalOfNatToString(n / 10);
      assert s[..|s| - 1] == NatToString(n / 10);
    }
  }

  /** Different numbers print differently. */
  lemma NatToStringInjective(m: nat, n: nat)
    ensures NatToString(m) == NatToString(n) ==> m == n
  {
    DecimalOfNatToString(m);
    DecimalOfNatToString(n);
  }
}
