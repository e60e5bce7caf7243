/**
 * `normalize`, the clean-up applied to every description before it is indexed:
 * ideographic spaces become spaces, whitespace runs become one space, runs of
 * newlines become one newline, 오전/오후 become "AM "/"PM ", and the ends are stripped.
 */
module TextUtils {
  import opened Text

  const IdeographicSpace: string := "\U{3000}"

  /** The number of newlines at the start of `s`. */
  function NewlineRun(s: string): (n: nat)
    ensures n <= |s|
  {
    if s != [] && s[0] == '\n' then 1 + NewlineRun(s[1..]) else 0
  }

  /** `re.sub(r"\n{2,}", "\n", s)`: every maximal run of newlines becomes one newline
      (a run of one is replaced by itself). */
  function SquashNewlines(s: string): (r: string)
    ensures s != [] ==> r != [] && r[0] == s[0]
    decreases |s|
  {
    if s == [] then []
    else if s[0] == '\n' then "\n" + SquashNewlines(s[NewlineRun(s)..])
    else [s[0]] + SquashNewlines(s[1..])
  }

  /** `normalize(text)` */
  function Normalize(text: string): string {
    if text == [] then []
    else
      var spaced := Replace(text, IdeographicSpace, " ");
      var collapsed := SquashNewlines(Collapse(spaced));
      Strip(Replace(Replace(collapsed, "오전", "AM "), "오후", "PM "))
  }

  /** Every whitespace character of `s` is a plain space. */
  predicate PlainSpaces(s: string) {
    forall i :: 0 <= i < |s| && IsSpace(s[i]) ==> s[i] == ' '
  }

  // ---------------------------------------------------------------------------
  // The newline step

  /** No newline is followed by another once the runs are squashed. */
  lemma {:induction false} SquashNewlinesNoPair(s: string)
    ensures NoPair(SquashNewlines(s), '\n', '\n')
    decreases |s|
  {
    if s != [] {
      var k := if s[0] == '\n' then NewlineRun(s) else 1;
      var rest := s[k..];
      SquashNewlinesNoPair(rest);
      var head := if s[0] == '\n' then "\n" else [s[0]];
      var t := head + SquashNewlines(rest);
      assert t == SquashNewlines(s);
      if s[0] == '\n' && rest != [] {
        NewlineRunStops(s);
      }
      forall i, j | 0 <= i && j == i + 1 && j < |t| ensures !(t[i] == '\n' && t[j] == '\n') {
        if i >= 1 {
          assert t[i] == SquashNewlines(rest)[i - 1] && t[j] == SquashNewlines(rest)[j - 1];
        }
      }
    }
  }

  /** The newline run is followed by a character that is not a newline. */
  lemma {:induction false} NewlineRunStops(s: string)
    ensures NewlineRun(s) == |s| || s[NewlineRun(s)] != '\n'
  {
    if s != [] && s[0] == '\n' {
      NewlineRunStops(s[1..]);
    }
  }

  /** Squashing newline runs changes nothing in a text without newlines: in
      `normalize` that step comes after every newline has already become a space. */
  lemma {:induction false} SquashNewlinesNoop(s: string)
    requires '\n' !in s
    ensures SquashNewlines(s) == s
    decreases |s|
  {
    if s != [] {
      assert s[0] in s;
      assert forall c :: c in s[1..] ==> c in s;
      SquashNewlinesNoop(s[1..]);
    }
  }

  // ---------------------------------------------------------------------------
  // Helper facts on the string primitives

  lemma {:induction false} ReplaceKeepsPlain(s: string, p: string, r: string)
    requires p != [] && PlainSpaces(s) && PlainSpaces(r)
    ensures PlainSpaces(Replace(s, p, r))
    decreases |s|
  {
    if s != [] {
      var k := if p <= s then |p| else 1;
      var head := if p <= s then r else [s[0]];
      assert PlainSpaces(s[k..]) by {
        forall i | 0 <= i < |s[k..]| && IsSpace(s[k..][i]) ensures s[k..][i] == ' ' {
          assert s[k..][i] == s[i + k];
        }
      }
      ReplaceKeepsPlain(s[k..], p, r);
      var rest := Replace(s[k..], p, r);
      assert Replace(s, p, r) == head + rest;
      forall i | 0 <= i < |head + rest| && IsSpace((head + rest)[i]) ensures (head + rest)[i] == ' ' {
        if i >= |head| {
          assert (head + rest)[i] == rest[i - |head|];
        }
      }
    }
  }

  lemma SlicePlain(s: string, lo: nat, hi: nat)
    requires lo <= hi <= |s| && PlainSpaces(s)
    ensures PlainSpaces(s[lo..hi])
  {
    forall i | 0 <= i < hi - lo && IsSpace(s[lo..hi][i]) ensures s[lo..hi][i] == ' ' {
      assert s[lo..hi][i] == s[lo + i];
    }
  }

  lemma SliceNoPair(s: string, lo: nat, hi: nat, a: char, b: char)
    requires lo <= hi <= |s| && NoPair(s, a, b)
    ensures NoPair(s[lo..hi], a, b)
  {
    forall i, j | 0 <= i && j == i + 1 && j < hi - lo ensures !(s[lo..hi][i] == a && s[lo..hi][j] == b) {
      assert s[lo..hi][i] == s[lo + i] && s[lo..hi][j] == s[lo + j];
    }
  }

  lemma {:induction false} SquashKeepsPlain(s: string)
    requires PlainSpaces(s)
    ensures PlainSpaces(SquashNewlines(s))
  {
    assert '\n' !in s by {
      forall i | 0 <= i < |s| ensures s[i] != '\n' {
        assert IsSpace(s[i]) ==> s[i] == ' ';
      }
    }
    SquashNewlinesNoop(s);
  }

  /** A character that is not whitespace and does not occur in `s` does not occur
      after collapsing either. */
  lemma {:induction false} CollapseKeepsOut(s: string, c: char)
    requires !IsSpace(c) && c !in s
    ensures c !in Collapse(s)
    decreases |s|
  {
    if s != [] {
      if IsSpace(s[0]) {
        assert c !in DropSpaces(s[1..]) by {
          assert forall x :: x in DropSpaces(s[1..]) ==> x in s;
        }
        CollapseKeepsOut(DropSpaces(s[1..]), c);
      } else {
        assert forall x :: x in s[1..] ==> x in s;
        CollapseKeepsOut(s[1..], c);
      }
    }
  }

  /** Two texts with whitespace at the same places and equal other characters have the
      same leading whitespace run. */
  lemma {:induction false} LeadingSpacesAlike(s: string, t: string)
    requires |s| == |t|
    requires forall i :: 0 <= i < |s| ==> (IsSpace(s[i]) <==> IsSpace(t[i]))
    ensures LeadingSpaces(s) == LeadingSpaces(t)
  {
    if s != [] && IsSpace(s[0]) {
      LeadingSpacesAlike(s[1..], t[1..]);
    }
  }

  /** Collapsing only sees whether a character is whitespace, so texts that differ
      only in which whitespace characters they hold collapse alike. */
  lemma {:induction false} CollapseAlike(s: string, t: string)
    requires |s| == |t|
    requires forall i :: 0 <= i < |s| ==> (IsSpace(s[i]) <==> IsSpace(t[i]))
    requires forall i :: 0 <= i < |s| && !IsSpace(s[i]) ==> s[i] == t[i]
    ensures Collapse(s) == Collapse(t)
    decreases |s|
  {
    if s != [] {
      if IsSpace(s[0]) {
        LeadingSpacesAlike(s[1..], t[1..]);
        var n := LeadingSpaces(s[1..]);
        CollapseAlike(s[1..][n..], t[1..][n..]);
      } else {
        CollapseAlike(s[1..], t[1..]);
      }
    }
  }

  /** Replacing a one-character pattern by one character maps the text character by
      character. */
  lemma {:induction false} ReplaceChar(s: string, x: char, y: char)
    ensures |Replace(s, [x], [y])| == |s|
    ensures forall i :: 0 <= i < |s| ==> Replace(s, [x], [y])[i] == if s[i] == x then y else s[i]
    decreases |s|
  {
    if s != [] {
      ReplaceChar(s[1..], x, y);
      assert [x] <= s <==> s[0] == x;
      var t := Replace(s, [x], [y]);
      assert t == (if s[0] == x then [y] else [s[0]]) + Replace(s[1..], [x], [y]);
      forall i | 0 <= i < |s| ensures t[i] == if s[i] == x then y else s[i] {
        if i > 0 {
          assert t[i] == Replace(s[1..], [x], [y])[i - 1];
        }
      }
    }
  }

  lemma AbsentByFirst(s: string, p: string)
    requires p != [] && p[0] !in s
    ensures Absent(s, p)
  {
    forall i | 0 <= i <= |s| ensures !(p <= s[i..]) {
      if i < |s| {
        assert s[i..][0] == s[i];
      }
    }
  }

  // ---------------------------------------------------------------------------
  // Properties of normalize

  /** An empty text normalizes to the empty text. */
  lemma NormalizeEmpty()
    ensures Normalize("") == ""
  {
  }

  /** The result has no whitespace at either end, no whitespace other than plain
      spaces (in particular no newline and no ideographic space), and no 오전 or 오후
      left. */
  lemma NormalizeProperties(text: string)
    ensures Trimmed(Normalize(text))
    ensures PlainSpaces(Normalize(text))
    ensures '\n' !in Normalize(text) && '\U{3000}' !in Normalize(text)
    ensures NoPair(Normalize(text), '오', '전') && NoPair(Normalize(text), '오', '후')
  {
    if text != [] {
      var spaced := Replace(text, IdeographicSpace, " ");
      var c := Collapse(spaced);
      CollapseProperties(spaced);
      SquashKeepsPlain(c);
      var collapsed := SquashNewlines(c);
      var am := Replace(collapsed, "오전", "AM ");
      var pm := Replace(am, "오후", "PM ");
      ReplaceKeepsPlain(collapsed, "오전", "AM ");
      ReplaceKeepsPlain(am, "오후", "PM ");
      ReplaceLeavesNoPair(collapsed, "오전", "AM ", '오', '전');
      ReplaceLeavesNoPair(am, "오후", "PM ", '오', '전');
      ReplaceLeavesNoPair(am, "오후", "PM ", '오', '후');
      var lo, hi := StripIsSlice(pm);
      SlicePlain(pm, lo, hi);
      SliceNoPair(pm, lo, hi, '오', '전');
      SliceNoPair(pm, lo, hi, '오', '후');
      var r := Normalize(text);
      assert r == pm[lo..hi];
      forall i | 0 <= i < |r| ensures r[i] != '\n' && r[i] != '\U{3000}' {
        if IsSpace(r[i]) {
          assert r[i] == ' ';
        }
      }
    }
  }

  /** On a text without the character 오, `normalize` is the crawler's `clean_text`:
      the ideographic-space and newline steps are subsumed by collapsing whitespace,
      and there is nothing to translate. */
  lemma NormalizeIsCleanText(text: string)
    requires '오' !in text
    ensures Normalize(text) == CleanText(text)
  {
    if text != [] {
      var spaced := Replace(text, IdeographicSpace, " ");
      ReplaceChar(text, '\U{3000}', ' ');
      CollapseAlike(spaced, text);
      var c := Collapse(text);
      CollapseProperties(text);
      assert '\n' !in c by {
        forall i | 0 <= i < |c| ensures c[i] != '\n' {
          assert IsSpace(c[i]) ==> c[i] == ' ';
        }
      }
      SquashNewlinesNoop(c);
      CollapseKeepsOut(text, '오');
      AbsentByFirst(c, "오전");
      ReplaceAbsent(c, "오전", "AM ");
      AbsentByFirst(c, "오후");
      ReplaceAbsent(c, "오후", "PM ");
    }
  }

  /** A text that `clean_text` leaves alone and that holds no 오 is left alone by
      `normalize`. */
  lemma NormalizeFixes(text: string)
    requires '오' !in text && Trimmed(text) && Collapsed(text)
    ensures Normalize(text) == text
  {
    NormalizeIsCleanText(text);
    CollapseFixes(text);
    StripFixes(text);
  }

  /** On a text that is already collapsed, only the 오전/오후 translation and the
      final strip are left. */
  lemma NormalizeOfCollapsed(text: string)
    requires text != [] && Collapsed(text)
    ensures Normalize(text) == Strip(Replace(Replace(text, "오전", "AM "), "오후", "PM "))
  {
    assert '\n' !in text && '\U{3000}' !in text by {
      forall i | 0 <= i < |text| ensures text[i] != '\n' && text[i] != '\U{3000}' {
        assert IsSpace(text[i]) ==> text[i] == ' ';
      }
    }
    AbsentByFirst(text, IdeographicSpace);
    ReplaceAbsent(text, IdeographicSpace, " ");
    CollapseFixes(text);
    SquashNewlinesNoop(text);
  }

  /** A text that starts with 오전 and is otherwise already clean comes out with
      "AM " in its place; nothing looks at the whitespace that follows. */
  lemma NormalizeLeadingAm(r: string)
    requires r != [] && '오' !in r && Collapsed(r) && !IsSpace(r[|r| - 1])
    ensures Normalize("오전" + r) == "AM " + r
  {
    var text := "오전" + r;
    LeadingAmCollapsed(r);
    NormalizeOfCollapsed(text);
    assert text[2..] == r;
    AbsentByFirst(r, "오전");
    ReplaceAbsent(r, "오전", "AM ");
    var t := "AM " + r;
    assert Replace(text, "오전", "AM ") == t;
    assert '오' !in t;
    AbsentByFirst(t, "오후");
    ReplaceAbsent(t, "오후", "PM ");
    StripFixes(t);
  }

  lemma LeadingAmCollapsed(r: string)
    requires Collapsed(r)
    ensures Collapsed("오전" + r)
  {
    var text := "오전" + r;
    forall i | 0 <= i < |text| && IsSpace(text[i]) ensures text[i] == ' ' {
      assert text[i] == r[i - 2];
    }
    forall i, j | 0 <= i < j < |text| && j == i + 1 ensures !(IsSpace(text[i]) && IsSpace(text[j])) {
      if i >= 2 {
        assert text[i] == r[i - 2] && text[j] == r[j - 2];
      }
    }
  }

  /** The translation of 오전/오후 runs after whitespace is collapsed, so a time such as
      "오전 9" comes out with two spaces, and normalizing that again removes one:
      `normalize` is not idempotent. */
  lemma NormalizeDoubleSpace()
    ensures Normalize("오전 9") == "AM  9"
    ensures Normalize(Normalize("오전 9")) != Normalize("오전 9")
  {
    SampleFacts();
    NormalizeLeadingAm(" 9");
    var t := "AM  9";
    NormalizeIsCleanText(t);
    CleanTextProperties(t);
  }

  lemma SampleFacts()
    ensures Collapsed(" 9") && !IsSpace('9') && '오' !in " 9"
    ensures "오전 9" == "오전" + " 9" && "AM " + " 9" == "AM  9"
    ensures '오' !in "AM  9" && !Collapsed("AM  9")
  {
    var t := "AM  9";
    assert IsSpace(t[2]) && IsSpace(t[3]);
  }
}
