/**
 * `natural_sort_key` from the FAQ chatbot script: a file name is cut into texts and
 * digit runs so that names sort by the value of their numbers.
 */
module NaturalSort {
  import opened Common
  import opened Text

  /** An element of a sort key: a text between numbers, or a number's value. */
  datatype KeyPart = KText(text: string) | KNum(value: nat)

  /** The end of the run of non-digits that starts at `i`. */
  function TextEnd(s: string, i: nat): (n: nat)
    requires i <= |s|
    ensures i <= n <= |s| && (n < |s| ==> IsDigit(s[n]))
    decreases |s| - i
  {
    if i == |s| || IsDigit(s[i]) then i else TextEnd(s, i + 1)
  }

  /** The end of the run of digits that starts at `i`. */
  function DigitEnd(s: string, i: nat): (n: nat)
    requires i <= |s|
    ensures i <= n <= |s| && (n < |s| ==> !IsDigit(s[n]))
    ensures i < |s| && IsDigit(s[i]) ==> n > i
    decreases |s| - i
  {
    if i == |s| || !IsDigit(s[i]) then i else DigitEnd(s, i + 1)
  }

  /** `re.split(r'(\d+)', s)`: the texts between digit runs, with each digit run kept
      between them. */
  function Chunks(s: string): (r: seq<string>)
    ensures |r| >= 1
    decreases |s|
  {
    var t := TextEnd(s, 0);
    if t == |s| then [s]
    else
      var e := DigitEnd(s, t);
      [s[..t], s[t..e]] + Chunks(s[e..])
  }

  /** `int(text) if text.isdigit() else text` */
  function Part(chunk: string): KeyPart {
    if chunk != [] && AllDigits(chunk) then KNum(DecimalValue(chunk)) else KText(chunk)
  }

  /** `natural_sort_key(s)` */
  function NaturalSortKey(s: string): seq<KeyPart> {
    Map(Part, Chunks(s))
  }

  /** No character of `s` is a digit. */
  predicate NoDigits(s: string) {
    forall k :: 0 <= k < |s| ==> !IsDigit(s[k])
  }

  lemma {:induction false} TextEndRun(s: string, i: nat)
    requires i <= |s|
    ensures forall k :: i <= k < TextEnd(s, i) ==> !IsDigit(s[k])
    decreases |s| - i
  {
    if i < |s| && !IsDigit(s[i]) {
      TextEndRun(s, i + 1);
    }
  }

  lemma {:induction false} DigitEndRun(s: string, i: nat)
    requires i <= |s|
    ensures forall k :: i <= k < DigitEnd(s, i) ==> IsDigit(s[k])
    decreases |s| - i
  {
    if i < |s| && IsDigit(s[i]) {
      DigitEndRun(s, i + 1);
    }
  }

  /** One step of the split: a digit-free text, then (unless the text reaches the end)
      a maximal non-empty digit run, then the chunks of what follows. */
  lemma ChunkStep(s: string) returns (text: string, digits: string, rest: string)
    ensures NoDigits(text) && AllDigits(digits)
    ensures digits == [] ==> text == s && Chunks(s) == [s]
    ensures digits != [] ==> s == text + (digits + rest) && Chunks(s) == [text, digits] + Chunks(rest)
    ensures rest == [] || !IsDigit(rest[0])
    ensures s != [] && !IsDigit(s[0]) ==> text != []
  {
    var t := TextEnd(s, 0);
    TextEndRun(s, 0);
    text, digits, rest := s[..t], [], [];
    if t == |s| {
      assert text == s;
    } else {
      var e := DigitEnd(s, t);
      DigitEndRun(s, t);
      digits, rest := s[t..e], s[e..];
      assert s == text + (digits + rest);
      if rest != [] {
        assert rest[0] == s[e];
      }
    }
  }

  /** The shape of a split: a digit-free text, then either nothing or a non-empty
      digit run followed by the shape again, where a text that is followed by another
      digit run is non-empty. */
  predicate Alternates(r: seq<string>)
    decreases |r|
  {
    |r| >= 1 && NoDigits(r[0]) &&
    (|r| == 1 ||
     (|r| >= 3 && r[1] != [] && AllDigits(r[1]) && Alternates(r[2..]) && (|r| > 3 ==> r[2] != [])))
  }

  /** The chunks alternate: texts without digits, then non-empty digit runs, and so
      on, ending with a text. */
  lemma {:induction false} ChunksAlternate(s: string)
    ensures Alternates(Chunks(s))
    decreases |s|
  {
    var text, digits, rest := ChunkStep(s);
    if digits != [] {
      ChunksAlternate(rest);
      var r := Chunks(s);
      assert r[2..] == Chunks(rest);
      if |r| > 3 {
        var text2, digits2, rest2 := ChunkStep(rest);
        assert rest != [] && !IsDigit(rest[0]);
      }
    }
  }

  /** An alternating split has odd length. */
  lemma {:induction false} AlternatesOdd(r: seq<string>)
    requires Alternates(r)
    ensures |r| % 2 == 1
    decreases |r|
  {
    if |r| > 1 {
      AlternatesOdd(r[2..]);
    }
  }

  /** The element at position `k` of an alternating split: a digit-free text at an even
      position, non-empty when it is strictly inside, and a non-empty digit run at an
      odd one. */
  lemma {:induction false} AlternatesAt(r: seq<string>, k: nat)
    requires Alternates(r) && k < |r|
    ensures k % 2 == 0 ==> NoDigits(r[k]) && (0 < k < |r| - 1 ==> r[k] != [])
    ensures k % 2 == 1 ==> r[k] != [] && AllDigits(r[k])
    decreases k
  {
    if k >= 2 {
      AlternatesAt(r[2..], k - 2);
      assert r[2..][k - 2] == r[k];
    }
  }

  /** The chunks alternate: texts without digits at even positions, non-empty digit
      runs at odd positions, and an odd number of them, so they begin and end with a
      text. Every text strictly inside is non-empty, so each digit run is maximal. */
  lemma ChunksShape(s: string)
    ensures |Chunks(s)| % 2 == 1
    ensures forall k :: 0 <= k < |Chunks(s)| && k % 2 == 0 ==> NoDigits(Chunks(s)[k])
    ensures forall k :: 0 <= k < |Chunks(s)| && k % 2 == 1 ==> Chunks(s)[k] != [] && AllDigits(Chunks(s)[k])
    ensures forall k :: 0 < k < |Chunks(s)| - 1 && k % 2 == 0 ==> Chunks(s)[k] != []
  {
    var r := Chunks(s);
    ChunksAlternate(s);
    AlternatesOdd(r);
    forall k | 0 <= k < |r| ensures AlternatesFacts(r, k) {
      AlternatesAt(r, k);
    }
  }

  predicate AlternatesFacts(r: seq<string>, k: nat)
    requires k < |r|
  {
    (k % 2 == 0 ==> NoDigits(r[k]) && (0 < k < |r| - 1 ==> r[k] != [])) &&
    (k % 2 == 1 ==> r[k] != [] && AllDigits(r[k]))
  }

  lemma JoinTwoMore(a: string, b: string, cs: seq<string>)
    requires cs != []
    ensures Join("", [a, b] + cs) == a + (b + Join("", cs))
  {
    var r := [a, b] + cs;
    assert r[1..] == [b] + cs;
    assert r[1..][1..] == cs;
  }

  /** Gluing the chunks back together gives the input. */
  lemma {:induction false} ChunksJoin(s: string)
    ensures Join("", Chunks(s)) == s
    decreases |s|
  {
    var text, digits, rest := ChunkStep(s);
    if digits != [] {
      ChunksJoin(rest);
      JoinTwoMore(text, digits, Chunks(rest));
    }
  }

  /** The key alternates texts and numbers: an odd number of parts, texts at the even
      positions and numbers at the odd ones. */
  lemma NaturalSortKeyShape(s: string)
    ensures |NaturalSortKey(s)| % 2 == 1
    ensures forall k :: 0 <= k < |NaturalSortKey(s)| ==> (NaturalSortKey(s)[k].KText? <==> k % 2 == 0)
    ensures forall k :: 0 <= k < |NaturalSortKey(s)| && k % 2 == 0 ==> NoDigits(NaturalSortKey(s)[k].text)
  {
    var cs := Chunks(s);
    ChunksShape(s);
    forall k | 0 <= k < |cs| ensures (Part(cs[k]).KText? <==> k % 2 == 0) {
      if k % 2 == 0 && cs[k] != [] {
        assert !IsDigit(cs[k][0]);
      }
    }
  }

  /** Python compares two keys element by element and never meets a string against an
      integer, because the parts of any two keys agree in kind position by position. */
  lemma KeysComparable(s: string, t: string)
    ensures forall k :: 0 <= k < |NaturalSortKey(s)| && k < |NaturalSortKey(t)| ==>
      NaturalSortKey(s)[k].KText? == NaturalSortKey(t)[k].KText?
  {
    NaturalSortKeyShape(s);
    NaturalSortKeyShape(t);
  }

  /** Python's `<` on strings: by code point, a proper prefix first. */
  predicate TextLess(a: string, b: string) {
    if a == [] then b != []
    else if b == [] then false
    else if a[0] != b[0] then a[0] < b[0]
    else TextLess(a[1..], b[1..])
  }

  /** Python's `<` on two parts of the same kind. */
  predicate PartLess(x: KeyPart, y: KeyPart) {
    (x.KNum? && y.KNum? && x.value < y.value) || (x.KText? && y.KText? && TextLess(x.text, y.text))
  }

  /** Python's `<` on two keys: the first differing part decides, a proper prefix
      comes first. */
  predicate KeyLess(x: seq<KeyPart>, y: seq<KeyPart>) {
    if x == [] then y != []
    else if y == [] then false
    else if x[0] != y[0] then PartLess(x[0], y[0])
    else KeyLess(x[1..], y[1..])
  }

  lemma {:induction false} TextEndAll(s: string, i: nat, j: nat)
    requires i <= j < |s| && IsDigit(s[j])
    requires forall k :: i <= k < j ==> !IsDigit(s[k])
    ensures TextEnd(s, i) == j
    decreases j - i
  {
    if i < j {
      TextEndAll(s, i + 1, j);
    }
  }

  lemma {:induction false} DigitEndAll(s: string, i: nat)
    requires i <= |s|
    requires forall k :: i <= k < |s| ==> IsDigit(s[k])
    ensures DigitEnd(s, i) == |s|
    decreases |s| - i
  {
    if i < |s| {
      DigitEndAll(s, i + 1);
    }
  }

  /** A name made of a digit-free text and a number has the key text, number value,
      empty text. */
  lemma NumberedKey(p: string, n: nat)
    requires NoDigits(p)
    ensures NaturalSortKey(p + NatToString(n)) == [KText(p), KNum(n), KText("")]
  {
    var d := NatToString(n);
    NumberedChunks(p, d);
    NumberPart(n);
    TextPart(p);
    KeyOfThree(p + d, p, d, "");
  }

  lemma NumberPart(n: nat)
    ensures Part(NatToString(n)) == KNum(n)
  {
    DecimalOfNatToString(n);
  }

  lemma TextPart(p: string)
    requires NoDigits(p)
    ensures Part(p) == KText(p)
  {
    if p != [] {
      assert !IsDigit(p[0]);
    }
  }

  lemma KeyOfThree(s: string, a: string, b: string, c: string)
    requires Chunks(s) == [a, b, c]
    ensures NaturalSortKey(s) == [Part(a), Part(b), Part(c)]
  {
  }

  lemma NumberedChunks(p: string, d: string)
    requires NoDigits(p) && d != [] && AllDigits(d)
    ensures Chunks(p + d) == [p, d, ""]
  {
    var s := p + d;
    TextEndAll(s, 0, |p|);
    DigitEndAll(s, |p|);
    assert s[..|p|] == p && s[|p|..|s|] == d && s[|s|..] == [];
  }

  /** Names that differ only in their trailing number sort by the number's value, so
      "page2" comes before "page10" although it is the larger string. */
  lemma NumberedOrder(p: string, m: nat, n: nat)
    requires NoDigits(p) && m < n
    ensures KeyLess(NaturalSortKey(p + NatToString(m)), NaturalSortKey(p + NatToString(n)))
  {
    NumberedKey(p, m);
    NumberedKey(p, n);
    var x := [KText(p), KNum(m), KText("")];
    var y := [KText(p), KNum(n), KText("")];
    assert x[1..] == [KNum(m), KText("")] && y[1..] == [KNum(n), KText("")];
  }
}
