/**
 * The values `json.load` produces and the two ways the loaders print them:
 * `json.dumps(v, ensure_ascii=False)` for list elements and Python's `str()` (an
 * f-string field) for dictionary values.
 */
module Json {
  import opened Common
  import opened Text

  /** A parsed JSON value. Objects keep their keys in document order. */
  datatype Json =
    | JNull
    | JBool(b: bool)
    | JInt(i: int)
    | JStr(s: string)
    | JArr(elems: seq<Json>)
    | JObj(fields: seq<(string, Json)>)

  /** `str(i)` for an integer. */
  function IntToString(i: int): string {
    if i < 0 then "-" + NatToString(-i) else NatToString(i)
  }

  /** A lower-case hexadecimal digit. */
  function HexDigit(n: nat): char
    requires n < 16
  {
    if n < 10 then ('0' as int + n) as char else ('a' as int + n - 10) as char
  }

  /** The value of a hexadecimal digit, either case. */
  function HexValue(c: char): Option<nat> {
    if '0' <= c <= '9' then Some(c as int - '0' as int)
    else if 'a' <= c <= 'f' then Some(c as int - 'a' as int + 10)
    else if 'A' <= c <= 'F' then Some(c as int - 'A' as int + 10)
    else None
  }

  lemma HexDigitValue(n: nat)
    requires n < 16
    ensures HexValue(HexDigit(n)) == Some(n)
  {
  }

  /** The value of a run of hexadecimal digits. */
  function HexNumber(t: string): Option<nat> {
    if t == [] then Some(0)
    else match (HexNumber(t[..|t| - 1]), HexValue(t[|t| - 1]))
      case (Some(h), Some(d)) => Some(16 * h + d)
      case _ => None
  }

  /** `n` as exactly `width` lower-case hexadecimal digits, for `n < 16^width`. */
  function Hex(n: nat, width: nat): (r: string)
    ensures |r| == width
  {
    if width == 0 then [] else Hex(n / 16, width - 1) + [HexDigit(n % 16)]
  }

  function Power16(width: nat): nat {
    if width == 0 then 1 else 16 * Power16(width - 1)
  }

  /** Reading back a printed hexadecimal number gives the number. */
  lemma {:induction false} HexNumberOfHex(n: nat, width: nat)
    requires n < Power16(width)
    ensures HexNumber(Hex(n, width)) == Some(n)
  {
    if width > 0 {
      var h := Hex(n, width);
      assert h[..|h| - 1] == Hex(n / 16, width - 1);
      HexNumberOfHex(n / 16, width - 1);
      HexDigitValue(n % 16);
    }
  }

  /** A character code that Dafny accepts as a `char`. */
  predicate IsScalar(n: nat) {
    n < 0xD800 || 0xE000 <= n < 0x11_0000
  }

  // ---------------------------------------------------------------------------
  // json.dumps

  /** How `json.dumps(..., ensure_ascii=False)` writes one character of a string:
      quote and backslash are escaped, the controls below space get their short
      escape or `\u00XX`, and everything else (non-ASCII included) is kept. */
  function EscapeChar(c: char): (r: string)
    ensures r != []
  {
    if c == '"' then "\\\""
    else if c == '\\' then "\\\\"
    else if c == '\n' then "\\n"
    else if c == '\r' then "\\r"
    else if c == '\t' then "\\t"
    else if c == '\U{8}' then "\\b"
    else if c == '\U{C}' then "\\f"
    else if c < ' ' then "\\u" + Hex(c as int, 4)
    else [c]
  }

  function Escape(s: string): string {
    if s == [] then [] else EscapeChar(s[0]) + Escape(s[1..])
  }

  /** A JSON string literal. */
  function Quote(s: string): string {
    "\"" + Escape(s) + "\""
  }

  /** `json.dumps(v, ensure_ascii=False)` with the default separators `", "` and
      `": "`. */
  function Dumps(j: Json): string
    decreases j
  {
    match j
    case JNull => "null"
    case JBool(b) => if b then "true" else "false"
    case JInt(i) => IntToString(i)
    case JStr(s) => Quote(s)
    case JArr(es) =>
      "[" + Join(", ", seq(|es|, k requires 0 <= k < |es| => Dumps(es[k]))) + "]"
    case JObj(fs) =>
      "{" + Join(", ", seq(|fs|, k requires 0 <= k < |fs| => Quote(fs[k].0) + ": " + Dumps(fs[k].1))) + "}"
  }

  // ---------------------------------------------------------------------------
  // Reading a JSON string literal back

  /** Prepends a character to a decoded text, keeping a failure. */
  function Cons(c: char, rest: Option<string>): Option<string> {
    match rest
    case Some(t) => Some([c] + t)
    case None => None
  }

  /** The text a JSON string body (between the quotes) stands for, or `None` when it
      is not a valid body. Surrogate escapes are not decoded. */
  function Unescape(t: string): Option<string>
    decreases |t|
  {
    if t == [] then Some([])
    else if t[0] == '"' || t[0] < ' ' then None
    else if t[0] != '\\' then Cons(t[0], Unescape(t[1..]))
    else if |t| < 2 then None
    else
      var e := t[1];
      if e == '"' || e == '\\' || e == '/' then Cons(e, Unescape(t[2..]))
      else if e == 'n' then Cons('\n', Unescape(t[2..]))
      else if e == 'r' then Cons('\r', Unescape(t[2..]))
      else if e == 't' then Cons('\t', Unescape(t[2..]))
      else if e == 'b' then Cons('\U{8}', Unescape(t[2..]))
      else if e == 'f' then Cons('\U{C}', Unescape(t[2..]))
      else if e == 'u' && |t| >= 6 then
        match HexNumber(t[2..6])
        case Some(n) => if IsScalar(n) then Cons(n as char, Unescape(t[6..])) else None
        case None => None
      else None
  }

  lemma {:induction false} UnescapeStep(c: char, rest: string)
    ensures Unescape(EscapeChar(c) + rest) == Cons(c, Unescape(rest))
  {
    var t := EscapeChar(c) + rest;
    if c == '"' || c == '\\' || c == '\n' || c == '\r' || c == '\t' || c == '\U{8}' || c == '\U{C}' {
      assert t[2..] == rest;
    } else if c < ' ' {
      var h := Hex(c as int, 4);
      assert t[..2] == "\\u";
      assert t[2..6] == h && t[6..] == rest;
      HexNumberOfHex(c as int, 4);
    } else {
      assert t[1..] == rest;
    }
  }

  /** Decoding an escaped text gives the text back. */
  lemma {:induction false} UnescapeEscape(s: string)
    ensures Unescape(Escape(s)) == Some(s)
  {
    if s != [] {
      UnescapeEscape(s[1..]);
      UnescapeStep(s[0], Escape(s[1..]));
      assert [s[0]] + s[1..] == s;
    }
  }

  // ---------------------------------------------------------------------------
  // Printed JSON is free of control characters

  /** No character of `s` is a control character below space. */
  predicate NoControl(s: string) {
    forall k :: 0 <= k < |s| ==> s[k] >= ' '
  }

  lemma NoControlAppend(a: string, b: string)
    requires NoControl(a) && NoControl(b)
    ensures NoControl(a + b)
  {
    forall k | 0 <= k < |a + b| ensures (a + b)[k] >= ' ' {
      if k >= |a| {
        assert (a + b)[k] == b[k - |a|];
      }
    }
  }

  lemma {:induction false} JoinNoControl(sep: string, parts: seq<string>)
    requires NoControl(sep)
    requires forall k :: 0 <= k < |parts| ==> NoControl(parts[k])
    ensures NoControl(Join(sep, parts))
  {
    if |parts| > 1 {
      JoinNoControl(sep, parts[1..]);
      NoControlAppend(parts[0], sep);
      NoControlAppend(parts[0] + sep, Join(sep, parts[1..]));
    }
  }

  lemma NatToStringNoControl(n: nat)
    ensures NoControl(NatToString(n))
  {
    var s := NatToString(n);
    forall k | 0 <= k < |s| ensures s[k] >= ' ' {
      assert IsDigit(s[k]);
    }
  }

  lemma IntToStringNoControl(i: int)
    ensures NoControl(IntToString(i))
  {
    NatToStringNoControl(if i < 0 then -i else i);
    if i < 0 {
      NoControlAppend("-", NatToString(-i));
    }
  }

  lemma HexNoControl(n: nat, width: nat)
    ensures NoControl(Hex(n, width))
  {
    var h := Hex(n, width);
    forall k | 0 <= k < |h| ensures h[k] >= ' ' {
      HexIsDigits(n, width, k);
    }
  }

  lemma {:induction false} HexIsDigits(n: nat, width: nat, k: nat)
    requires k < width
    ensures var h := Hex(n, width); '0' <= h[k] <= '9' || 'a' <= h[k] <= 'f'
  {
    if k < width - 1 {
      HexIsDigits(n / 16, width - 1, k);
    }
  }

  lemma {:induction false} EscapeNoControl(s: string)
    ensures NoControl(Escape(s))
  {
    if s != [] {
      EscapeNoControl(s[1..]);
      if s[0] < ' ' && s[0] != '\n' && s[0] != '\r' && s[0] != '\t' && s[0] != '\U{8}' && s[0] != '\U{C}' {
        HexNoControl(s[0] as int, 4);
        NoControlAppend("\\u", Hex(s[0] as int, 4));
      }
      NoControlAppend(EscapeChar(s[0]), Escape(s[1..]));
    }
  }

  lemma QuoteNoControl(s: string)
    ensures NoControl(Quote(s))
  {
    EscapeNoControl(s);
    NoControlAppend("\"", Escape(s));
    NoControlAppend("\"" + Escape(s), "\"");
  }

  /** `json.dumps` output is one line: every control character of a string, the
      newline included, is written as an escape. */
  lemma {:induction false} DumpsNoControl(j: Json)
    ensures NoControl(Dumps(j))
    decreases j
  {
    match j
    case JNull =>
    case JBool(b) =>
    case JInt(i) => IntToStringNoControl(i);
    case JStr(s) => QuoteNoControl(s);
    case JArr(es) =>
      var parts := seq(|es|, k requires 0 <= k < |es| => Dumps(es[k]));
      forall k | 0 <= k < |es| ensures NoControl(parts[k]) {
        DumpsNoControl(es[k]);
      }
      JoinNoControl(", ", parts);
      Bracket("[", Join(", ", parts), "]");
    case JObj(fs) =>
      var parts := seq(|fs|, k requires 0 <= k < |fs| => Quote(fs[k].0) + ": " + Dumps(fs[k].1));
      forall k | 0 <= k < |fs| ensures NoControl(parts[k]) {
        DumpsNoControl(fs[k].1);
        QuoteNoControl(fs[k].0);
        NoControlAppend(Quote(fs[k].0), ": ");
        NoControlAppend(Quote(fs[k].0) + ": ", Dumps(fs[k].1));
      }
      JoinNoControl(", ", parts);
      Bracket("{", Join(", ", parts), "}");
  }

  lemma Bracket(open: string, s: string, close: string)
    requires NoControl(open) && NoControl(s) && NoControl(close)
    ensures NoControl(open + s + close)
  {
    NoControlAppend(open, s);
    NoControlAppend(open + s, close);
  }

  /** A string value is printed as a literal that reads back as the same text. */
  lemma DumpsString(s: string)
    ensures var d := Dumps(JStr(s));
      |d| >= 2 && d[0] == '"' && d[|d| - 1] == '"' && Unescape(d[1..|d| - 1]) == Some(s)
  {
    var d := Dumps(JStr(s));
    assert d[1..|d| - 1] == Escape(s);
    UnescapeEscape(s);
  }

  // ---------------------------------------------------------------------------
  // Python's str() and repr()

  /** The non-ASCII characters that `repr` writes as escapes: the C1 controls, the
      no-break space, the soft hyphen and the Unicode space and line separators. */
  predicate Unprintable(c: char) {
    ('\U{80}' <= c <= '\U{A0}') || c == '\U{AD}' || ('\U{7F}' < c && IsSpace(c))
  }

  /** The quote `repr` puts around a string: a double quote when the text holds a
      single quote and no double quote, a single quote otherwise. */
  function QuoteFor(s: string): char {
    if '\'' in s && '"' !in s then '"' else '\''
  }

  /** How `repr` writes one character inside quotes `q`. */
  function ReprChar(c: char, q: char): (r: string)
    ensures r != []
  {
    if c == q || c == '\\' then ['\\', c]
    else if c == '\t' then "\\t"
    else if c == '\n' then "\\n"
    else if c == '\r' then "\\r"
    else if c < ' ' || c == '\U{7F}' then "\\x" + Hex(c as int, 2)
    else if Unprintable(c) then
      (if c <= '\U{FF}' then "\\x" + Hex(c as int, 2) else "\\u" + Hex(c as int, 4))
    else [c]
  }

  function ReprChars(s: string, q: char): string {
    if s == [] then [] else ReprChar(s[0], q) + ReprChars(s[1..], q)
  }

  /** `repr(s)` for a string. */
  function ReprString(s: string): string {
    var q := QuoteFor(s);
    [q] + ReprChars(s, q) + [q]
  }

  /** `repr(v)`: Python's spelling of a parsed JSON value. */
  function Repr(j: Json): string
    decreases j
  {
    match j
    case JNull => "None"
    case JBool(b) => if b then "True" else "False"
    case JInt(i) => IntToString(i)
    case JStr(s) => ReprString(s)
    case JArr(es) =>
      "[" + Join(", ", seq(|es|, k requires 0 <= k < |es| => Repr(es[k]))) + "]"
    case JObj(fs) =>
      "{" + Join(", ", seq(|fs|, k requires 0 <= k < |fs| => ReprString(fs[k].0) + ": " + Repr(fs[k].1))) + "}"
  }

  /** `str(v)`, which is what an f-string field prints: a string is itself, anything
      else is its `repr`. */
  function Str(j: Json): string {
    if j.JStr? then j.s else Repr(j)
  }

  /** The text a Python string literal body between quotes `q` stands for, or `None`
      when it holds a bare `q` or an escape `repr` does not write. */
  function PyUnescape(t: string, q: char): Option<string>
    decreases |t|
  {
    if t == [] then Some([])
    else if t[0] == q then None
    else if t[0] != '\\' then Cons(t[0], PyUnescape(t[1..], q))
    else if |t| < 2 then None
    else
      var e := t[1];
      if e == '\\' || e == '\'' || e == '"' then Cons(e, PyUnescape(t[2..], q))
      else if e == 't' then Cons('\t', PyUnescape(t[2..], q))
      else if e == 'n' then Cons('\n', PyUnescape(t[2..], q))
      else if e == 'r' then Cons('\r', PyUnescape(t[2..], q))
      else if e == 'x' && |t| >= 4 then
        match HexNumber(t[2..4])
        case Some(n) => if IsScalar(n) then Cons(n as char, PyUnescape(t[4..], q)) else None
        case None => None
      else if e == 'u' && |t| >= 6 then
        match HexNumber(t[2..6])
        case Some(n) => if IsScalar(n) then Cons(n as char, PyUnescape(t[6..], q)) else None
        case None => None
      else None
  }

  lemma PyUnescapeHex(e: char, n: nat, width: nat, q: char, rest: string)
    requires (e == 'x' && width == 2) || (e == 'u' && width == 4)
    requires n < Power16(width) && IsScalar(n) && q != '\\'
    ensures PyUnescape(['\\', e] + Hex(n, width) + rest, q) == Cons(n as char, PyUnescape(rest, q))
  {
    var t := ['\\', e] + Hex(n, width) + rest;
    assert t[2..2 + width] == Hex(n, width) && t[2 + width..] == rest;
    HexNumberOfHex(n, width);
  }

  lemma {:induction false} PyUnescapeStep(c: char, q: char, rest: string)
    requires q == '\'' || q == '"'
    ensures PyUnescape(ReprChar(c, q) + rest, q) == Cons(c, PyUnescape(rest, q))
  {
    var t := ReprChar(c, q) + rest;
    if c == q || c == '\\' || c == '\t' || c == '\n' || c == '\r' {
      assert t[2..] == rest;
    } else if c < ' ' || c == '\U{7F}' || (Unprintable(c) && c <= '\U{FF}') {
      assert ReprChar(c, q) == ['\\', 'x'] + Hex(c as int, 2);
      PyUnescapeHex('x', c as int, 2, q, rest);
    } else if Unprintable(c) {
      assert ReprChar(c, q) == ['\\', 'u'] + Hex(c as int, 4);
      PyUnescapeHex('u', c as int, 4, q, rest);
    } else {
      assert t[1..] == rest;
    }
  }

  lemma {:induction false} PyUnescapeReprChars(s: string, q: char)
    requires q == '\'' || q == '"'
    ensures PyUnescape(ReprChars(s, q), q) == Some(s)
  {
    if s != [] {
      assert ReprChars(s, q) == ReprChar(s[0], q) + ReprChars(s[1..], q);
      PyUnescapeReprChars(s[1..], q);
      PyUnescapeStep(s[0], q, ReprChars(s[1..], q));
      assert Cons(s[0], Some(s[1..])) == Some([s[0]] + s[1..]);
      assert [s[0]] + s[1..] == s;
    }
  }

  /** `repr` of a string is a literal that reads back as the same text. */
  lemma ReprStringReads(s: string)
    ensures var r := ReprString(s);
      |r| >= 2 && r[0] == r[|r| - 1] == QuoteFor(s) && PyUnescape(r[1..|r| - 1], QuoteFor(s)) == Some(s)
  {
    var r := ReprString(s);
    assert r[1..|r| - 1] == ReprChars(s, QuoteFor(s));
    PyUnescapeReprChars(s, QuoteFor(s));
  }

  lemma {:induction false} ReprCharsNoControl(s: string, q: char)
    requires q >= ' '
    ensures NoControl(ReprChars(s, q))
  {
    if s != [] {
      ReprCharsNoControl(s[1..], q);
      var c := s[0];
      if !(c == q || c == '\\' || c == '\t' || c == '\n' || c == '\r') {
        HexNoControl(c as int, 2);
        HexNoControl(c as int, 4);
        NoControlAppend("\\x", Hex(c as int, 2));
        NoControlAppend("\\u", Hex(c as int, 4));
      }
      NoControlAppend(ReprChar(c, q), ReprChars(s[1..], q));
    }
  }

  lemma ReprStringNoControl(s: string)
    ensures NoControl(ReprString(s))
  {
    var q := QuoteFor(s);
    ReprCharsNoControl(s, q);
    Bracket([q], ReprChars(s, q), [q]);
  }

  /** `repr` output is one line: control characters are written as escapes. */
  lemma {:induction false} ReprNoControl(j: Json)
    ensures NoControl(Repr(j))
    decreases j
  {
    match j
    case JNull =>
    case JBool(b) =>
    case JInt(i) => IntToStringNoControl(i);
    case JStr(s) => ReprStringNoControl(s);
    case JArr(es) =>
      var parts := seq(|es|, k requires 0 <= k < |es| => Repr(es[k]));
      forall k | 0 <= k < |es| ensures NoControl(parts[k]) {
        ReprNoControl(es[k]);
      }
      JoinNoControl(", ", parts);
      Bracket("[", Join(", ", parts), "]");
    case JObj(fs) =>
      var parts := seq(|fs|, k requires 0 <= k < |fs| => ReprString(fs[k].0) + ": " + Repr(fs[k].1));
      forall k | 0 <= k < |fs| ensures NoControl(parts[k]) {
        ReprNoControl(fs[k].1);
        ReprStringNoControl(fs[k].0);
        NoControlAppend(ReprString(fs[k].0), ": ");
        NoControlAppend(ReprString(fs[k].0) + ": ", Repr(fs[k].1));
      }
      JoinNoControl(", ", parts);
      Bracket("{", Join(", ", parts), "}");
  }
}
