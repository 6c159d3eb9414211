/** Quoted strings of a dump: they are read back and say where they end. */
module TileQuote {
  import opened Sequences
  import opened Wrappers

  // ---- quoting ----

  predicate IsControl(c: char) {
    c < ' ' || '\U{7f}' <= c <= '\U{9f}'
  }

  const DIGITS := "0123456789abcdef"

  function Hex4(n: nat): (h: string)
    requires n < 0x1_0000
    ensures |h| == 4
  {
    var (a, b, c) := (n / 16, n / 16 / 16, n / 16 / 16 / 16);
    [DIGITS[c], DIGITS[b % 16], DIGITS[a % 16], DIGITS[n % 16]]
  }

  function Escape(c: char): (e: string)
    ensures e != "" && e[0] != '"'
  {
    if c == '"' then "\\\""
    else if c == '\\' then "\\\\"
    else if c == '\n' then "\\n"
    else if c == '\r' then "\\r"
    else if c == '\t' then "\\t"
    else if IsControl(c) then "\\u" + Hex4(c as nat)
    else [c]
  }

  function EscapeAll(v: string): string {
    if v == "" then "" else EscapeAll(v[..|v| - 1]) + Escape(v[|v| - 1])
  }

  function Quote(v: string): string {
    "\"" + EscapeAll(v) + "\""
  }

  method WriteQuoted(value: string) returns (escaped: string)
    ensures escaped == Quote(value) && exists pieces :: QuotedAs(value, pieces, escaped)
  {
    ghost var pieces := QuoteWritten(value);
    var written := "";
    for i := 0 to |value|
      invariant written == EscapeAll(value[..i])
    {
      assert value[..i + 1][..i] == value[..i];
      written := written + Escape(value[i]);
    }
    assert value[..|value|] == value;
    escaped := "\"" + written + "\"";
  }

  // ---- how each character is written ----

  ghost predicate HexSpells(h: string, n: nat) {
    |h| == 4 && (forall i :: 0 <= i < 4 ==> h[i] in "0123456789abcdef")
    && n == 4096 * HexDigit(h[0]) + 256 * HexDigit(h[1]) + 16 * HexDigit(h[2]) + HexDigit(h[3])
  }

  ghost function HexDigit(c: char): nat {
    if '0' <= c <= '9' then c as nat - '0' as nat else if 'a' <= c <= 'f' then c as nat - 'a' as nat + 10 else 0
  }

  /** A quote and a backslash behind a backslash, three characters by their letters, other controls by four hexadecimal
      digits, anything else as it is. */
  ghost predicate WrittenAs(c: char, e: string) {
    if c in "\"\\" then e == ['\\', c]
    else if c == '\U{a}' then e == "\\n"
    else if c == '\U{d}' then e == "\\r"
    else if c == '\U{9}' then e == "\\t"
    else if c < '\U{20}' || '\U{7f}' <= c <= '\U{9f}' then
      |e| == 6 && e[0] == '\\' && e[1] == 'u' && HexSpells(e[2..], c as nat)
    else e == [c]
  }

  lemma {:induction false} EscapeExactly(c: char)
    ensures WrittenAs(c, Escape(c))
  {
    if IsControl(c) && c !in {'\n', '\r', '\t'} {
      HexWritten(c as nat);
      assert Escape(c)[2..] == Hex4(c as nat);
    }
  }

  lemma {:induction false} HexWritten(n: nat)
    requires n < 0x1_0000
    ensures HexSpells(Hex4(n), n)
  {
    var (a, b, c) := (n / 16, n / 16 / 16, n / 16 / 16 / 16);
    OneDigit(c);
    OneDigit(b % 16);
    OneDigit(a % 16);
    OneDigit(n % 16);
    assert 16 * c + b % 16 == b && 16 * b + a % 16 == a && 16 * a + n % 16 == n;
  }

  lemma {:induction false} OneDigit(n: nat)
    requires n < 16
    ensures HexDigit(DIGITS[n]) == n && DIGITS[n] in "0123456789abcdef"
  {
    assert n == 0 || n == 1 || n == 2 || n == 3 || n == 4 || n == 5 || n == 6 || n == 7
           || n == 8 || n == 9 || n == 10 || n == 11 || n == 12 || n == 13 || n == 14 || n == 15;
  }

  ghost predicate WrittenEach(v: string, pieces: seq<string>) {
    |pieces| == |v| && forall i :: 0 <= i < |v| ==> WrittenAs(v[i], pieces[i])
  }

  /** Quotes around the characters, each as it is written. */
  ghost predicate QuotedAs(v: string, pieces: seq<string>, q: string) {
    WrittenEach(v, pieces) && q == "\"" + Concat(pieces) + "\""
  }

  ghost function Concat(pieces: seq<string>): string {
    if pieces == [] then "" else Concat(pieces[..|pieces| - 1]) + pieces[|pieces| - 1]
  }

  lemma {:induction false} QuoteWritten(v: string) returns (pieces: seq<string>)
    ensures QuotedAs(v, pieces, Quote(v))
  {
    pieces := EscapesOf(v);
  }

  lemma {:induction false} EscapesOf(v: string) returns (pieces: seq<string>)
    ensures WrittenEach(v, pieces) && Concat(pieces) == EscapeAll(v)
    decreases |v|
  {
    if v == "" {
      pieces := [];
    } else {
      var n := |v| - 1;
      var before := EscapesOf(v[..n]);
      pieces := before + [Escape(v[n])];
      OneMoreWritten(v, before);
      assert pieces[..n] == before;
    }
  }

  lemma {:induction false} OneMoreWritten(v: string, before: seq<string>)
    requires v != "" && WrittenEach(v[..|v| - 1], before)
    ensures WrittenEach(v, before + [Escape(v[|v| - 1])])
  {
    var n := |v| - 1;
    EscapeExactly(v[n]);
    forall i | 0 <= i < |v| ensures WrittenAs(v[i], (before + [Escape(v[n])])[i]) {
      assert i < n ==> v[..n][i] == v[i];
    }
  }

  // ---- reading a quoted value back ----

  function Digit(c: char): nat {
    if '0' <= c <= '9' then c as nat - '0' as nat
    else if 'a' <= c <= 'f' then c as nat - 'a' as nat + 10
    else 0
  }

  function Unhex(s: string): nat
    requires |s| == 4
  {
    16 * (16 * (16 * Digit(s[0]) + Digit(s[1])) + Digit(s[2])) + Digit(s[3])
  }

  /** The character at the head of an escaped text, and the characters it is written in. */
  function Unescape(s: string): (r: (char, nat))
    requires s != ""
    ensures 1 <= r.1 <= |s|
  {
    if s[0] != '\\' || |s| == 1 then (s[0], 1)
    else if s[1] == 'n' then ('\n', 2)
    else if s[1] == 'r' then ('\r', 2)
    else if s[1] == 't' then ('\t', 2)
    else if s[1] == 'u' && |s| >= 6 && Unhex(s[2..6]) < 0xd800 then (Unhex(s[2..6]) as char, 6)
    else (s[1], 2)
  }

  /** The value a text begins with, up to its closing quote, and what follows. */
  function Unquote(s: string): Result<(string, string)>
    decreases |s|
  {
    if s == "" then Err
    else if s[0] == '"' then Ok(("", s[1..]))
    else
      var (c, n) := Unescape(s);
      var (value, rest) :- Unquote(s[n..]);
      Ok(([c] + value, rest))
  }

  lemma {:induction false} HexDigits(n: nat)
    requires n < 16
    ensures Digit(DIGITS[n]) == n
  {
    assert n == 0 || n == 1 || n == 2 || n == 3 || n == 4 || n == 5 || n == 6 || n == 7
           || n == 8 || n == 9 || n == 10 || n == 11 || n == 12 || n == 13 || n == 14 || n == 15;
  }

  lemma {:induction false} HexRoundTrip(n: nat)
    requires n < 0x1_0000
    ensures Unhex(Hex4(n)) == n
  {
    var (a, b, c) := (n / 16, n / 16 / 16, n / 16 / 16 / 16);
    HexDigits(c);
    HexDigits(b % 16);
    HexDigits(a % 16);
    HexDigits(n % 16);
    assert 16 * c + b % 16 == b && 16 * b + a % 16 == a && 16 * a + n % 16 == n;
  }

  lemma {:induction false} EscapeRoundTrip(c: char, rest: string)
    ensures Unescape(Escape(c) + rest) == (c, |Escape(c)|)
  {
    var s := Escape(c) + rest;
    if IsControl(c) && c !in {'\n', '\r', '\t'} {
      HexRoundTrip(c as nat);
      assert s[2..6] == Hex4(c as nat);
      assert s[0] == '\\' && s[1] == 'u';
    } else if c in {'"', '\\', '\n', '\r', '\t'} {
      assert s[0] == '\\' && s[1] == Escape(c)[1];
    } else {
      assert s[0] == c;
    }
  }

  predicate Unquotes(s: string, value: string, rest: string) {
    Unquote(s) == Ok((value, rest))
  }

  lemma {:induction false} UnquoteOne(c: char, s: string, value: string, rest: string)
    requires Unquotes(s, value, rest)
    ensures Unquotes(Escape(c) + s, [c] + value, rest)
  {
    var e := Escape(c);
    EscapeRoundTrip(c, s);
    assert (e + s)[|e|..] == s && (e + s)[0] == e[0];
  }

  lemma {:induction false} UnquoteEscaped(v: string, s: string, value: string, rest: string)
    requires Unquotes(s, value, rest)
    ensures Unquotes(EscapeAll(v) + s, v + value, rest)
    decreases |v|
  {
    if v == "" {
      Nothing(s);
      Nothing(value);
    } else {
      var n := |v| - 1;
      var before, c := v[..n], v[n];
      UnquoteOne(c, s, value, rest);
      UnquoteEscaped(before, Escape(c) + s, [c] + value, rest);
      Assoc(EscapeAll(before), Escape(c), s);
      Assoc(before, [c], value);
      LastJoined(v);
    }
  }

  lemma {:induction false} Nothing(s: string)
    ensures EscapeAll("") + s == s && "" + s == s
  {
  }

  lemma {:induction false} Closing(rest: string)
    ensures Unquotes("\"" + rest, "", rest)
  {
    assert ("\"" + rest)[1..] == rest;
  }

  /** A quoted value is read back from the head of any text, whatever follows it. */
  lemma {:induction false} QuoteRoundTrip(v: string, rest: string)
    ensures Quote(v) + rest == "\"" + (EscapeAll(v) + ("\"" + rest))
    ensures Unquote(EscapeAll(v) + ("\"" + rest)) == Ok((v, rest))
  {
    Closing(rest);
    UnquoteEscaped(v, "\"" + rest, "", rest);
    NothingMore(v);
    Assoc("\"" + EscapeAll(v), "\"", rest);
    Assoc("\"", EscapeAll(v), "\"" + rest);
  }

  /** Quoting is injective and says where it ends. */
  lemma {:induction false} QuoteDelimits(a: string, b: string, r: string, q: string)
    requires Quote(a) + r == Quote(b) + q
    ensures a == b && r == q
  {
    QuoteRoundTrip(a, r);
    QuoteRoundTrip(b, q);
    assert (Quote(a) + r)[1..] == EscapeAll(a) + ("\"" + r);
    assert (Quote(b) + q)[1..] == EscapeAll(b) + ("\"" + q);
  }

  // ---- what stands inside the quotes ----

  /** Inside a quoted value every quote follows a backslash, and no tab or line break stands. */
  lemma {:induction false} EscapedInside(v: string, i: nat)
    requires i < |EscapeAll(v)|
    ensures EscapeAll(v)[i] == '"' ==> i > 0 && EscapeAll(v)[i - 1] == '\\'
    ensures EscapeAll(v)[i] != '\t' && EscapeAll(v)[i] != '\n'
    decreases |v|
  {
    var n := |v| - 1;
    var before, last := EscapeAll(v[..n]), Escape(v[n]);
    assert EscapeAll(v) == before + last;
    if i < |before| {
      EscapedInside(v[..n], i);
    } else {
      EscapeInside(v[n], i - |before|);
    }
  }

  predicate Harmless(c: char) {
    c != '"' && c != '\t' && c != '\n'
  }

  lemma {:induction false} DigitHarmless(n: nat)
    requires n < 16
    ensures Harmless(DIGITS[n])
  {
    assert n == 0 || n == 1 || n == 2 || n == 3 || n == 4 || n == 5 || n == 6 || n == 7
           || n == 8 || n == 9 || n == 10 || n == 11 || n == 12 || n == 13 || n == 14 || n == 15;
  }

  lemma {:induction false} HexHarmless(n: nat)
    requires n < 0x1_0000
    ensures forall i :: 0 <= i < 4 ==> Harmless(Hex4(n)[i])
  {
    var (a, b, c) := (n / 16, n / 16 / 16, n / 16 / 16 / 16);
    DigitHarmless(c);
    DigitHarmless(b % 16);
    DigitHarmless(a % 16);
    DigitHarmless(n % 16);
  }

  lemma {:induction false} EscapeInside(c: char, i: nat)
    requires i < |Escape(c)|
    ensures Escape(c)[i] == '"' ==> i > 0 && Escape(c)[i - 1] == '\\'
    ensures Escape(c)[i] != '\t' && Escape(c)[i] != '\n'
  {
    if IsControl(c) && c !in {'\n', '\r', '\t'} {
      HexHarmless(c as nat);
      assert Escape(c) == "\\u" + Hex4(c as nat);
      if i >= 2 {
        assert Escape(c)[i] == Hex4(c as nat)[i - 2];
      }
    }
  }

  lemma {:induction false} QuotedInside(v: string, i: nat)
    requires 0 < i < |Quote(v)| - 1
    ensures Quote(v)[i] == EscapeAll(v)[i - 1]
    ensures Quote(v)[i] == '"' ==> Quote(v)[i - 1] == '\\'
    ensures Quote(v)[i] != '\t' && Quote(v)[i] != '\n'
  {
    EscapedInside(v, i - 1);
    if i > 1 {
      assert Quote(v)[i - 1] == EscapeAll(v)[i - 2];
    }
  }

  lemma {:induction false} QuoteEnds(v: string)
    ensures |Quote(v)| >= 2 && Quote(v)[0] == '"' && Quote(v)[|Quote(v)| - 1] == '"'
    ensures Quote(v)[1] != '\t' && Quote(v)[1] != '\n'
  {
    if |Quote(v)| > 2 {
      QuotedInside(v, 1);
    }
  }

  lemma {:induction false} QuoteOnOneLine(v: string)
    ensures '\n' !in Quote(v)
  {
    QuoteEnds(v);
    forall i | 0 <= i < |Quote(v)| ensures Quote(v)[i] != '\n' {
      if 0 < i < |Quote(v)| - 1 {
        QuotedInside(v, i);
      }
    }
  }
}
