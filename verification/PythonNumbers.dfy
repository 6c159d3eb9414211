/** Python's conversion of a text to an integer, with the digits of every script. */
module PythonNumbers {

  import opened Wrappers

  predicate IsDigit(c: char) {
    '0' <= c <= '9'
  }

  /** Where the ten decimal digits of the other scripts of Unicode 14 begin, in six runs of the code space. */
  const ZEROS: seq<int> := ZEROS_1 + ZEROS_2 + ZEROS_3 + ZEROS_4 + ZEROS_5 + ZEROS_6
  const ZEROS_1: seq<int> := [0x660, 0x6f0, 0x7c0, 0x966, 0x9e6, 0xa66, 0xae6, 0xb66, 0xbe6, 0xc66, 0xce6, 0xd66]
  const ZEROS_2: seq<int> := [0xde6, 0xe50, 0xed0, 0xf20, 0x1040, 0x1090]
  const ZEROS_3: seq<int> := [0x17e0, 0x1810, 0x1946, 0x19d0, 0x1a80, 0x1a90, 0x1b50, 0x1bb0, 0x1c40, 0x1c50]
  const ZEROS_4: seq<int> := [0xa620, 0xa8d0, 0xa900, 0xa9d0, 0xa9f0, 0xaa50, 0xabf0, 0xff10]
  const ZEROS_5: seq<int> := [
    0x104a0, 0x10d30, 0x11066, 0x110f0, 0x11136, 0x111d0, 0x112f0, 0x11450, 0x114d0,
    0x11650, 0x116c0, 0x11730, 0x118e0, 0x11950, 0x11c50
  ]
  const ZEROS_6: seq<int> := [
    0x11d50, 0x11da0, 0x16a60, 0x16ac0, 0x16b50, 0x1d7ce, 0x1d7d8, 0x1d7e2, 0x1d7ec, 0x1d7f6,
    0x1e140, 0x1e2f0, 0x1e950, 0x1fbf0
  ]

  /** The decimal digit a character is, in any script. */
  function DigitOf(c: char): Option<nat> {
    if IsDigit(c) then Some(c as nat - '0' as nat) else DigitAmong(c as int, ZEROS)
  }

  function DigitAmong(n: int, zeros: seq<int>): Option<nat> {
    if zeros == [] then None
    else if zeros[0] <= n < zeros[0] + 10 then Some(n - zeros[0])
    else DigitAmong(n, zeros[1..])
  }

  /** White space as `int` skips it. */
  predicate Blank(c: char) {
    var n := c as int;
    || 0x9 <= n <= 0xd || n == 0x20 || n == 0x85 || n == 0xa0 || n == 0x1680
    || 0x2000 <= n <= 0x200a || n == 0x2028 || n == 0x2029 || n == 0x202f || n == 0x205f || n == 0x3000
  }

  function StripRight(s: string): string
    decreases |s|
  {
    if s != "" && Blank(s[|s| - 1]) then StripRight(s[..|s| - 1]) else s
  }

  function StripLeft(s: string): string
    decreases |s|
  {
    if s != "" && Blank(s[0]) then StripLeft(s[1..]) else s
  }

  /** `int(s)`: blanks around, a sign, and digits with single underscores between them, as many as Python converts;
      it raises on anything else. */
  function Number(s: string): Option<int> {
    Unsigned(StripLeft(StripRight(s)))
  }

  /** The sign, if there is one, and the digits behind it. */
  function Unsigned(t: string): Option<int> {
    if t != "" && t[0] == '+' then Signed(1, Converted(t[1..]))
    else if t != "" && t[0] == '-' then Signed(-1, Converted(t[1..]))
    else Signed(1, Converted(t))
  }

  const MAX_DIGITS := 4300

  function Converted(s: string): Option<nat> {
    if DigitCount(s) <= MAX_DIGITS then Digits(s) else None
  }

  function DigitCount(s: string): nat {
    if s == "" then 0 else (if s[0] == '_' then 0 else 1) + DigitCount(s[1..])
  }

  function Signed(sign: int, n: Option<nat>): Option<int> {
    match n
    case Some(v) =>
      var value: int := v;
      Some(if sign < 0 then -value else value)
    case None => None
  }

  function Digits(s: string): Option<nat>
    decreases |s|
  {
    if s == "" || DigitOf(s[|s| - 1]).None? then None
    else
      var d := DigitOf(s[|s| - 1]).value;
      if |s| == 1 then Some(d)
      else
        match Digits(if s[|s| - 2] == '_' then s[..|s| - 2] else s[..|s| - 1])
        case None => None
        case Some(n) => Some(10 * n + d)
  }

  // ---- what `int` accepts ----

  /** The character is the digit `d` of some script. */
  ghost predicate Shows(c: char, d: nat) {
    d < 10 && (c as int == 0x30 + d || exists k :: 0 <= k < |ZEROS| && c as int == ZEROS[k] + d)
  }

  /** The characters a number may stand between. */
  ghost predicate AllBlank(s: string) {
    forall k :: 0 <= k < |s| ==> IsBlank(s[k])
  }

  ghost predicate IsBlank(c: char) {
    c as int in {
      9, 10, 11, 12, 13, 32, 133, 160, 5760, 8192, 8193, 8194, 8195, 8196, 8197, 8198, 8199, 8200, 8201, 8202,
      8232, 8233, 8239, 8287, 12288 }
  }

  /** The digits one after another, with one underscore between two of them or none. */
  ghost predicate DigitsSpelt(s: string, ds: seq<nat>)
    decreases |ds|
  {
    && s != "" && ds != [] && Shows(s[|s| - 1], ds[|ds| - 1])
    && if |ds| == 1 then |s| == 1
       else |s| >= 2 && DigitsSpelt(if s[|s| - 2] == '_' then s[..|s| - 2] else s[..|s| - 1], ds[..|ds| - 1])
  }

  ghost function Value(ds: seq<nat>): nat {
    if ds == [] then 0 else 10 * Value(ds[..|ds| - 1]) + ds[|ds| - 1]
  }

  /** Blanks, a sign or none, digits, blanks. */
  datatype Spelling = Spelling(before: string, sign: Sign, body: string, digits: seq<nat>, after: string)

  datatype Sign = Unmarked | Positive | Negative

  ghost function SignText(g: Sign): string {
    match g
    case Unmarked => ""
    case Positive => "+"
    case Negative => "-"
  }

  ghost predicate Spells(p: Spelling, s: string, n: int) {
    && s == p.before + (SignText(p.sign) + p.body) + p.after && AllBlank(p.before) && AllBlank(p.after)
    && DigitsSpelt(p.body, p.digits) && |p.digits| <= 4300
    && n == if p.sign.Negative? then 0 - Value(p.digits) else Value(p.digits)
  }

  ghost predicate NumberSpelt(s: string, n: int) {
    exists p :: Spells(p, s, n)
  }

  /** A text is converted exactly to the number it spells; any other raises. */
  lemma {:induction false} NumberExactly(s: string, n: int)
    ensures Number(s) == Some(n) <==> NumberSpelt(s, n)
  {
    if Number(s) == Some(n) {
      var p := NumberFound(s);
    }
    if p :| Spells(p, s, n) {
      SpeltNumber(p, s, n);
    }
  }

  // ---- digits ----

  /** Ten digits from each of these, none of them twice, from `low` to below `high`. */
  ghost predicate Apart(zeros: seq<int>, low: int, high: int) {
    && (forall k :: 0 <= k < |zeros| ==> low <= zeros[k] && zeros[k] + 10 <= high)
    && forall j, k :: 0 <= j < k < |zeros| ==> zeros[j] + 10 <= zeros[k]
  }

  lemma {:induction false} FirstZeros()
    ensures Apart(ZEROS_1, 0x660, 0xd70) && Apart(ZEROS_2, 0xde6, 0x109a)
  {
  }

  lemma {:induction false} MiddleZeros()
    ensures Apart(ZEROS_3, 0x17e0, 0x1c5a) && Apart(ZEROS_4, 0xa620, 0xff1a)
  {
  }

  lemma {:induction false} LastZeros()
    ensures Apart(ZEROS_5, 0x104a0, 0x11c5a) && Apart(ZEROS_6, 0x11d50, 0x1fbfa)
  {
  }

  lemma {:induction false} Joined(a: seq<int>, b: seq<int>, low: int, middle: int, next: int, high: int)
    requires Apart(a, low, middle) && Apart(b, next, high) && low <= middle <= next <= high
    ensures Apart(a + b, low, high)
  {
  }

  lemma {:induction false} ZerosApart()
    ensures Apart(ZEROS, 0x660, 0x1fbfa)
    ensures forall k :: 0 <= k < |ZEROS| ==>
              ZEROS[k] + 10 <= 0x109a || (0x17e0 <= ZEROS[k] && ZEROS[k] + 10 <= 0x1c5a) || 0xa620 <= ZEROS[k]
  {
    FirstZeros();
    MiddleZeros();
    LastZeros();
    Joined(ZEROS_1, ZEROS_2, 0x660, 0xd70, 0xde6, 0x109a);
    Joined(ZEROS_1 + ZEROS_2, ZEROS_3, 0x660, 0x109a, 0x17e0, 0x1c5a);
    Joined(ZEROS_1 + ZEROS_2 + ZEROS_3, ZEROS_4, 0x660, 0x1c5a, 0xa620, 0xff1a);
    Joined(ZEROS_1 + ZEROS_2 + ZEROS_3 + ZEROS_4, ZEROS_5, 0x660, 0xff1a, 0x104a0, 0x11c5a);
    Joined(ZEROS_1 + ZEROS_2 + ZEROS_3 + ZEROS_4 + ZEROS_5, ZEROS_6, 0x660, 0x11c5a, 0x11d50, 0x1fbfa);
  }

  lemma {:induction false} AmongExactly(n: int, from: nat)
    requires from <= |ZEROS|
    ensures match DigitAmong(n, ZEROS[from..])
            case Some(d) => d < 10 && exists k :: from <= k < |ZEROS| && n == ZEROS[k] + d
            case None => forall k :: from <= k < |ZEROS| ==> !(ZEROS[k] <= n < ZEROS[k] + 10)
    decreases |ZEROS| - from
  {
    if from < |ZEROS| {
      assert ZEROS[from..][0] == ZEROS[from] && ZEROS[from..][1..] == ZEROS[from + 1..];
      AmongExactly(n, from + 1);
    }
  }

  lemma {:induction false} DigitExactly(c: char, d: nat)
    ensures DigitOf(c) == Some(d) <==> Shows(c, d)
  {
    assert ZEROS[0..] == ZEROS;
    AmongExactly(c as int, 0);
    ZerosApart();
  }

  lemma {:induction false} BlankExactly(c: char)
    ensures Blank(c) <==> IsBlank(c)
  {
  }

  /** No digit is a blank, a sign or an underscore. */
  lemma {:induction false} DigitStandsOut(c: char, d: nat)
    requires Shows(c, d)
    ensures !Blank(c) && c !in {'+', '-', '_'}
  {
    ZerosApart();
  }

  lemma {:induction false} DigitsFound(s: string) returns (ds: seq<nat>)
    requires Digits(s).Some?
    ensures DigitsSpelt(s, ds) && Value(ds) == Digits(s).value
    decreases |s|
  {
    var d := DigitOf(s[|s| - 1]).value;
    DigitExactly(s[|s| - 1], d);
    if |s| == 1 {
      ds := [d];
    } else {
      var before := DigitsFound(if s[|s| - 2] == '_' then s[..|s| - 2] else s[..|s| - 1]);
      ds := before + [d];
      assert ds[..|ds| - 1] == before;
    }
  }

  lemma {:induction false} SpeltDigits(s: string, ds: seq<nat>)
    requires DigitsSpelt(s, ds)
    ensures Digits(s) == Some(Value(ds))
    decreases |ds|
  {
    DigitExactly(s[|s| - 1], ds[|ds| - 1]);
    if |ds| > 1 {
      SpeltDigits(if s[|s| - 2] == '_' then s[..|s| - 2] else s[..|s| - 1], ds[..|ds| - 1]);
    } else {
      assert ds[..0] == [];
    }
  }

  lemma {:induction false} CountLast(s: string)
    requires s != ""
    ensures DigitCount(s) == DigitCount(s[..|s| - 1]) + (if s[|s| - 1] == '_' then 0 else 1)
    decreases |s|
  {
    if |s| > 1 {
      CountLast(s[1..]);
      assert s[1..][..|s| - 2] == s[..|s| - 1][1..];
    }
  }

  lemma {:induction false} CountLastTwo(s: string)
    requires |s| >= 2 && s[|s| - 1] != '_' && s[|s| - 2] == '_'
    ensures DigitCount(s) == DigitCount(s[..|s| - 2]) + 1
  {
    CountLast(s);
    CountLast(s[..|s| - 1]);
    assert s[..|s| - 1][..|s| - 2] == s[..|s| - 2];
  }

  lemma {:induction false} CountSpelt(s: string, ds: seq<nat>)
    requires DigitsSpelt(s, ds)
    ensures DigitCount(s) == |ds|
    decreases |ds|
  {
    DigitStandsOut(s[|s| - 1], ds[|ds| - 1]);
    if |ds| == 1 {
      CountLast(s);
    } else if s[|s| - 2] == '_' {
      CountLastTwo(s);
      CountSpelt(s[..|s| - 2], ds[..|ds| - 1]);
    } else {
      CountLast(s);
      CountSpelt(s[..|s| - 1], ds[..|ds| - 1]);
    }
  }

  lemma {:induction false} FirstIsDigit(s: string, ds: seq<nat>)
    requires DigitsSpelt(s, ds)
    ensures !Blank(s[0]) && s[0] !in {'+', '-', '_'}
    decreases |ds|
  {
    if |ds| == 1 {
      DigitStandsOut(s[0], ds[0]);
    } else {
      FirstIsDigit(if s[|s| - 2] == '_' then s[..|s| - 2] else s[..|s| - 1], ds[..|ds| - 1]);
    }
  }

  // ---- blanks and the sign ----

  lemma {:induction false} RightStripped(s: string) returns (after: string)
    ensures s == StripRight(s) + after && AllBlank(after)
    decreases |s|
  {
    after := "";
    if s != "" && Blank(s[|s| - 1]) {
      BlankExactly(s[|s| - 1]);
      var more := RightStripped(s[..|s| - 1]);
      after := more + [s[|s| - 1]];
    }
  }

  lemma {:induction false} LeftStripped(s: string) returns (before: string)
    ensures s == before + StripLeft(s) && AllBlank(before)
    decreases |s|
  {
    before := "";
    if s != "" && Blank(s[0]) {
      BlankExactly(s[0]);
      var more := LeftStripped(s[1..]);
      before := [s[0]] + more;
    }
  }

  lemma {:induction false} StripsRight(x: string, after: string)
    requires x != "" && !Blank(x[|x| - 1]) && AllBlank(after)
    ensures StripRight(x + after) == x
    decreases |after|
  {
    if after == "" {
      assert x + after == x;
    } else {
      BlankExactly(after[|after| - 1]);
      assert (x + after)[..|x + after| - 1] == x + after[..|after| - 1];
      StripsRight(x, after[..|after| - 1]);
    }
  }

  lemma {:induction false} StripsLeft(before: string, x: string)
    requires x != "" && !Blank(x[0]) && AllBlank(before)
    ensures StripLeft(before + x) == x
    decreases |before|
  {
    if before == "" {
      assert before + x == x;
    } else {
      BlankExactly(before[0]);
      assert (before + x)[1..] == before[1..] + x;
      StripsLeft(before[1..], x);
    }
  }

  lemma {:induction false} NumberFound(s: string) returns (p: Spelling)
    requires Number(s).Some?
    ensures Spells(p, s, Number(s).value)
  {
    var after := RightStripped(s);
    var before := LeftStripped(StripRight(s));
    var u := StripLeft(StripRight(s));
    var g, body := SignFound(u);
    var ds := DigitsFound(body);
    CountSpelt(body, ds);
    p := Spelling(before, g, body, ds, after);
  }

  lemma {:induction false} SignFound(u: string) returns (g: Sign, body: string)
    ensures u == SignText(g) + body
    ensures Unsigned(u) == Signed(if g.Negative? then -1 else 1, Converted(body))
  {
    if u != "" && u[0] == '+' {
      g, body := Positive, u[1..];
    } else if u != "" && u[0] == '-' {
      g, body := Negative, u[1..];
    } else {
      g, body := Unmarked, u;
    }
  }

  lemma {:induction false} SpeltNumber(p: Spelling, s: string, n: int)
    requires Spells(p, s, n)
    ensures Number(s) == Some(n)
  {
    BodySpelt(p.body, p.digits);
    SignSplit(p.sign, p.body);
    StrippedAway(p.before, p.sign, p.body, p.after);
  }

  lemma {:induction false} BodySpelt(body: string, ds: seq<nat>)
    requires DigitsSpelt(body, ds) && |ds| <= 4300
    ensures Converted(body) == Some(Value(ds))
    ensures StandsOut(body)
  {
    SpeltDigits(body, ds);
    CountSpelt(body, ds);
    FirstIsDigit(body, ds);
    DigitStandsOut(body[|body| - 1], ds[|ds| - 1]);
  }

  lemma {:induction false} SignSplit(g: Sign, body: string)
    requires StandsOut(body)
    ensures var u := SignText(g) + body;
            && !Blank(u[0]) && !Blank(u[|u| - 1])
            && Unsigned(u) == Signed(if g.Negative? then -1 else 1, Converted(body))
  {
    var u := SignText(g) + body;
    if g.Unmarked? {
      assert u == body;
    } else {
      assert u[1..] == body;
    }
  }

  lemma {:induction false} StrippedAway(before: string, g: Sign, body: string, after: string)
    requires AllBlank(before) && AllBlank(after) && StandsOut(body)
    ensures Number(before + (SignText(g) + body) + after) == Unsigned(SignText(g) + body)
  {
    var u := SignText(g) + body;
    SignSplit(g, body);
    StripsRight(before + u, after);
    StripsLeft(before, u);
  }

  /** No blank at an end and no sign in front. */
  ghost predicate StandsOut(body: string) {
    body != "" && !Blank(body[0]) && body[0] !in {'+', '-'} && !Blank(body[|body| - 1])
  }
}
