/** A string that an anchored regular expression matches. */
module RegexExample {

  // The first half is the walk over the text of the pattern, with the errors Python raises on a class, an
  // escape or a count that is cut off. The second half gives printed expressions their language.

  import opened PythonNumbers
  import opened Sequences
  import opened Wrappers

  /** An example, no example because the pattern has alternation or groups, or a raised error. */
  datatype Outcome = Example(text: string) | NoExample | Raises

  // ---- The walk over the text ----

  /** `s.index(c, from)`. */
  function IndexOf(s: string, c: char, from: nat): (r: Option<nat>)
    ensures r.Some? ==> from <= r.value < |s| && s[r.value] == c
    ensures r.Some? ==> forall k :: from <= k < r.value ==> s[k] != c
    ensures r.None? ==> forall k :: from <= k < |s| ==> s[k] != c
    decreases |s| - from
  {
    if from >= |s| then None
    else if s[from] == c then Some(from)
    else IndexOf(s, c, from + 1)
  }

  /** `s.split(",")[0]`. */
  function BeforeComma(s: string): string {
    match IndexOf(s, ',', 0)
    case None => s
    case Some(k) => s[..k]
  }

  function Repeat(c: char, n: nat): (r: string)
    ensures |r| == n && forall k :: 0 <= k < n ==> r[k] == c
  {
    seq(n, _ => c)
  }

  datatype Atom = Taken(c: char, next: nat) | Declined | Broken

  /** The atom at `index` and where it ends. */
  function AtomAt(body: string, index: nat): (r: Atom)
    requires index < |body|
    ensures r.Taken? ==> index < r.next <= |body|
  {
    var c := body[index];
    if c == '[' then
      match IndexOf(body, ']', index + 2)
      case None => Broken
      case Some(end) => if body[index + 1] == '^' then Declined else Taken(body[index + 1], end + 1)
    else if c == '\\' then
      if index + 1 >= |body| then Broken
      else Taken(match body[index + 1] case 'd' => '9' case 'w' => 'a' case 's' => ' ' case e => e, index + 2)
    else if c in "()|." then Declined
    else Taken(c, index + 1)
  }

  datatype Times = Counted(count: nat, next: nat) | Uncounted

  /** How often the atom before `index` is repeated and where its count ends. */
  function CountAt(body: string, index: nat): (r: Times)
    requires index <= |body|
    ensures r.Counted? ==> index <= r.next <= |body|
  {
    if index == |body| || body[index] !in "*+?{" then Counted(1, index)
    else if body[index] == '{' then
      match IndexOf(body, '}', index)
      case None => Uncounted
      case Some(end) =>
        var first := BeforeComma(body[index + 1..end]);
        match Number(if first == "" then "1" else first)
        case None => Uncounted
        case Some(n) => Counted(if n < 1 then 1 else n, end + 1)
    else Counted(if body[index] == '+' then 1 else 0, index + 1)
  }

  /** The example of the pattern's body from `index` on. */
  function Walk(body: string, index: nat): Outcome
    requires index <= |body|
    decreases |body| - index
  {
    if index == |body| then Example("") else
    match AtomAt(body, index)
    case Broken => Raises
    case Declined => NoExample
    case Taken(c, next) =>
      match CountAt(body, next)
      case Uncounted => Raises
      case Counted(n, after) =>
        match Walk(body, after)
        case Example(rest) => Example(Repeat(c, n) + rest)
        case other => other
  }

  function ExampleOf(pattern: string): Outcome {
    if |pattern| < 2 || pattern[0] != '^' || pattern[|pattern| - 1] != '$' then NoExample
    else Walk(pattern[1..|pattern| - 1], 0)
  }

  function Prepended(s: string, o: Outcome): Outcome {
    match o
    case Example(rest) => Example(s + rest)
    case other => other
  }

  method RegexExample(pattern: string) returns (r: Outcome)
    ensures r == ExampleOf(pattern)
  {
    if |pattern| < 2 || pattern[0] != '^' || pattern[|pattern| - 1] != '$' {
      return NoExample;
    }
    var body := pattern[1..|pattern| - 1];
    var out, index := "", 0;
    while index < |body|
      invariant index <= |body|
      invariant Walk(body, 0) == Prepended(out, Walk(body, index))
      decreases |body| - index
    {
      var atom := AtomAt(body, index);
      match atom {
        case Broken => return Raises;
        case Declined => return NoExample;
        case Taken(c, next) =>
          match CountAt(body, next) {
            case Uncounted => return Raises;
            case Counted(n, after) =>
              PrependedTwice(out, Repeat(c, n), Walk(body, after));
              out := out + Repeat(c, n);
              index := after;
          }
      }
    }
    r := Example(out);
    assert out + "" == out;
  }

  lemma {:induction false} PrependedTwice(a: string, b: string, o: Outcome)
    ensures Prepended(a, Prepended(b, o)) == Prepended(a + b, o)
  {
    if o.Example? {
      assert a + (b + o.text) == (a + b) + o.text;
    }
  }

  // ---- Expressions and their language ----

  datatype Member = One(c: char) | Span(low: char, high: char)

  /** A literal, a class whose first member is a plain character or span, or an escape. */
  datatype Chars = Literal(c: char) | Class(first: Member, rest: seq<Member>) | Escape(c: char)

  datatype Count = Once | Star | Plus | Maybe | Exactly(n: nat) | AtLeast(n: nat) | Between(n: nat, m: nat)

  datatype Item = Item(chars: Chars, count: Count)

  /** A character with no meaning of its own outside a class. */
  predicate PlainChar(c: char) {
    c !in "[]\\()|.*+?{}^$"
  }

  /** A character that stands for itself in a class. */
  predicate PlainMember(c: char) {
    c !in "[]\\^-"
  }

  predicate GoodMember(m: Member) {
    match m
    case One(c) => PlainMember(c)
    case Span(low, high) => PlainMember(low) && PlainMember(high) && low <= high
  }

  predicate Punctuation(c: char) {
    c in "!\"#$%&'()*+,-./:;<=>?@[\\]^_`{|}~"
  }

  predicate GoodChars(a: Chars) {
    match a
    case Literal(c) => PlainChar(c)
    case Class(first, rest) => GoodMember(first) && forall k :: 0 <= k < |rest| ==> GoodMember(rest[k])
    case Escape(c) => c in "dws" || Punctuation(c)
  }

  predicate GoodCount(c: Count) {
    (c.Between? ==> c.n <= c.m) && |PrintNumber(Least(c))| <= MAX_DIGITS
  }

  predicate Good(items: seq<Item>) {
    forall k :: 0 <= k < |items| ==> GoodChars(items[k].chars) && GoodCount(items[k].count)
  }

  predicate InMember(m: Member, c: char) {
    match m
    case One(d) => c == d
    case Span(low, high) => low <= c <= high
  }

  predicate InChars(a: Chars, c: char) {
    match a
    case Literal(d) => c == d
    case Class(first, rest) => InMember(first, c) || exists k :: 0 <= k < |rest| && InMember(rest[k], c)
    case Escape(d) =>
      if d == 'd' then IsDigit(c)
      else if d == 'w' then IsDigit(c) || 'a' <= c <= 'z' || 'A' <= c <= 'Z' || c == '_'
      else if d == 's' then c in " \t\n\r"
      else c == d
  }

  function Least(c: Count): nat {
    match c
    case Once => 1
    case Star => 0
    case Plus => 1
    case Maybe => 0
    case Exactly(n) => n
    case AtLeast(n) => n
    case Between(n, _) => n
  }

  function Most(c: Count): Option<nat> {
    match c
    case Once => Some(1)
    case Star => None
    case Plus => None
    case Maybe => Some(1)
    case Exactly(n) => Some(n)
    case AtLeast(_) => None
    case Between(_, m) => Some(m)
  }

  predicate InCount(c: Count, k: nat) {
    Least(c) <= k && (Most(c).Some? ==> k <= Most(c).value)
  }

  /** The first k characters of s match the item. */
  ghost predicate TakesFirst(i: Item, s: string, k: nat) {
    k <= |s| && InCount(i.count, k) && forall j :: 0 <= j < k ==> InChars(i.chars, s[j])
  }

  /** The text is cut into one piece for each item. */
  ghost predicate InLanguage(items: seq<Item>, s: string)
    decreases items
  {
    if items == [] then s == ""
    else exists k: nat :: TakesFirst(items[0], s, k) && InLanguage(items[1..], s[k..])
  }

  // ---- Printing ----

  function PrintMember(m: Member): string {
    match m
    case One(c) => [c]
    case Span(low, high) => [low, '-', high]
  }

  function PrintMembers(ms: seq<Member>): string {
    if ms == [] then "" else PrintMember(ms[0]) + PrintMembers(ms[1..])
  }

  function PrintChars(a: Chars): string {
    match a
    case Literal(c) => [c]
    case Class(first, rest) => "[" + (PrintMember(first) + PrintMembers(rest)) + "]"
    case Escape(c) => ['\\', c]
  }

  function PrintNumber(n: nat): string
    decreases n
  {
    (if n < 10 then "" else PrintNumber(n / 10)) + [(n % 10 + '0' as nat) as char]
  }

  function PrintCount(c: Count): string {
    match c
    case Once => ""
    case Star => "*"
    case Plus => "+"
    case Maybe => "?"
    case Exactly(n) => Braced(n, "")
    case AtLeast(n) => Braced(n, ",")
    case Between(n, m) => Braced(n, "," + PrintNumber(m))
  }

  function Braced(n: nat, more: string): string {
    "{" + (PrintNumber(n) + more) + "}"
  }

  function PrintItems(items: seq<Item>): string
    decreases items
  {
    if items == [] then "" else PrintChars(items[0].chars) + (PrintCount(items[0].count) + PrintItems(items[1..]))
  }

  function Pattern(items: seq<Item>): string {
    "^" + PrintItems(items) + "$"
  }

  // ---- What the walk takes from a printed expression ----

  /** The character the walk takes for an atom. */
  function Chosen(a: Chars): char {
    match a
    case Literal(c) => c
    case Class(first, _) => if first.One? then first.c else first.low
    case Escape(c) => if c == 'd' then '9' else if c == 'w' then 'a' else if c == 's' then ' ' else c
  }

  function ChosenCount(c: Count): nat {
    match c
    case Once => 1
    case Star => 0
    case Plus => 1
    case Maybe => 0
    case Exactly(n) => if n < 1 then 1 else n
    case AtLeast(n) => if n < 1 then 1 else n
    case Between(n, _) => if n < 1 then 1 else n
  }

  function Built(items: seq<Item>): string
    decreases items
  {
    if items == [] then "" else Repeat(Chosen(items[0].chars), ChosenCount(items[0].count)) + Built(items[1..])
  }

  ghost predicate AllDigits(s: string) {
    forall k :: 0 <= k < |s| ==> IsDigit(s[k])
  }

  lemma {:induction false} DigitsPrinted(n: nat)
    ensures Digits(PrintNumber(n)) == Some(n) && AllDigits(PrintNumber(n)) && PrintNumber(n) != ""
    decreases n
  {
    if n < 10 {
      OneDigit(n);
    } else {
      DigitsPrinted(n / 10);
      LastDigit(PrintNumber(n / 10), n / 10, n % 10);
      TenTimes(n);
    }
  }

  lemma {:induction false} TenTimes(n: nat)
    ensures 10 * (n / 10) + n % 10 == n
  {
  }

  lemma {:induction false} OneDigit(n: nat)
    requires n < 10
    ensures Digits(PrintNumber(n)) == Some(n) && AllDigits(PrintNumber(n)) && PrintNumber(n) != ""
  {
    assert PrintNumber(n) == "" + [(n + '0' as nat) as char];
  }

  lemma {:induction false} LastDigit(before: string, n: nat, d: nat)
    requires before != "" && AllDigits(before) && Digits(before) == Some(n) && d < 10
    ensures var s := before + [(d + '0' as nat) as char]; AllDigits(s) && Digits(s) == Some(10 * n + d)
  {
    var s := before + [(d + '0' as nat) as char];
    assert s[..|s| - 1] == before;
    assert s[|s| - 2] == before[|before| - 1];
  }

  /** A printed number is read back. */
  lemma {:induction false} NumberIsRead(n: nat)
    requires |PrintNumber(n)| <= MAX_DIGITS
    ensures Number(PrintNumber(n)) == Some(n)
  {
    var s := PrintNumber(n);
    DigitsPrinted(n);
    AllCounted(s);
    NothingStripped(s);
    assert IsDigit(s[0]) && Converted(s) == Some(n);
  }

  lemma {:induction false} NothingStripped(s: string)
    requires AllDigits(s)
    ensures StripLeft(StripRight(s)) == s
  {
    if s != "" {
      assert IsDigit(s[0]) && IsDigit(s[|s| - 1]);
    }
  }

  lemma {:induction false} AllCounted(s: string)
    requires AllDigits(s)
    ensures DigitCount(s) == |s|
  {
    if s != "" {
      AllCounted(s[1..]);
    }
  }

  lemma {:induction false} MembersHaveNoBracket(ms: seq<Member>)
    requires forall k :: 0 <= k < |ms| ==> GoodMember(ms[k])
    ensures ']' !in PrintMembers(ms)
  {
    if ms != [] {
      assert ']' !in PrintMember(ms[0]);
      MembersHaveNoBracket(ms[1..]);
    }
  }

  /** An atom is read back from its printing, whatever follows. */
  lemma {:induction false} AtomPrinted(before: string, a: Chars, after: string)
    requires GoodChars(a)
    ensures AtomAt(before + PrintChars(a) + after, |before|) == Taken(Chosen(a), |before + PrintChars(a)|)
  {
    var body := before + PrintChars(a) + after;
    var at := |before|;
    match a
    case Literal(c) =>
      assert body[at] == c;
    case Escape(c) =>
      assert body[at] == '\\' && body[at + 1] == c;
    case Class(first, rest) =>
      MembersHaveNoBracket(rest);
      assert PrintMember(first)[0] == Chosen(a);
      ClassPrinted(before, PrintMember(first) + PrintMembers(rest), after);
  }

  lemma {:induction false} ClassPrinted(before: string, inner: string, after: string)
    requires inner != "" && ']' !in inner && inner[0] != '^'
    ensures var text := "[" + inner + "]";
            AtomAt(before + text + after, |before|) == Taken(inner[0], |before + text|)
  {
    var body := before + ("[" + inner + "]") + after;
    var at := |before|;
    assert body[at] == '[' && body[at + 1] == inner[0];
    forall k | at + 2 <= k < at + 1 + |inner| ensures body[k] != ']' {
      assert body[k] == inner[k - at - 1];
    }
    assert body[at + 1 + |inner|] == ']';
  }

  /** What follows an atom's count is not a count itself: another item starts there, or nothing. */
  lemma {:induction false} ItemStarts(items: seq<Item>)
    requires Good(items)
    ensures PrintItems(items) == "" || PrintItems(items)[0] !in "*+?{"
  {
    if items != [] {
      assert PrintItems(items)[0] == PrintChars(items[0].chars)[0];
    }
  }

  lemma {:induction false} BracesPrinted(before: string, inner: string, after: string)
    requires '}' !in inner
    ensures var body := before + ("{" + inner + "}") + after;
            IndexOf(body, '}', |before|) == Some(|before| + 1 + |inner|) &&
              body[|before| + 1..|before| + 1 + |inner|] == inner
            && body[|before|] == '{'
  {
    var body := before + ("{" + inner + "}") + after;
    forall k | 0 <= k < |inner| ensures body[|before| + 1 + k] == inner[k] {
    }
    assert body[|before| + 1 + |inner|] == '}';
  }

  lemma {:induction false} FirstOfMore(digits: string, more: string)
    requires ',' !in digits && (more == "" || more[0] == ',')
    ensures BeforeComma(digits + more) == digits
  {
    var s := digits + more;
    assert forall k :: 0 <= k < |digits| ==> s[k] == digits[k];
    assert s[..|digits|] == digits;
    if more != "" {
      assert s[|digits|] == ',';
    }
  }

  /** A count is read back from its printing, when what follows does not start with one. */
  lemma {:induction false} CountPrinted(before: string, c: Count, after: string)
    requires GoodCount(c) && (after == "" || after[0] !in "*+?{")
    ensures CountAt(before + PrintCount(c) + after, |before|) == Counted(ChosenCount(c), |before + PrintCount(c)|)
  {
    var body := before + PrintCount(c) + after;
    match c
    case Once =>
      assert body == before + after;
    case Star =>
      assert body[|before|] == '*';
    case Plus =>
      assert body[|before|] == '+';
    case Maybe =>
      assert body[|before|] == '?';
    case Exactly(n) =>
      NumberPrinted(before, n, "", after);
    case AtLeast(n) =>
      NumberPrinted(before, n, ",", after);
    case Between(n, m) =>
      DigitsPrinted(m);
      NumberPrinted(before, n, "," + PrintNumber(m), after);
  }

  lemma {:induction false} NumberPrinted(before: string, n: nat, more: string, after: string)
    requires (more == "" || more[0] == ',') && '}' !in more && |PrintNumber(n)| <= MAX_DIGITS
    ensures CountAt(before + Braced(n, more) + after, |before|) ==
            Counted(if n < 1 then 1 else n, |before + Braced(n, more)|)
  {
    DigitsPrinted(n);
    NumberIsRead(n);
    DigitsCounted(before, PrintNumber(n), n, more, after);
  }

  lemma {:induction false} DigitsCounted(before: string, digits: string, n: nat, more: string, after: string)
    requires digits != "" && AllDigits(digits) && Number(digits) == Some(n)
    requires '}' !in more && (more == "" || more[0] == ',')
    ensures var text := "{" + (digits + more) + "}";
            CountAt(before + text + after, |before|) == Counted(if n < 1 then 1 else n, |before + text|)
  {
    var inner := digits + more;
    FirstOfMore(digits, more);
    BracesPrinted(before, inner, after);
    CountByNumber(before + ("{" + inner + "}") + after, |before|, |before| + 1 + |inner|, digits);
  }

  /** A count in braces is the number its text spells up to the first comma, one where that is empty or less; where it
      spells none the count raises. */
  lemma {:induction false} CountRead(before: string, first: string, more: string, after: string)
    requires ',' !in first && (more == "" || more[0] == ',') && '}' !in first + more
    ensures var text := "{" + (first + more) + "}";
            var count := CountAt(before + text + after, |before|);
            && (first == "" ==> count == Counted(1, |before + text|))
            && (forall n :: NumberSpelt(first, n) ==> count == Counted(if n < 1 then 1 else n, |before + text|))
            && (count == Uncounted <==> first != "" && forall n :: !NumberSpelt(first, n))
  {
    var inner := first + more;
    var body, end := before + ("{" + inner + "}") + after, |before| + 1 + |inner|;
    FirstOfMore(first, more);
    BracesPrinted(before, inner, after);
    OneIsRead();
    CountByNumber(body, |before|, end, first);
    forall n ensures Number(first) == Some(n) <==> NumberSpelt(first, n) {
      NumberExactly(first, n);
    }
  }

  lemma {:induction false} OneIsRead()
    ensures Number("1") == Some(1) && Number("") == None
  {
    assert PrintNumber(1) == "1";
    NumberIsRead(1);
  }

  lemma {:induction false} CountByNumber(body: string, index: nat, end: nat, first: string)
    requires index < end < |body| && body[index] == '{' && IndexOf(body, '}', index) == Some(end)
    requires BeforeComma(body[index + 1..end]) == first
    ensures CountAt(body, index)
            == match Number(if first == "" then "1" else first)
               case None => Uncounted
               case Some(n) => Counted(if n < 1 then 1 else n, end + 1)
  {
  }

  /** An opened count without its end raises. */
  lemma {:induction false} CountCutOff(before: string, text: string)
    requires '}' !in text
    ensures CountAt(before + ("{" + text), |before|) == Uncounted
  {
    var body := before + ("{" + text);
    assert body[|before|] == '{';
    forall k | |before| < k < |body| ensures body[k] != '}' {
      assert body[k] == text[k - |before| - 1];
    }
  }

  lemma {:induction false} WalkPrinted(before: string, items: seq<Item>)
    requires Good(items)
    ensures Walk(before + PrintItems(items), |before|) == Example(Built(items))
    decreases items
  {
    if items == [] {
      assert before + PrintItems(items) == before;
    } else {
      var i, rest := items[0], items[1..];
      var atom, count, tail := PrintChars(i.chars), PrintCount(i.count), PrintItems(rest);
      Regrouped(before, atom, count, tail);
      AtomPrinted(before, i.chars, count + tail);
      ItemStarts(rest);
      CountPrinted(before + atom, i.count, tail);
      WalkPrinted(before + atom + count, rest);
      WalkOne(before + PrintItems(items), |before|, |before + atom|, |before + atom + count|);
    }
  }

  lemma {:induction false} Regrouped(before: string, atom: string, count: string, tail: string)
    ensures before + (atom + (count + tail)) == before + atom + (count + tail) == before + atom + count + tail
  {
  }

  /** One atom and its count, and the walk behind them. */
  lemma {:induction false} WalkOne(body: string, index: nat, next: nat, after: nat)
    requires index < |body| && AtomAt(body, index).Taken? && AtomAt(body, index).next == next
    requires CountAt(body, next).Counted? && CountAt(body, next).next == after
    ensures Walk(body, index)
            == Prepended(Repeat(AtomAt(body, index).c, CountAt(body, next).count), Walk(body, after))
  {
  }

  // ---- What has no example, and what is cut off ----

  /** The walk over one printed item. */
  lemma {:induction false} WalkItem(before: string, i: Item, tail: string)
    requires GoodChars(i.chars) && GoodCount(i.count) && (tail == "" || tail[0] !in "*+?{")
    ensures var atom, count := PrintChars(i.chars), PrintCount(i.count);
            var body := before + atom + count + tail;
            Walk(body, |before|)
            == Prepended(Repeat(Chosen(i.chars), ChosenCount(i.count)), Walk(body, |before + atom + count|))
  {
    var atom, count := PrintChars(i.chars), PrintCount(i.count);
    Regrouped(before, atom, count, tail);
    AtomPrinted(before, i.chars, count + tail);
    CountPrinted(before + atom, i.count, tail);
    assert |before| < |before + atom|;
    WalkOne(before + atom + count + tail, |before|, |before + atom|, |before + atom + count|);
  }

  lemma {:induction false} ItemsApart(before: string, items: seq<Item>, after: string)
    requires items != []
    ensures var head := before + PrintChars(items[0].chars) + PrintCount(items[0].count);
            && head + (PrintItems(items[1..]) + after) == before + PrintItems(items) + after
            && head + PrintItems(items[1..]) == before + PrintItems(items)
            && head + PrintItems(items[1..]) + after == before + PrintItems(items) + after
  {
    var atom, count, tail := PrintChars(items[0].chars), PrintCount(items[0].count), PrintItems(items[1..]);
    Regrouped(before, atom, count, tail);
    Assoc(before + atom + count, tail, after);
  }

  /** The walk over printed items and what stands behind them. */
  lemma {:induction false} WalkBehind(before: string, items: seq<Item>, after: string)
    requires Good(items) && (after == "" || after[0] !in "*+?{")
    ensures Walk(before + PrintItems(items) + after, |before|)
            == Prepended(Built(items), Walk(before + PrintItems(items) + after, |before + PrintItems(items)|))
    decreases items
  {
    var body := before + PrintItems(items) + after;
    if items == [] {
      assert before + PrintItems(items) == before;
      NothingPrepended(Walk(body, |before|));
    } else {
      var i, rest := items[0], items[1..];
      var head := before + PrintChars(i.chars) + PrintCount(i.count);
      ItemStartsBehind(rest, after);
      WalkItem(before, i, PrintItems(rest) + after);
      WalkBehind(head, rest, after);
      ItemsApart(before, items, after);
      PrependedTwice(Repeat(Chosen(i.chars), ChosenCount(i.count)), Built(rest),
        Walk(body, |before + PrintItems(items)|));
    }
  }

  lemma {:induction false} NothingPrepended(o: Outcome)
    ensures Prepended("", o) == o
  {
    if o.Example? {
      assert "" + o.text == o.text;
    }
  }

  lemma {:induction false} ItemStartsBehind(items: seq<Item>, after: string)
    requires Good(items) && (after == "" || after[0] !in "*+?{")
    ensures var s := PrintItems(items) + after; s == "" || s[0] !in "*+?{"
  {
    ItemStarts(items);
    if PrintItems(items) != "" {
      assert (PrintItems(items) + after)[0] == PrintItems(items)[0];
    } else {
      assert PrintItems(items) + after == after;
    }
  }

  /** Behind printed items alternation, a group and a dot have no example, nor has a negated class. */
  lemma {:induction false} NoExampleBehind(items: seq<Item>, c: char, rest: string)
    requires Good(items)
    requires c in "()|." || NegatedClass([c] + rest)
    ensures ExampleOf("^" + (PrintItems(items) + ([c] + rest)) + "$") == NoExample
  {
    var after := [c] + rest;
    BodyOf(PrintItems(items) + after);
    WalkBehind("", items, after);
    NothingBefore(PrintItems(items));
    Excluded(PrintItems(items), after);
  }

  ghost predicate NegatedClass(tail: string) {
    |tail| >= 2 && tail[0] == '[' && tail[1] == '^' && ']' in tail[2..]
  }

  lemma {:induction false} Excluded(before: string, tail: string)
    requires tail != "" && (tail[0] in "()|." || NegatedClass(tail))
    ensures Walk(before + tail, |before|) == NoExample
  {
    var body, at := before + tail, |before|;
    assert body[at] == tail[0];
    if tail[0] == '[' {
      assert body[at + 1] == tail[1];
      var k :| 0 <= k < |tail[2..]| && tail[2..][k] == ']';
      assert body[at + 2 + k] == ']';
    }
  }

  lemma {:induction false} BodyOf(body: string)
    ensures ExampleOf("^" + body + "$") == Walk(body, 0)
  {
    assert ("^" + body + "$")[1..|"^" + body + "$"| - 1] == body;
  }

  /** A backslash at the end and a class without its end raise. */
  lemma {:induction false} CutOffRaises(items: seq<Item>, tail: string)
    requires Good(items) && (tail == "\\" || OpenClass(tail))
    ensures ExampleOf("^" + (PrintItems(items) + tail) + "$") == Raises
  {
    BodyOf(PrintItems(items) + tail);
    WalkBehind("", items, tail);
    NothingBefore(PrintItems(items));
    CutOff(PrintItems(items), tail);
  }

  lemma {:induction false} NothingBefore(s: string)
    ensures "" + s == s
  {
  }

  ghost predicate OpenClass(tail: string) {
    tail != "" && tail[0] == '[' && forall k :: 2 <= k < |tail| ==> tail[k] != ']'
  }

  lemma {:induction false} CutOff(before: string, tail: string)
    requires tail == "\\" || OpenClass(tail)
    ensures Walk(before + tail, |before|) == Raises
  {
    var body, at := before + tail, |before|;
    assert forall k :: 0 <= k < |tail| ==> body[at + k] == tail[k];
    assert body[at] == tail[0];
    if OpenClass(tail) {
      forall k | at + 2 <= k < |body| ensures body[k] != ']' {
        assert body[at + (k - at)] == tail[k - at];
      }
    }
  }

  /** The examples of the escapes, as they are written: a nine, an `a`, a blank, and any other character itself. */
  lemma {:induction false} EscapesShown(c: char)
    requires c in "dws" || Punctuation(c)
    ensures ExampleOf(['^', '\\', c, '$'])
            == Example([if c == 'd' then '9' else if c == 'w' then 'a' else if c == 's' then ' ' else c])
  {
    var i := Item(Escape(c), Once);
    assert |PrintNumber(1)| == 1;
    BuiltIsFound([i]);
    OneBuilt(i);
    assert PrintItems([i][1..]) == "" && PrintItems([i]) == ['\\', c];
    assert Pattern([i]) == ['^', '\\', c, '$'];
  }

  // ---- The example is in the language ----

  /** No count forbids every occurrence, as `{0}` does. */
  ghost predicate NoneForbidden(items: seq<Item>) {
    forall k :: 0 <= k < |items| ==> (Most(items[k].count).Some? ==> Most(items[k].count).value >= 1)
  }

  lemma {:induction false} ChosenFits(i: Item)
    requires GoodChars(i.chars) && GoodCount(i.count)
    ensures InChars(i.chars, Chosen(i.chars))
    ensures InCount(i.count, ChosenCount(i.count)) <==> (Most(i.count).Some? ==> Most(i.count).value >= 1)
    ensures !InCount(i.count, ChosenCount(i.count)) ==> ChosenCount(i.count) == 1
  {
    if i.chars.Class? {
      assert InMember(i.chars.first, Chosen(i.chars));
    }
  }

  lemma {:induction false} BuiltMatches(items: seq<Item>)
    requires Good(items) && NoneForbidden(items)
    ensures InLanguage(items, Built(items))
    decreases items
  {
    if items != [] {
      var k := ChosenCount(items[0].count);
      ChosenFits(items[0]);
      BuiltMatches(items[1..]);
      assert Built(items)[k..] == Built(items[1..]);
      assert TakesFirst(items[0], Built(items), k);
    }
  }

  lemma {:induction false} BuiltIsFound(items: seq<Item>)
    requires Good(items)
    ensures ExampleOf(Pattern(items)) == Example(Built(items))
  {
    WalkPrinted("", items);
    assert "" + PrintItems(items) == PrintItems(items);
    assert Pattern(items)[1..|Pattern(items)| - 1] == PrintItems(items);
  }

  /** The example of a printed expression without a forbidden atom is in the expression's language. */
  lemma {:induction false} ExampleMatches(items: seq<Item>)
    requires Good(items) && NoneForbidden(items)
    ensures ExampleOf(Pattern(items)).Example? && InLanguage(items, ExampleOf(Pattern(items)).text)
  {
    BuiltIsFound(items);
    BuiltMatches(items);
  }

  ghost predicate Fixed(items: seq<Item>) {
    forall k :: 0 <= k < |items| ==> Most(items[k].count) == Some(Least(items[k].count))
  }

  function Lengths(items: seq<Item>): nat
    decreases items
  {
    if items == [] then 0 else Least(items[0].count) + Lengths(items[1..])
  }

  lemma {:induction false} FixedLength(items: seq<Item>, s: string)
    requires Fixed(items) && InLanguage(items, s)
    ensures |s| == Lengths(items)
    decreases items
  {
    if items != [] {
      var k: nat :| TakesFirst(items[0], s, k) && InLanguage(items[1..], s[k..]);
      FixedLength(items[1..], s[k..]);
    }
  }

  lemma {:induction false} BuiltLength(items: seq<Item>)
    requires Good(items) && Fixed(items)
    ensures |Built(items)| >= Lengths(items)
    ensures |Built(items)| == Lengths(items) <==> NoneForbidden(items)
    decreases items
  {
    if items != [] {
      ChosenFits(items[0]);
      BuiltLength(items[1..]);
      var c := items[0].count;
      assert ChosenCount(c) >= Least(c);
      assert ChosenCount(c) == Least(c) <==> (Most(c).Some? ==> Most(c).value >= 1);
      if NoneForbidden(items[1..]) && Most(c).value >= 1 {
        forall k | 0 <= k < |items| ensures Most(items[k].count).Some? ==> Most(items[k].count).value >= 1 {
          if k > 0 {
            assert items[k] == items[1..][k - 1];
          }
        }
      }
      if NoneForbidden(items) {
        assert forall k :: 0 <= k < |items| - 1 ==> items[1..][k] == items[k + 1];
      }
    }
  }

  /** Of an expression whose counts are exact, the example matches if and only if no atom is forbidden. */
  lemma {:induction false} FixedExampleExactly(items: seq<Item>)
    requires Good(items) && Fixed(items)
    ensures ExampleOf(Pattern(items)).Example?
    ensures InLanguage(items, ExampleOf(Pattern(items)).text) <==> NoneForbidden(items)
  {
    BuiltIsFound(items);
    BuiltLength(items);
    if NoneForbidden(items) {
      BuiltMatches(items);
    } else if InLanguage(items, Built(items)) {
      FixedLength(items, Built(items));
      assert false;
    }
  }

  /** The count allows no occurrence. */
  predicate Forbids(c: Count) {
    Most(c) == Some(0)
  }

  /** No atom that may occur takes the character that stands for a forbidden one. */
  ghost predicate Unabsorbed(items: seq<Item>) {
    forall i, j :: 0 <= i < |items| && 0 <= j < |items| && Forbids(items[i].count) && !Forbids(items[j].count) ==>
      !InChars(items[j].chars, Chosen(items[i].chars))
  }

  /** In a text of the language every character is taken by an atom that may occur. */
  lemma {:induction false} CharIsTaken(items: seq<Item>, s: string, k: nat) returns (j: nat)
    requires InLanguage(items, s) && k < |s|
    ensures j < |items| && InChars(items[j].chars, s[k]) && !Forbids(items[j].count)
    decreases items
  {
    var n: nat :| TakesFirst(items[0], s, n) && InLanguage(items[1..], s[n..]);
    if k < n {
      j := 0;
    } else {
      j := CharIsTaken(items[1..], s[n..], k - n);
      j := j + 1;
    }
  }

  /** The text shows each forbidden atom once. */
  lemma {:induction false} ForbiddenIsBuilt(items: seq<Item>, i: nat) returns (k: nat)
    requires Good(items) && i < |items| && Forbids(items[i].count)
    ensures k < |Built(items)| && Built(items)[k] == Chosen(items[i].chars)
    decreases items
  {
    if i == 0 {
      k := 0;
    } else {
      k := ForbiddenIsBuilt(items[1..], i - 1);
      k := k + ChosenCount(items[0].count);
    }
  }

  lemma {:induction false} SomeForbidden(items: seq<Item>) returns (i: nat)
    requires !NoneForbidden(items)
    ensures i < |items| && Forbids(items[i].count)
  {
    i :| i < |items| && !(Most(items[i].count).Some? ==> Most(items[i].count).value >= 1);
  }

  lemma {:induction false} ForbiddenFails(items: seq<Item>, i: nat)
    requires Good(items) && Unabsorbed(items) && i < |items| && Forbids(items[i].count)
    ensures !InLanguage(items, Built(items))
  {
    var text := Built(items);
    var k := ForbiddenIsBuilt(items, i);
    if InLanguage(items, text) {
      var j := CharIsTaken(items, text, k);
    }
  }

  /** Unless an atom that may occur takes the character of a forbidden one, the example matches if and only if no
      atom is forbidden, whatever the other counts. */
  lemma {:induction false} UnabsorbedExampleExactly(items: seq<Item>)
    requires Good(items) && Unabsorbed(items)
    ensures ExampleOf(Pattern(items)).Example?
    ensures InLanguage(items, ExampleOf(Pattern(items)).text) <==> NoneForbidden(items)
  {
    BuiltIsFound(items);
    UnabsorbedExactly(items);
  }

  lemma {:induction false} UnabsorbedExactly(items: seq<Item>)
    requires Good(items) && Unabsorbed(items)
    ensures InLanguage(items, Built(items)) <==> NoneForbidden(items)
  {
    if NoneForbidden(items) {
      BuiltMatches(items);
    } else {
      var i := SomeForbidden(items);
      ForbiddenFails(items, i);
    }
  }

  /** An expression of one atom, whatever its count. */
  lemma {:induction false} OneItemExactly(i: Item)
    requires Good([i])
    ensures ExampleOf(Pattern([i])).Example?
    ensures InLanguage([i], ExampleOf(Pattern([i])).text) <==> NoneForbidden([i])
  {
    UnabsorbedExampleExactly([i]);
  }

  ghost predicate AllIn(a: Chars, s: string) {
    forall k :: 0 <= k < |s| ==> InChars(a, s[k])
  }

  /** The texts of one atom with each kind of count. */
  lemma {:induction false} OneItemMeans(a: Chars, n: nat, m: nat, s: string)
    ensures InLanguage([Item(a, Once)], s) <==> AllIn(a, s) && |s| == 1
    ensures InLanguage([Item(a, Star)], s) <==> AllIn(a, s)
    ensures InLanguage([Item(a, Plus)], s) <==> AllIn(a, s) && |s| >= 1
    ensures InLanguage([Item(a, Maybe)], s) <==> AllIn(a, s) && |s| <= 1
    ensures InLanguage([Item(a, Exactly(n))], s) <==> AllIn(a, s) && |s| == n
    ensures InLanguage([Item(a, AtLeast(n))], s) <==> AllIn(a, s) && |s| >= n
    ensures InLanguage([Item(a, Between(n, m))], s) <==> AllIn(a, s) && n <= |s| <= m
  {
    TakesAll(Item(a, Once), s);
    TakesAll(Item(a, Star), s);
    TakesAll(Item(a, Plus), s);
    TakesAll(Item(a, Maybe), s);
    TakesAll(Item(a, Exactly(n)), s);
    TakesAll(Item(a, AtLeast(n)), s);
    TakesAll(Item(a, Between(n, m)), s);
  }

  lemma {:induction false} TakesAll(i: Item, s: string)
    ensures InLanguage([i], s) <==> AllIn(i.chars, s) && InCount(i.count, |s|)
  {
    assert [i][1..] == [];
    if InLanguage([i], s) {
      var k: nat :| TakesFirst(i, s, k) && InLanguage([], s[k..]);
      assert k == |s|;
    }
    if AllIn(i.chars, s) && InCount(i.count, |s|) {
      assert TakesFirst(i, s, |s|) && InLanguage([i][1..], s[|s|..]);
    }
  }

  /** The expression the conversion is documented with: as it is printed, its texts, and its example. */
  lemma {:induction false} DocumentedExpression(s: string)
    ensures Pattern([DIGEST]) == "^[0-9a-f]{64}$"
    ensures InLanguage([DIGEST], s) <==>
              |s| == 64 && forall k :: 0 <= k < 64 ==> '0' <= s[k] <= '9' || 'a' <= s[k] <= 'f'
    ensures ExampleOf("^[0-9a-f]{64}$") == Example(Repeat('0', 64))
  {
    DocumentedPrint();
    BuiltIsFound([DIGEST]);
    DigestBuilt();
    OneItemMeans(DIGEST.chars, 64, 64, s);
    HexTexts(s);
  }

  lemma {:induction false} DigestBuilt()
    ensures Built([DIGEST]) == Repeat('0', 64)
  {
    assert Built([DIGEST][1..]) == "";
    assert Built([DIGEST]) == Repeat('0', 64) + "";
  }

  lemma {:induction false} HexTexts(s: string)
    ensures AllIn(DIGEST.chars, s) <==> forall k :: 0 <= k < |s| ==> '0' <= s[k] <= '9' || 'a' <= s[k] <= 'f'
  {
    forall k | 0 <= k < |s| ensures InChars(DIGEST.chars, s[k]) <==> '0' <= s[k] <= '9' || 'a' <= s[k] <= 'f' {
      HexMeans(s[k]);
    }
  }

  ghost const DIGEST := Item(Class(Span('0', '9'), [Span('a', 'f')]), Exactly(64))

  lemma {:induction false} HexMeans(c: char)
    ensures InChars(DIGEST.chars, c) <==> '0' <= c <= '9' || 'a' <= c <= 'f'
  {
    assert InMember([Span('a', 'f')][0], c) <==> 'a' <= c <= 'f';
  }

  lemma {:induction false} DocumentedPrint()
    ensures Pattern([DIGEST]) == "^[0-9a-f]{64}$" && Good([DIGEST])
  {
    DocumentedCount();
    DocumentedClass();
    assert PrintItems([DIGEST][1..]) == "";
    assert PrintItems([DIGEST]) == "[0-9a-f]" + ("{64}" + "");
  }

  lemma {:induction false} DocumentedCount()
    ensures PrintCount(DIGEST.count) == "{64}" && |PrintNumber(64)| == 2
  {
    assert PrintNumber(6) == "6";
    assert PrintNumber(64) == "64";
  }

  lemma {:induction false} DocumentedClass()
    ensures PrintChars(DIGEST.chars) == "[0-9a-f]" && GoodChars(DIGEST.chars)
  {
    assert PrintMembers([Span('a', 'f')][1..]) == "";
    assert PrintMembers([Span('a', 'f')]) == "a-f" + "";
    assert "[" + ("0-9" + "a-f") + "]" == "[0-9a-f]";
  }

  function CountsOf(items: seq<Item>): seq<Count> {
    seq(|items|, k requires 0 <= k < |items| => items[k].count)
  }

  /** The example of every expression with these counts matches, whatever its atoms. */
  ghost predicate AlwaysMatches(counts: seq<Count>) {
    forall items :: Good(items) && CountsOf(items) == counts ==> Matches(items)
  }

  ghost predicate Matches(items: seq<Item>) {
    ExampleOf(Pattern(items)).Example? && InLanguage(items, ExampleOf(Pattern(items)).text)
  }

  /** An atom of its own for the forbidden counts. */
  function Telling(c: Count): Item {
    Item(Literal(if Forbids(c) then 'a' else 'b'), c)
  }

  /** A list of counts gives matching examples whatever the atoms if and only if none of them forbids its atom. */
  lemma {:induction false} CountsDecideExactly(counts: seq<Count>)
    requires forall k :: 0 <= k < |counts| ==> GoodCount(counts[k])
    ensures AlwaysMatches(counts) <==> forall k :: 0 <= k < |counts| ==> !Forbids(counts[k])
  {
    if forall k :: 0 <= k < |counts| ==> !Forbids(counts[k]) {
      forall items | Good(items) && CountsOf(items) == counts ensures Matches(items) {
        NoCountForbids(items, counts);
        ExampleMatches(items);
      }
    } else {
      var k :| 0 <= k < |counts| && Forbids(counts[k]);
      TellingFails(counts, k);
    }
  }

  lemma {:induction false} NoCountForbids(items: seq<Item>, counts: seq<Count>)
    requires CountsOf(items) == counts && forall k :: 0 <= k < |counts| ==> !Forbids(counts[k])
    ensures NoneForbidden(items)
  {
    forall k | 0 <= k < |items| ensures Most(items[k].count).Some? ==> Most(items[k].count).value >= 1 {
      assert CountsOf(items)[k] == items[k].count;
    }
  }

  lemma {:induction false} TellingFails(counts: seq<Count>, i: nat)
    requires forall k :: 0 <= k < |counts| ==> GoodCount(counts[k])
    requires i < |counts| && Forbids(counts[i])
    ensures !AlwaysMatches(counts)
  {
    var items := seq(|counts|, k requires 0 <= k < |counts| => Telling(counts[k]));
    assert CountsOf(items) == counts;
    assert PlainChar('a') && PlainChar('b');
    assert Forbids(items[i].count);
    UnabsorbedExampleExactly(items);
    assert Good(items) && !Matches(items);
  }

  /** `^a{0}$` matches nothing but the empty text, yet its example is `a`. */
  lemma {:induction false} ForbiddenAtomIsShown()
    ensures var items := [Item(Literal('a'), Exactly(0))];
            ExampleOf(Pattern(items)) == Example("a") && !InLanguage(items, "a")
  {
    var items := [Item(Literal('a'), Exactly(0))];
    ZeroIsGood();
    FixedExampleExactly(items);
    BuiltIsFound(items);
    OneBuilt(items[0]);
  }

  lemma {:induction false} ZeroIsGood()
    ensures var items := [Item(Literal('a'), Exactly(0))]; Good(items) && Fixed(items) && !NoneForbidden(items)
  {
    var items := [Item(Literal('a'), Exactly(0))];
    assert |PrintNumber(0)| == 1 && Most(items[0].count) == Some(0);
  }

  lemma {:induction false} OneBuilt(i: Item)
    requires ChosenCount(i.count) == 1
    ensures Built([i]) == [Chosen(i.chars)]
  {
    assert Built([i][1..]) == "" && Repeat(Chosen(i.chars), 1) == [Chosen(i.chars)];
  }

  /** A forbidden atom can be made good by its neighbour: the example of `^a{0}a*$` is `a`, which matches. */
  lemma {:induction false} NeighbourMayMatch()
    ensures var items := [Item(Literal('a'), Exactly(0)), Item(Literal('a'), Star)];
            !NoneForbidden(items) && ExampleOf(Pattern(items)) == Example("a") && InLanguage(items, "a")
  {
    var i, j := Item(Literal('a'), Exactly(0)), Item(Literal('a'), Star);
    var items := [i, j];
    ZeroIsGood();
    assert !NoneForbidden(items) by { assert Most(items[0].count) == Some(0); }
    BuiltIsFound(items);
    assert items[1..] == [j] && [j][1..] == [];
    assert Built([]) == "" && Built([j]) == "" && Built(items) == "a";
    StarTakes(j);
    assert "a"[0..] == "a" && TakesFirst(i, "a", 0);
    assert TakesFirst(items[0], "a", 0) && InLanguage(items[1..], "a"[0..]);
  }

  lemma {:induction false} StarTakes(j: Item)
    requires j == Item(Literal('a'), Star)
    ensures InLanguage([j], "a")
  {
    assert [j][1..] == [] && "a"[1..] == "";
    assert InLanguage([], "") && TakesFirst([j][0], "a", 1);
  }
}
