/** Text primitives the router takes from the Rust standard library: `split`, `join`,
    `find`, `strip_prefix`/`ends_with`, and decimal numbers. A string is a sequence of
    characters; every delimiter and pattern used by the router is ASCII, so positions
    found here and byte positions in the original delimit the same pieces of text. */
module Text {

  datatype Option<+T> = None | Some(value: T) {
    function GetOr(default: T): T {
      match this
      case None => default
      case Some(v) => v
    }
  }

  /** The pieces of `s` between occurrences of `sep`, in order (`str::split`). */
  function Split(s: string, sep: char): (segs: seq<string>)
    ensures |segs| >= 1
    ensures forall i :: 0 <= i < |segs| ==> sep !in segs[i]
    ensures Join(segs, sep) == s
  {
    if s == [] then [[]]
    else
      var rest := Split(s[1..], sep);
      if s[0] == sep then [[]] + rest else [[s[0]] + rest[0]] + rest[1..]
  }

  /** Concatenate pieces with `sep` between neighbours. */
  function Join(segs: seq<string>, sep: char): string
    requires |segs| >= 1
  {
    if |segs| == 1 then segs[0] else segs[0] + [sep] + Join(segs[1..], sep)
  }

  /** Text without the separator is one piece. */
  lemma {:induction false} SplitSingle(s: string, sep: char)
    requires sep !in s
    ensures Split(s, sep) == [s]
  {
    if s == [] {
    } else {
      SplitSingle(s[1..], sep);
      assert [s[0]] + s[1..] == s;
    }
  }

  /** The first separator cuts off the first piece. */
  lemma {:induction false} SplitCons(a: string, b: string, sep: char)
    requires sep !in a
    ensures Split(a + [sep] + b, sep) == [a] + Split(b, sep)
  {
    if a == [] {
      assert a + [sep] + b == [sep] + b;
      assert ([sep] + b)[1..] == b;
    } else {
      SplitCons(a[1..], b, sep);
      SplitStep(a[0], a[1..] + [sep] + b, sep, a[1..], Split(b, sep));
      Rebracket(a, [sep], b);
      Rebracket(a[1..], [sep], b);
      FirstBack(a, [sep] + b, a[1..] + [sep] + b);
    }
  }

  lemma Rebracket(a: string, b: string, c: string)
    ensures a + b + c == a + (b + c)
  {
  }

  lemma FirstBack(a: string, b: string, tail: string)
    requires a != [] && tail == a[1..] + b
    ensures [a[0]] + tail == a + b && [a[0]] + a[1..] == a
  {
  }

  /** A character that does not separate joins the first piece of the rest. */
  lemma SplitStep(c: char, tail: string, sep: char, first: string, others: seq<string>)
    requires c != sep && Split(tail, sep) == [first] + others
    ensures Split([c] + tail, sep) == [[c] + first] + others
  {
    assert ([c] + tail)[1..] == tail;
    assert ([first] + others)[1..] == others;
  }

  /** Splitting undoes joining, provided no piece contains the separator. */
  lemma {:induction false} SplitJoin(segs: seq<string>, sep: char)
    requires |segs| >= 1
    requires forall i :: 0 <= i < |segs| ==> sep !in segs[i]
    ensures Split(Join(segs, sep), sep) == segs
  {
    if |segs| == 1 {
      SplitSingle(segs[0], sep);
    } else {
      SplitJoin(segs[1..], sep);
      SplitCons(segs[0], Join(segs[1..], sep), sep);
    }
  }

  /** Whether `pat` stands in `s` at position `i`. */
  predicate OccursAt(s: string, pat: string, i: nat) {
    i + |pat| <= |s| && s[i..i + |pat|] == pat
  }

  /** The first position at or after `from` where `pat` stands. */
  function FindFrom(s: string, pat: string, from: nat): (r: Option<nat>)
    ensures r.Some? ==> from <= r.value && OccursAt(s, pat, r.value)
    ensures r.Some? ==> forall j: nat :: from <= j < r.value ==> !OccursAt(s, pat, j)
    ensures r.None? ==> forall j: nat :: from <= j ==> !OccursAt(s, pat, j)
    decreases |s| - from
  {
    if OccursAt(s, pat, from) then Some(from)
    else if from >= |s| then None
    else FindFrom(s, pat, from + 1)
  }

  /** `str::find` for a string pattern. */
  function Find(s: string, pat: string): (r: Option<nat>)
    ensures r.Some? ==> OccursAt(s, pat, r.value)
    ensures r.Some? ==> forall j: nat :: j < r.value ==> !OccursAt(s, pat, j)
    ensures r.None? ==> forall j: nat :: !OccursAt(s, pat, j)
  {
    FindFrom(s, pat, 0)
  }

  /** The first position of a character (`str::find` for a `char`). */
  function IndexOf(s: string, c: char): (r: Option<nat>)
    ensures r.Some? ==> r.value < |s| && s[r.value] == c && c !in s[..r.value]
    ensures r.None? ==> c !in s
  {
    if s == [] then None
    else if s[0] == c then Some(0)
    else match IndexOf(s[1..], c)
      case None => None
      case Some(i) => assert s[..i + 1] == [s[0]] + s[1..][..i]; Some(i + 1)
  }

  predicate StartsWith(s: string, prefix: string) {
    prefix <= s
  }

  predicate EndsWith(s: string, suffix: string) {
    |suffix| <= |s| && s[|s| - |suffix|..] == suffix
  }

  /** `str::split_once` on a character. */
  function SplitOnce(s: string, c: char): (r: Option<(string, string)>)
    ensures r.Some? ==> s == r.value.0 + [c] + r.value.1 && c !in r.value.0
    ensures r.None? ==> c !in s
  {
    match IndexOf(s, c)
    case None => None
    case Some(i) => Some((s[..i], s[i + 1..]))
  }

  /** The piece before the first separator is determined by the text alone. */
  lemma SplitOnceExact(a: string, b: string, c: char)
    requires c !in a
    ensures SplitOnce(a + [c] + b, c) == Some((a, b))
  {
    var s := a + [c] + b;
    assert s[|a|] == c;
    var i := IndexOf(s, c).value;
    assert forall k :: 0 <= k < i ==> s[k] in s[..i];
    assert s[..|a|] == a && s[|a| + 1..] == b;
  }

  /** The Unicode White_Space characters, which `trim` and `trim_end` remove. */
  predicate IsWhitespace(c: char) {
    || '\t' <= c <= '\r'
    || c == ' '
    || c == '\U{0085}'
    || c == '\U{00A0}'
    || c == '\U{1680}'
    || '\U{2000}' <= c <= '\U{200A}'
    || c == '\U{2028}'
    || c == '\U{2029}'
    || c == '\U{202F}'
    || c == '\U{205F}'
    || c == '\U{3000}'
  }

  /** `str::trim_end`. */
  function TrimEnd(s: string): string {
    if s == [] then []
    else if IsWhitespace(s[|s| - 1]) then TrimEnd(s[..|s| - 1])
    else s
  }

  /** `trim_end` keeps a prefix and drops white space only. */
  lemma {:induction false} TrimEndMeaning(s: string)
    ensures TrimEnd(s) <= s
    ensures TrimEnd(s) == [] || !IsWhitespace(TrimEnd(s)[|TrimEnd(s)| - 1])
    ensures forall i :: |TrimEnd(s)| <= i < |s| ==> IsWhitespace(s[i])
  {
    if s != [] && IsWhitespace(s[|s| - 1]) {
      TrimEndMeaning(s[..|s| - 1]);
    }
  }

  /** Text that trimming leaves alone at its end. */
  predicate Tidy(text: string) {
    text != "" && !IsWhitespace(text[|text| - 1])
  }

  /** Trimming the end of a line takes nothing off a tidy part of it. */
  lemma TrimKeepsPart(before: string, part: string, after: string) returns (rest: string)
    requires Tidy(part)
    ensures TrimEnd(before + part + after) == before + part + rest && rest <= after
  {
    var line := before + part + after;
    TrimEndMeaning(line);
    var n := |before + part|;
    assert line[n - 1] == part[|part| - 1];
    rest := TrimEnd(line)[n..];
    assert line[..n] == before + part && line[n..] == after;
    assert TrimEnd(line)[..n] == line[..n];
    assert rest == line[n..|TrimEnd(line)|];
  }

  /** `str::trim_start`. */
  function TrimStart(s: string): string {
    if s == [] then []
    else if IsWhitespace(s[0]) then TrimStart(s[1..])
    else s
  }

  function Trim(s: string): string {
    TrimEnd(TrimStart(s))
  }

  /** Equal, the case of ASCII letters aside. */
  predicate SameIgnoringCase(s: string, t: string) {
    |s| == |t| && forall i :: 0 <= i < |s| ==> SameLetter(s[i], t[i])
  }

  predicate SameLetter(a: char, b: char) {
    a == b || ('a' <= a <= 'z' && a as int - b as int == 32) || ('a' <= b <= 'z' && b as int - a as int == 32)
  }

  predicate IsDigit(c: char) {
    '0' <= c <= '9'
  }

  function DigitChar(d: nat): (c: char)
    requires d < 10
    ensures IsDigit(c)
  {
    ('0' as int + d) as char
  }

  function DigitValue(c: char): nat
    requires IsDigit(c)
  {
    c as int - '0' as int
  }

  /** Decimal text of a natural number, as `format!("{}", n)` writes it. */
  function Decimal(n: nat): (s: string)
    ensures |s| >= 1 && forall i :: 0 <= i < |s| ==> IsDigit(s[i])
  {
    if n < 10 then [DigitChar(n)] else Decimal(n / 10) + [DigitChar(n % 10)]
  }

  /** The number a digit string denotes. */
  function DigitsValue(s: string): nat
    requires forall i :: 0 <= i < |s| ==> IsDigit(s[i])
  {
    if s == [] then 0 else 10 * DigitsValue(s[..|s| - 1]) + DigitValue(s[|s| - 1])
  }

  lemma {:induction false} DecimalValue(n: nat)
    ensures DigitsValue(Decimal(n)) == n
  {
    if n < 10 {
      assert [DigitChar(n)][..0] == [];
    } else {
      DecimalValue(n / 10);
      var front := Decimal(n / 10);
      assert (front + [DigitChar(n % 10)])[..|front|] == front;
      assert 10 * (n / 10) + n % 10 == n;
    }
  }

  predicate IsNumber(s: string) {
    s != "" && forall i :: 0 <= i < |s| ==> IsDigit(s[i])
  }

  /** `str::parse::<u16>`: an optional `+`, then one or more digits, at most 65535. */
  function ParseU16(s: string): (r: Option<nat>)
    ensures r.Some? ==> r.value < 0x1_0000
  {
    var digits := if s != [] && s[0] == '+' then s[1..] else s;
    if !IsNumber(digits) then None
    else
      var n := DigitsValue(digits);
      if n < 0x1_0000 then Some(n) else None
  }

  /** A number in decimal parses back if it fits, and is refused if it does not. */
  lemma DecimalRoundTrip(n: nat)
    ensures ParseU16(Decimal(n)) == if n <= 65535 then Some(n) else None
  {
    DecimalValue(n);
    assert IsDigit(Decimal(n)[0]);
  }
}
