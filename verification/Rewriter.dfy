/** The relay's HTML rewriting: two scanners that insert an instance prefix in front of
    root-absolute URLs, one for quoted attributes and one for the `"url":"` fields of the
    bootstrap document.

    The scanners walk over the text by position. Their specification does not: it cuts the
    text at every double quote and says which pieces are tracked values. The two views are
    connected by `RewriteAttributes` and `RewriteBootstrapUrls`; every property of the
    rewrite is then a property of the pieces. */
module Rewriter {
  import opened Text

  const QUOTE: char := '"'
  const KEY: string := "\"url\":\""

  predicate IsAttribute(a: string) {
    a == "src=\"" || a == "href=\"" || a == "action=\""
  }

  /** A path falls under a prefix on a segment boundary. */
  predicate PathMatches(prefix: string, path: string) {
    || prefix == ""
    || (StartsWith(path, prefix) && (path[|prefix|..] == "" || path[|prefix|..][0] == '/'))
  }

  predicate NeedsPrefix(value: string, prefix: string) {
    StartsWith(value, "/") && !StartsWith(value, "//") && !PathMatches(prefix, value)
  }

  function Fix(value: string, prefix: string): string {
    if NeedsPrefix(value, prefix) then prefix + value else value
  }

  // ---------------------------------------------------------------- specification

  predicate EndsWithAttribute(seg: string) {
    EndsWith(seg, "src=") || EndsWith(seg, "href=") || EndsWith(seg, "action=")
  }

  /** Which quote-delimited pieces are terminated values of a tracked attribute. `armed`
      says that the piece at the front follows an opening attribute quote. A piece that is
      itself a value opens no further attribute, and the last piece is never terminated. */
  function AttributeFlags(segs: seq<string>, armed: bool): (flags: seq<bool>)
    ensures |flags| == |segs|
  {
    if |segs| == 0 then []
    else if |segs| == 1 then [false]
    else [armed] + AttributeFlags(segs[1..], !armed && EndsWithAttribute(segs[0]))
  }

  /** How much of `"url":"` the pieces before the current one have supplied. */
  datatype KeyState = Fresh | Open | SawName | Armed

  function NextKeyState(st: KeyState, seg: string): KeyState {
    match st
    case Fresh => Open
    case Armed => Fresh
    case Open => if seg == "url" then SawName else Open
    case SawName => if seg == ":" then Armed else if seg == "url" then SawName else Open
  }

  /** Which pieces are terminated values of a `"url":"` field. */
  function KeyFlags(segs: seq<string>, st: KeyState): (flags: seq<bool>)
    ensures |flags| == |segs|
  {
    if |segs| == 0 then []
    else if |segs| == 1 then [false]
    else [st == Armed] + KeyFlags(segs[1..], NextKeyState(st, segs[0]))
  }

  /** Fix the flagged pieces. */
  function Apply(segs: seq<string>, flags: seq<bool>, prefix: string): (r: seq<string>)
    requires |flags| == |segs|
  {
    seq(|segs|, i requires 0 <= i < |segs| => if flags[i] then Fix(segs[i], prefix) else segs[i])
  }

  function AttributeText(segs: seq<string>, armed: bool, prefix: string): string
    requires |segs| >= 1
  {
    Join(Apply(segs, AttributeFlags(segs, armed), prefix), QUOTE)
  }

  function KeyText(segs: seq<string>, st: KeyState, prefix: string): string
    requires |segs| >= 1
  {
    Join(Apply(segs, KeyFlags(segs, st), prefix), QUOTE)
  }

  function Attributes(html: string, prefix: string): string {
    AttributeText(Split(html, QUOTE), false, prefix)
  }

  function Bootstrap(html: string, prefix: string): string {
    KeyText(Split(html, QUOTE), Fresh, prefix)
  }

  /** The whole rewrite: attributes first, then the bootstrap document. */
  function Rewrite(html: string, prefix: string): string {
    Bootstrap(Attributes(html, prefix), prefix)
  }

  // ------------------------------------------- which pieces are tracked, declaratively

  /** A piece is a tracked attribute value iff it is closed by a quote and the piece before
      it ends in a tracked attribute name and is not itself such a value. */
  lemma {:induction false} AttributeFlagsMeaning(segs: seq<string>, armed: bool, j: nat)
    requires j < |segs|
    ensures AttributeFlags(segs, armed)[j] <==>
            j + 1 < |segs| &&
            if j == 0 then armed
            else (EndsWith(segs[j - 1], "src=") || EndsWith(segs[j - 1], "href=") || EndsWith(segs[j - 1], "action="))
                 && !AttributeFlags(segs, armed)[j - 1]
  {
    if j >= 1 && |segs| > 1 {
      AttributeFlagsMeaning(segs[1..], !armed && EndsWithAttribute(segs[0]), j - 1);
    }
  }

  /** A piece is a bootstrap URL iff it is closed by a quote, the two pieces before it spell
      the key, and the key's opening quote was not used up by an earlier value. */
  lemma {:induction false} KeyFlagsMeaning(segs: seq<string>, j: nat)
    requires j < |segs|
    ensures KeyFlags(segs, Fresh)[j] <==>
            && 3 <= j && j + 1 < |segs| && segs[j - 2] == "url" && segs[j - 1] == ":"
            && !KeyFlags(segs, Fresh)[j - 2] && !KeyFlags(segs, Fresh)[j - 3]
  {
    if j >= 3 {
      KeyFlagsFrom(segs, Fresh, j);
    } else if |segs| > 1 {
      var f, g := KeyFlags(segs, Fresh), KeyFlags(segs[1..], Open);
      assert f == [false] + g;
      if |segs| > 2 {
        var st := NextKeyState(Open, segs[1]);
        assert segs[1..][1..] == segs[2..];
        assert g == [false] + KeyFlags(segs[2..], st);
        assert st != Armed;
        assert !KeyFlags(segs[2..], st)[0];
      }
    }
  }

  lemma {:induction false} KeyFlagsFrom(segs: seq<string>, st: KeyState, j: nat)
    requires 3 <= j < |segs|
    ensures KeyFlags(segs, st)[j] <==>
            && j + 1 < |segs| && segs[j - 2] == "url" && segs[j - 1] == ":"
            && !KeyFlags(segs, st)[j - 2] && !KeyFlags(segs, st)[j - 3]
  {
    var f := KeyFlags(segs, st);
    var st1 := NextKeyState(st, segs[0]);
    var st2 := NextKeyState(st1, segs[1]);
    var st3 := NextKeyState(st2, segs[2]);
    assert f == [st == Armed] + KeyFlags(segs[1..], st1);
    if j > 3 {
      KeyFlagsFrom(segs[1..], st1, j - 1);
      assert f[1..] == KeyFlags(segs[1..], st1);
    } else {
      assert segs[1..][1..] == segs[2..] && segs[2..][1..] == segs[3..];
      assert KeyFlags(segs[1..], st1) == [st1 == Armed] + KeyFlags(segs[2..], st2);
      assert KeyFlags(segs[2..], st2) == [st2 == Armed] + KeyFlags(segs[3..], st3);
    }
  }

  // ------------------------------------------------------- the scanners, by position

  /** The earliest tracked attribute in the text, with the name that was found. */
  function EarliestAttribute(s: string): (r: Option<(nat, string)>)
    ensures r.Some? ==> IsAttribute(r.value.1) && OccursAt(s, r.value.1, r.value.0)
  {
    Earlier(Candidate(s, "src=\""), Earlier(Candidate(s, "href=\""), Candidate(s, "action=\"")))
  }

  function Candidate(s: string, attr: string): Option<(nat, string)> {
    match Find(s, attr)
    case None => None
    case Some(i) => Some((i, attr))
  }

  function Earlier(a: Option<(nat, string)>, b: Option<(nat, string)>): Option<(nat, string)> {
    if a.None? then b
    else if b.None? || a.value.0 <= b.value.0 then a
    else b
  }

  /** No tracked attribute occurs before the one found. */
  lemma EarliestIsFirst(s: string, a: string, j: nat)
    requires IsAttribute(a) && OccursAt(s, a, j)
    ensures EarliestAttribute(s).Some? && EarliestAttribute(s).value.0 <= j
  {
  }

  method RewriteAttributes(html: string, prefix: string) returns (out: string)
    ensures out == Attributes(html, prefix)
  {
    out := "";
    var rest := html;
    while true
      invariant out + Attributes(rest, prefix) == Attributes(html, prefix)
      decreases |rest|
    {
      match EarliestAttribute(rest) {
        case None =>
          NoAttribute(rest, prefix);
          out := out + rest;
          return;
        case Some((index, attr)) =>
          ghost var before := out;
          var valueStart := index + |attr|;
          out := out + rest[..valueStart];
          var afterQuote := rest[valueStart..];
          AttributeFound(rest, index, attr, prefix);
          match IndexOf(afterQuote, QUOTE) {
            case None =>
              LastPiece(afterQuote, prefix);
              Associate(before, rest[..valueStart], afterQuote, "", "");
              out := out + afterQuote;
              return;
            case Some(end) =>
              var value := afterQuote[..end];
              AttributeValue(afterQuote, end, prefix);
              if NeedsPrefix(value, prefix) {
                out := out + prefix;
              }
              out := out + value;
              out := out + [QUOTE];
              Emitted(before, rest[..valueStart], value, prefix, Attributes(afterQuote[end + 1..], prefix));
              rest := afterQuote[end + 1..];
          }
      }
    }
  }

  method RewriteBootstrapUrls(html: string, prefix: string) returns (out: string)
    ensures out == Bootstrap(html, prefix)
  {
    out := "";
    var rest := html;
    while true
      invariant out + Bootstrap(rest, prefix) == Bootstrap(html, prefix)
      decreases |rest|
    {
      match Find(rest, KEY) {
        case None =>
          NoKey(rest, prefix);
          out := out + rest;
          return;
        case Some(index) =>
          ghost var before := out;
          var valueStart := index + |KEY|;
          out := out + rest[..valueStart];
          var afterQuote := rest[valueStart..];
          KeyFound(rest, index, prefix);
          match IndexOf(afterQuote, QUOTE) {
            case None =>
              LastPiece(afterQuote, prefix);
              Associate(before, rest[..valueStart], afterQuote, "", "");
              out := out + afterQuote;
              return;
            case Some(end) =>
              var value := afterQuote[..end];
              KeyValue(afterQuote, end, prefix);
              if NeedsPrefix(value, prefix) {
                out := out + prefix;
              }
              out := out + value;
              out := out + [QUOTE];
              Emitted(before, rest[..valueStart], value, prefix, Bootstrap(afterQuote[end + 1..], prefix));
              rest := afterQuote[end + 1..];
          }
      }
    }
  }

  method RewriteRootAbsoluteUrls(html: string, prefix: string) returns (out: string)
    ensures out == Rewrite(html, prefix)
  {
    if prefix == "" {
      EmptyPrefix(html);
      return html;
    }
    var attributes := RewriteAttributes(html, prefix);
    out := RewriteBootstrapUrls(attributes, prefix);
  }

  // ------------------------------------------- positions and pieces agree (lemmas)

  /** One piece peeled off the front. */
  lemma AttributeTextCons(seg: string, rest: seq<string>, armed: bool, prefix: string)
    requires |rest| >= 1
    ensures AttributeText([seg] + rest, armed, prefix)
         == (if armed then Fix(seg, prefix) else seg) + [QUOTE]
            + AttributeText(rest, !armed && EndsWithAttribute(seg), prefix)
  {
    var segs := [seg] + rest;
    assert segs[1..] == rest;
    var flags := AttributeFlags(segs, armed);
    var tail := AttributeFlags(rest, !armed && EndsWithAttribute(seg));
    assert flags == [armed] + tail;
    assert Apply(segs, flags, prefix)[1..] == Apply(rest, tail, prefix);
  }

  lemma KeyTextCons(seg: string, rest: seq<string>, st: KeyState, prefix: string)
    requires |rest| >= 1
    ensures KeyText([seg] + rest, st, prefix)
         == (if st == Armed then Fix(seg, prefix) else seg) + [QUOTE]
            + KeyText(rest, NextKeyState(st, seg), prefix)
  {
    var segs := [seg] + rest;
    assert segs[1..] == rest;
    var flags := KeyFlags(segs, st);
    var tail := KeyFlags(rest, NextKeyState(st, seg));
    assert flags == [st == Armed] + tail;
    assert Apply(segs, flags, prefix)[1..] == Apply(rest, tail, prefix);
  }

  /** An unterminated value is left alone by both scanners. */
  lemma LastPiece(s: string, prefix: string)
    requires QUOTE !in s
    ensures forall armed :: AttributeText(Split(s, QUOTE), armed, prefix) == s
    ensures forall st :: KeyText(Split(s, QUOTE), st, prefix) == s
  {
    SplitSingle(s, QUOTE);
  }

  /** A terminated value is fixed and scanning starts afresh after its quote. */
  lemma AttributeValue(s: string, end: nat, prefix: string)
    requires IndexOf(s, QUOTE) == Some(end)
    ensures AttributeText(Split(s, QUOTE), true, prefix)
         == Fix(s[..end], prefix) + [QUOTE] + Attributes(s[end + 1..], prefix)
  {
    CutAtQuote(s, end);
    AttributeTextCons(s[..end], Split(s[end + 1..], QUOTE), true, prefix);
  }

  lemma KeyValue(s: string, end: nat, prefix: string)
    requires IndexOf(s, QUOTE) == Some(end)
    ensures KeyText(Split(s, QUOTE), Armed, prefix)
         == Fix(s[..end], prefix) + [QUOTE] + Bootstrap(s[end + 1..], prefix)
  {
    CutAtQuote(s, end);
    KeyTextCons(s[..end], Split(s[end + 1..], QUOTE), Armed, prefix);
  }

  lemma Associate(a: string, b: string, c: string, d: string, e: string)
    ensures a + (b + (c + d + e)) == a + b + c + d + e
    ensures a + (b + c) == a + b + c
  {
  }

  /** What one turn of either scanner appends, against what the specification says. */
  lemma Emitted(out: string, head: string, value: string, prefix: string, tail: string)
    ensures out + (head + (Fix(value, prefix) + [QUOTE] + tail))
         == (if NeedsPrefix(value, prefix) then out + head + prefix else out + head) + value + [QUOTE] + tail
  {
    Associate(out, head, Fix(value, prefix), [QUOTE], tail);
    Associate(out, head, prefix, value, "");
    assert prefix + value + "" == prefix + value;
    assert out + head + prefix + value + "" == out + head + prefix + value;
    Associate(out + head, prefix, value, "", "");
  }

  /** Cutting a text at its first quote. */
  lemma CutAtQuote(s: string, q: nat)
    requires IndexOf(s, QUOTE) == Some(q)
    ensures s == s[..q] + [QUOTE] + s[q + 1..]
    ensures Split(s, QUOTE) == [s[..q]] + Split(s[q + 1..], QUOTE)
  {
    assert s == s[..q] + [QUOTE] + s[q + 1..];
    SplitCons(s[..q], s[q + 1..], QUOTE);
  }

  /** A piece that ends in a tracked name is the front of an occurrence. */
  lemma EndOccurs(s: string, q: nat) returns (attr: string)
    requires q < |s| && s[q] == QUOTE && EndsWithAttribute(s[..q])
    ensures IsAttribute(attr) && |attr| <= q + 1 && OccursAt(s, attr, q + 1 - |attr|)
  {
    var name := if EndsWith(s[..q], "src=") then "src="
                else if EndsWith(s[..q], "href=") then "href=" else "action=";
    attr := name + [QUOTE];
    EndOccursAs(s, q, name);
  }

  lemma EndOccursAs(s: string, q: nat, name: string)
    requires q < |s| && s[q] == QUOTE && EndsWith(s[..q], name)
    ensures OccursAt(s, name + [QUOTE], q - |name|)
  {
    var i := q - |name|;
    assert s[i..q + 1] == s[i..q] + [s[q]];
    assert s[i..q] == s[..q][q - |name|..];
  }

  /** And every occurrence ends in its only quote. */
  lemma OccurrenceEnds(s: string, name: string, i: nat)
    requires QUOTE !in name && OccursAt(s, name + [QUOTE], i)
    ensures s[i + |name|] == QUOTE && EndsWith(s[..i + |name|], name)
    ensures forall k :: i <= k < i + |name| ==> s[k] != QUOTE
  {
    var q := i + |name|;
    var attr := name + [QUOTE];
    assert s[q] == s[i..i + |attr|][|name|];
    assert s[..q][i..] == s[i..i + |attr|][..|name|];
    assert forall k :: i <= k < q ==> s[k] == s[i..i + |attr|][k - i] == name[k - i];
  }

  function Shifted(r: Option<(nat, string)>, cut: nat): Option<(nat, string)>
    requires r.Some? ==> cut <= r.value.0
  {
    match r
    case None => None
    case Some((i, attr)) => Some((i - cut, attr))
  }

  lemma EarlierShifts(a: Option<(nat, string)>, b: Option<(nat, string)>, cut: nat)
    requires a.Some? ==> cut <= a.value.0
    requires b.Some? ==> cut <= b.value.0
    ensures Earlier(Shifted(a, cut), Shifted(b, cut)) == Shifted(Earlier(a, b), cut)
  {
  }

  /** A search that finds nothing before a cut finds the same thing after it. */
  lemma CandidateInTail(s: string, cut: nat, attr: string)
    requires cut <= |s| && (Find(s, attr).Some? ==> cut <= Find(s, attr).value)
    ensures Candidate(s, attr).Some? ==> cut <= Candidate(s, attr).value.0
    ensures Candidate(s[cut..], attr) == Shifted(Candidate(s, attr), cut)
  {
    match Find(s, attr)
    case None => AbsentInTail(s, cut, attr);
    case Some(index) => FoundInTail(s, cut, attr, index);
  }

  /** None of the three searches finds anything before the earliest attribute. */
  lemma NotBefore(s: string, cut: nat, a: string)
    requires EarliestAttribute(s).Some? && IsAttribute(a) && cut <= EarliestAttribute(s).value.0
    ensures Find(s, a).Some? ==> cut <= Find(s, a).value
  {
    if Find(s, a).Some? {
      EarliestIsFirst(s, a, Find(s, a).value);
    }
  }

  lemma EarliestOfThree(s: string, cut: nat, tail: string, a: string, b: string, c: string)
    requires cut <= |s| && tail == s[cut..]
    requires Find(s, a).Some? ==> cut <= Find(s, a).value
    requires Find(s, b).Some? ==> cut <= Find(s, b).value
    requires Find(s, c).Some? ==> cut <= Find(s, c).value
    ensures var e := Earlier(Candidate(s, a), Earlier(Candidate(s, b), Candidate(s, c)));
      && (e.Some? ==> cut <= e.value.0)
      && Earlier(Candidate(tail, a), Earlier(Candidate(tail, b), Candidate(tail, c))) == Shifted(e, cut)
  {
    CandidateInTail(s, cut, a);
    CandidateInTail(s, cut, b);
    CandidateInTail(s, cut, c);
    EarlierShifts(Candidate(s, b), Candidate(s, c), cut);
    EarlierShifts(Candidate(s, a), Earlier(Candidate(s, b), Candidate(s, c)), cut);
  }

  lemma EarliestInTail(s: string, cut: nat, index: nat, attr: string)
    requires EarliestAttribute(s) == Some((index, attr)) && cut <= index && cut <= |s|
    ensures EarliestAttribute(s[cut..]) == Some((index - cut, attr))
  {
    NotBefore(s, cut, "src=\"");
    NotBefore(s, cut, "href=\"");
    NotBefore(s, cut, "action=\"");
    EarliestOfThree(s, cut, s[cut..], "src=\"", "href=\"", "action=\"");
  }

  lemma NoneInTail(s: string, cut: nat)
    requires EarliestAttribute(s) == None && cut <= |s|
    ensures EarliestAttribute(s[cut..]) == None
  {
    AbsentInTail(s, cut, "src=\"");
    AbsentInTail(s, cut, "href=\"");
    AbsentInTail(s, cut, "action=\"");
  }

  lemma AttributeName(attr: string) returns (name: string)
    requires IsAttribute(attr)
    ensures attr == name + [QUOTE] && QUOTE !in name
    ensures name == "src=" || name == "href=" || name == "action="
  {
    name := attr[..|attr| - 1];
  }

  /** Where the first quote is, as seen from the earliest attribute: either it is that
      attribute's own, or it comes before the attribute and opens nothing. */
  lemma FirstQuoteBefore(rest: string, index: nat, attr: string) returns (q: nat, opens: bool)
    requires EarliestAttribute(rest) == Some((index, attr))
    ensures IndexOf(rest, QUOTE) == Some(q) && opens == EndsWithAttribute(rest[..q])
    ensures if opens then q + 1 == index + |attr| else q < index
  {
    q := QuoteOfOccurrence(rest, index, attr);
    opens := EndsWithAttribute(rest[..q]);
    if opens {
      NotEndedBefore(rest, index, attr, q);
    }
  }

  lemma QuoteOfOccurrence(rest: string, index: nat, attr: string) returns (q: nat)
    requires IsAttribute(attr) && OccursAt(rest, attr, index)
    ensures IndexOf(rest, QUOTE) == Some(q)
    ensures q < index || (q + 1 == index + |attr| && EndsWithAttribute(rest[..q]))
  {
    var name := AttributeName(attr);
    OccurrenceEnds(rest, name, index);
    q := IndexOf(rest, QUOTE).value;
    FirstAtOrBefore(rest, q, index + |name|);
  }

  lemma FirstAtOrBefore(s: string, q: nat, k: nat)
    requires IndexOf(s, QUOTE) == Some(q) && k < |s| && s[k] == QUOTE
    ensures q <= k
  {
    assert forall i :: 0 <= i < q ==> s[i] == s[..q][i];
  }

  lemma NotEndedBefore(rest: string, index: nat, attr: string, q: nat)
    requires EarliestAttribute(rest) == Some((index, attr))
    requires q < |rest| && rest[q] == QUOTE && EndsWithAttribute(rest[..q])
    ensures index <= q
  {
    var other := EndOccurs(rest, q);
    EarliestIsFirst(rest, other, q + 1 - |other|);
  }

  lemma {:induction false} NoAttribute(rest: string, prefix: string)
    requires EarliestAttribute(rest) == None
    ensures Attributes(rest, prefix) == rest
    decreases |rest|
  {
    match IndexOf(rest, QUOTE)
    case None => LastPiece(rest, prefix);
    case Some(q) =>
      NotEnded(rest, q);
      NoneInTail(rest, q + 1);
      NoAttribute(rest[q + 1..], prefix);
      AttributePeel(rest, q, prefix);
      var before, after := CutAfterQuote(rest, q);
  }

  lemma NotEnded(rest: string, q: nat)
    requires EarliestAttribute(rest) == None && q < |rest| && rest[q] == QUOTE
    ensures !EndsWithAttribute(rest[..q])
  {
    if EndsWithAttribute(rest[..q]) {
      var other := EndOccurs(rest, q);
      EarliestIsFirst(rest, other, q + 1 - |other|);
    }
  }

  lemma CutAfterQuote(s: string, q: nat) returns (before: string, after: string)
    requires IndexOf(s, QUOTE) == Some(q)
    ensures before == s[..q] + [QUOTE] && after == s[q + 1..] && s == before + after && |before| == q + 1
  {
    before, after := s[..q] + [QUOTE], s[q + 1..];
  }

  lemma {:induction false} AttributeScan(rest: string, index: nat, attr: string, prefix: string) returns (before: string, after: string)
    requires EarliestAttribute(rest) == Some((index, attr))
    ensures rest == before + after && |before| == index + |attr|
    ensures Attributes(rest, prefix) == before + AttributeText(Split(after, QUOTE), true, prefix)
    decreases |rest|
  {
    var q, opens := FirstQuoteBefore(rest, index, attr);
    AttributePeelAs(rest, q, prefix, opens);
    if opens {
      before, after := CutAfterQuote(rest, q);
    } else {
      EarliestInTail(rest, q + 1, index, attr);
      before, after := AttributeScan(rest[q + 1..], index - (q + 1), attr, prefix);
      before := Rejoin(rest, q, before, after, AttributeText(Split(after, QUOTE), true, prefix));
    }
  }

  lemma AttributePeelAs(rest: string, q: nat, prefix: string, opens: bool)
    requires IndexOf(rest, QUOTE) == Some(q) && opens == EndsWithAttribute(rest[..q])
    ensures Attributes(rest, prefix)
         == rest[..q] + [QUOTE] + AttributeText(Split(rest[q + 1..], QUOTE), opens, prefix)
  {
    AttributePeel(rest, q, prefix);
  }

  lemma AttributePeel(rest: string, q: nat, prefix: string)
    requires IndexOf(rest, QUOTE) == Some(q)
    ensures Attributes(rest, prefix)
         == rest[..q] + [QUOTE]
            + AttributeText(Split(rest[q + 1..], QUOTE), EndsWithAttribute(rest[..q]), prefix)
  {
    CutAtQuote(rest, q);
    AttributeTextCons(rest[..q], Split(rest[q + 1..], QUOTE), false, prefix);
  }

  lemma AttributeFound(rest: string, index: nat, attr: string, prefix: string)
    requires EarliestAttribute(rest) == Some((index, attr))
    ensures Attributes(rest, prefix)
         == rest[..index + |attr|] + AttributeText(Split(rest[index + |attr|..], QUOTE), true, prefix)
  {
    var before, after := AttributeScan(rest, index, attr, prefix);
    CutBack(rest, before, after);
  }

  lemma CutBack(s: string, before: string, after: string)
    requires s == before + after
    ensures before == s[..|before|] && after == s[|before|..]
  {
  }

  /** Occurrences after a cut are occurrences of the whole. */
  lemma OccursInTail(s: string, cut: nat, pat: string, j: nat)
    requires cut <= |s|
    ensures OccursAt(s[cut..], pat, j) <==> OccursAt(s, pat, cut + j)
  {
    if cut + j + |pat| <= |s| {
      assert s[cut..][j..j + |pat|] == s[cut + j..cut + j + |pat|];
    }
  }

  /** A key whose name has been seen but whose colon is missing is no key. */
  lemma BrokenKey(segs: seq<string>, prefix: string)
    requires |segs| >= 1 && (|segs| == 1 || segs[0] != ":")
    ensures KeyText(segs, SawName, prefix) == KeyText(segs, Open, prefix)
  {
  }

  /** The pieces of a text that starts `url":"`. */
  lemma KeyPieces(after: string)
    ensures Split("url\":\"" + after, QUOTE) == ["url", ":"] + Split(after, QUOTE)
  {
    assert "url\":\"" + after == "url" + [QUOTE] + (":" + [QUOTE] + after);
    SplitCons("url", ":" + [QUOTE] + after, QUOTE);
    SplitCons(":", after, QUOTE);
  }

  /** The key at the front of `"` + t. */
  lemma KeyAtFront(t: string)
    ensures OccursAt([QUOTE] + t, KEY, 0) <==> StartsWith(t, "url\":\"")
  {
    var s := [QUOTE] + t;
    assert KEY == [QUOTE] + "url\":\"";
    if |t| >= 6 {
      assert s[..7] == [QUOTE] + t[..6];
      assert s[..7][1..] == t[..6];
    }
  }

  /** The same, in pieces. */
  lemma KeyAtFrontPieces(t: string)
    ensures StartsWith(t, "url\":\"") <==>
            var segs := Split(t, QUOTE); |segs| >= 3 && segs[0] == "url" && segs[1] == ":"
  {
    if StartsWith(t, "url\":\"") {
      KeyPieces(t[6..]);
      assert t == "url\":\"" + t[6..];
    }
    var segs := Split(t, QUOTE);
    if |segs| >= 3 && segs[0] == "url" && segs[1] == ":" {
      JoinKey(segs);
    }
  }

  lemma JoinKey(segs: seq<string>)
    requires |segs| >= 3 && segs[0] == "url" && segs[1] == ":"
    ensures Join(segs, QUOTE) == "url\":\"" + Join(segs[2..], QUOTE)
  {
    assert segs[1..][1..] == segs[2..];
    assert Join(segs[1..], QUOTE) == ":" + [QUOTE] + Join(segs[2..], QUOTE);
  }

  /** Without a key at the front of `"` + t, the first piece of t is copied and the scan is
      again just past a quote. */
  lemma KeyPeel(t: string, q: nat, prefix: string)
    requires IndexOf(t, QUOTE) == Some(q) && !OccursAt([QUOTE] + t, KEY, 0)
    ensures KeyText(Split(t, QUOTE), Open, prefix)
         == t[..q] + [QUOTE] + KeyText(Split(t[q + 1..], QUOTE), Open, prefix)
  {
    CutAtQuote(t, q);
    KeyAtFront(t);
    KeyAtFrontPieces(t);
    var segs := Split(t[q + 1..], QUOTE);
    KeyTextCons(t[..q], segs, Open, prefix);
    if t[..q] == "url" {
      BrokenKey(segs, prefix);
    }
  }

  lemma {:induction false} NoKeyOpen(t: string, prefix: string)
    requires Find([QUOTE] + t, KEY) == None
    ensures KeyText(Split(t, QUOTE), Open, prefix) == t
    decreases |t|
  {
    match IndexOf(t, QUOTE)
    case None => LastPiece(t, prefix);
    case Some(q) =>
      var before, after := CutAfterQuote(t, q);
      StillAbsent(t, q, prefix);
      NoKeyOpen(after, prefix);
  }

  lemma StillAbsent(t: string, q: nat, prefix: string)
    requires Find([QUOTE] + t, KEY) == None && IndexOf(t, QUOTE) == Some(q)
    ensures Find([QUOTE] + t[q + 1..], KEY) == None
    ensures KeyText(Split(t, QUOTE), Open, prefix) == t[..q] + [QUOTE] + KeyText(Split(t[q + 1..], QUOTE), Open, prefix)
  {
    AbsentAfterQuote(t, q);
    KeyPeel(t, q, prefix);
  }

  lemma AbsentAfterQuote(t: string, q: nat)
    requires Find([QUOTE] + t, KEY) == None && q < |t|
    ensures !OccursAt([QUOTE] + t, KEY, 0)
    ensures t[q] == QUOTE ==> Find([QUOTE] + t[q + 1..], KEY) == None
  {
    if t[q] == QUOTE {
      assert ([QUOTE] + t)[q + 1..] == [QUOTE] + t[q + 1..];
      AbsentInTail([QUOTE] + t, q + 1, KEY);
    }
  }

  lemma AbsentInTail(s: string, cut: nat, pat: string)
    requires Find(s, pat) == None && cut <= |s|
    ensures Find(s[cut..], pat) == None
  {
    if Find(s[cut..], pat).Some? {
      OccursInTail(s, cut, pat, Find(s[cut..], pat).value);
    }
  }

  lemma {:induction false} KeyScanOpen(t: string, index: nat, prefix: string) returns (before: string, after: string)
    requires Find([QUOTE] + t, KEY) == Some(index)
    ensures t == before + after && |before| == index + 6
    ensures KeyText(Split(t, QUOTE), Open, prefix) == before + KeyText(Split(after, QUOTE), Armed, prefix)
    decreases |t|
  {
    if index == 0 {
      before, after := KeyFirst(t, prefix);
    } else {
      var q := KeyNotAtStart(t, index);
      before, after := KeyScanOpen(t[q + 1..], index - (q + 1), prefix);
      KeyPeel(t, q, prefix);
      before := Rejoin(t, q, before, after, KeyText(Split(after, QUOTE), Armed, prefix));
    }
  }

  lemma KeyFirst(t: string, prefix: string) returns (before: string, after: string)
    requires OccursAt([QUOTE] + t, KEY, 0)
    ensures t == before + after && |before| == 6
    ensures KeyText(Split(t, QUOTE), Open, prefix) == before + KeyText(Split(after, QUOTE), Armed, prefix)
  {
    KeyAtFront(t);
    before, after := "url\":\"", t[6..];
    KeyAtStart(after, prefix);
  }

  /** Put the first piece and its quote back in front. */
  lemma Rejoin(t: string, q: nat, head: string, after: string, text: string) returns (before: string)
    requires IndexOf(t, QUOTE) == Some(q) && t[q + 1..] == head + after
    ensures t == before + after && |before| == q + 1 + |head|
    ensures t[..q] + [QUOTE] + (head + text) == before + text
  {
    before := t[..q] + [QUOTE] + head;
    assert t == t[..q] + [QUOTE] + t[q + 1..];
    Associate(t[..q] + [QUOTE], head, after, "", "");
    Associate(t[..q] + [QUOTE], head, text, "", "");
  }

  lemma KeyNotAtStart(t: string, index: nat) returns (q: nat)
    requires Find([QUOTE] + t, KEY) == Some(index) && index > 0
    ensures IndexOf(t, QUOTE) == Some(q) && q < index && !OccursAt([QUOTE] + t, KEY, 0)
    ensures Find([QUOTE] + t[q + 1..], KEY) == Some(index - (q + 1))
  {
    var s := [QUOTE] + t;
    assert s[index..index + 7][0] == QUOTE;
    assert t[index - 1] == QUOTE;
    q := IndexOf(t, QUOTE).value;
    assert s[q + 1..] == [QUOTE] + t[q + 1..];
    FoundInTail(s, q + 1, KEY, index);
  }

  lemma KeyAtStart(after: string, prefix: string)
    ensures KeyText(Split("url\":\"" + after, QUOTE), Open, prefix)
         == "url\":\"" + KeyText(Split(after, QUOTE), Armed, prefix)
  {
    KeyPieces(after);
    TwoPieces("url", ":", Split(after, QUOTE), prefix);
    assert "url" + [QUOTE] + ":" + [QUOTE] == "url\":\"";
  }

  lemma TwoPieces(a: string, b: string, rest: seq<string>, prefix: string)
    requires |rest| >= 1 && NextKeyState(Open, a) == SawName && NextKeyState(SawName, b) == Armed
    ensures KeyText([a, b] + rest, Open, prefix)
         == a + [QUOTE] + b + [QUOTE] + KeyText(rest, Armed, prefix)
  {
    assert [a, b] + rest == [a] + ([b] + rest);
    KeyTextCons(a, [b] + rest, Open, prefix);
    KeyTextCons(b, rest, SawName, prefix);
    Associate(a + [QUOTE], b, [QUOTE], KeyText(rest, Armed, prefix), "");
    var text := KeyText(rest, Armed, prefix);
    assert [QUOTE] + text + "" == [QUOTE] + text;
    assert a + [QUOTE] + b + [QUOTE] + text + "" == a + [QUOTE] + b + [QUOTE] + text;
    Associate(b, [QUOTE], text, "", "");
  }

  lemma FoundInTail(s: string, cut: nat, pat: string, index: nat)
    requires Find(s, pat) == Some(index) && cut <= index && cut <= |s|
    ensures Find(s[cut..], pat) == Some(index - cut)
  {
    OccursInTail(s, cut, pat, index - cut);
    var j := Find(s[cut..], pat).value;
    OccursInTail(s, cut, pat, j);
  }

  lemma NoKey(rest: string, prefix: string)
    requires Find(rest, KEY) == None
    ensures Bootstrap(rest, prefix) == rest
  {
    match IndexOf(rest, QUOTE)
    case None => LastPiece(rest, prefix);
    case Some(q) =>
      BootstrapPeel(rest, q, prefix);
      assert rest[q..] == [QUOTE] + rest[q + 1..];
      AbsentInTail(rest, q, KEY);
      NoKeyOpen(rest[q + 1..], prefix);
      var before, after := CutAfterQuote(rest, q);
  }

  lemma KeyFound(rest: string, index: nat, prefix: string)
    requires Find(rest, KEY) == Some(index)
    ensures Bootstrap(rest, prefix)
         == rest[..index + 7] + KeyText(Split(rest[index + 7..], QUOTE), Armed, prefix)
  {
    var before, after := KeyFoundParts(rest, index, prefix);
    CutBack(rest, before, after);
  }

  lemma KeyFoundParts(rest: string, index: nat, prefix: string) returns (before: string, after: string)
    requires Find(rest, KEY) == Some(index)
    ensures rest == before + after && |before| == index + 7
    ensures Bootstrap(rest, prefix) == before + KeyText(Split(after, QUOTE), Armed, prefix)
  {
    var q := FirstQuote(rest, index);
    before, after := KeyScanOpen(rest[q + 1..], index - q, prefix);
    BootstrapPeel(rest, q, prefix);
    before := Rejoin(rest, q, before, after, KeyText(Split(after, QUOTE), Armed, prefix));
  }

  lemma FirstQuote(rest: string, index: nat) returns (q: nat)
    requires Find(rest, KEY) == Some(index)
    ensures IndexOf(rest, QUOTE) == Some(q) && q <= index
    ensures Find([QUOTE] + rest[q + 1..], KEY) == Some(index - q)
  {
    assert rest[index..index + 7][0] == QUOTE;
    q := IndexOf(rest, QUOTE).value;
    assert rest[q..] == [QUOTE] + rest[q + 1..];
    FoundInTail(rest, q, KEY, index);
  }

  lemma BootstrapPeel(rest: string, q: nat, prefix: string)
    requires IndexOf(rest, QUOTE) == Some(q)
    ensures Bootstrap(rest, prefix) == rest[..q] + [QUOTE] + KeyText(Split(rest[q + 1..], QUOTE), Open, prefix)
  {
    CutAtQuote(rest, q);
    KeyTextCons(rest[..q], Split(rest[q + 1..], QUOTE), Fresh, prefix);
  }

  lemma EmptyPrefix(html: string)
    ensures Rewrite(html, "") == html
  {
    var segs := Split(html, QUOTE);
    assert Apply(segs, AttributeFlags(segs, false), "") == segs;
    assert Apply(segs, KeyFlags(segs, Fresh), "") == segs;
  }
}
