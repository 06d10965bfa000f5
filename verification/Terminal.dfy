/** Text on a terminal: what is visible of a string with ANSI escapes, padding, truncation,
    and the lines of a block of text. */
module Terminal {
  import opened Text

  const ESC: char := '\U{001B}'
  const ELLIPSIS: char := '\U{2026}'

  /** What remains of a text without its escapes; `open` says it starts inside one. */
  function Plain(text: string, open: bool): string {
    if text == [] then []
    else if open then Plain(text[1..], text[0] != 'm')
    else if text[0] == ESC then Plain(text[1..], true)
    else [text[0]] + Plain(text[1..], false)
  }

  /** Whether a text ends inside an escape. */
  function EndsOpen(text: string, open: bool): bool {
    if text == [] then open
    else if open then EndsOpen(text[1..], text[0] != 'm')
    else EndsOpen(text[1..], text[0] == ESC)
  }

  function Visible(text: string): nat {
    |Plain(text, false)|
  }

  method VisibleWidth(text: string) returns (width: nat)
    ensures width == Visible(text)
  {
    width := 0;
    var inEscape := false;
    var k := 0;
    while k < |text|
      invariant k <= |text|
      invariant width + |Plain(text[k..], inEscape)| == Visible(text)
    {
      var ch := text[k];
      if inEscape {
        if ch == 'm' {
          inEscape := false;
        }
      } else if ch == ESC {
        inEscape := true;
      } else {
        width := width + 1;
      }
      k := k + 1;
    }
  }

  method StripAnsi(text: string) returns (out: string)
    ensures out == Plain(text, false)
  {
    out := "";
    var inEscape := false;
    var k := 0;
    while k < |text|
      invariant k <= |text|
      invariant out + Plain(text[k..], inEscape) == Plain(text, false)
    {
      var ch := text[k];
      if inEscape {
        if ch == 'm' {
          inEscape := false;
        }
      } else if ch == ESC {
        inEscape := true;
      } else {
        out := out + [ch];
      }
      k := k + 1;
    }
  }

  /** No escape survives stripping. */
  lemma {:induction false} PlainHasNoEscape(text: string, open: bool)
    ensures ESC !in Plain(text, open)
  {
    if text != [] {
      PlainHasNoEscape(text[1..], if open then text[0] != 'm' else text[0] == ESC);
    }
  }

  /** A text without escapes is all visible. */
  lemma {:induction false} PlainIdentity(text: string)
    requires ESC !in text
    ensures Plain(text, false) == text
  {
    if text != [] {
      PlainIdentity(text[1..]);
    }
  }

  lemma {:induction false} PlainConcat(a: string, b: string, open: bool)
    ensures Plain(a + b, open) == Plain(a, open) + Plain(b, EndsOpen(a, open))
    decreases |a|
  {
    if a == [] {
      assert a + b == b;
    } else {
      assert (a + b)[1..] == a[1..] + b;
      PlainConcat(a[1..], b, if open then a[0] != 'm' else a[0] == ESC);
    }
  }

  /** An escape hides everything from its first character to the `m` that ends it, or to the end
      of the text if none does. */
  lemma {:induction false} EscapeHides(body: string, rest: string)
    requires 'm' !in body
    ensures Plain([ESC] + body + ['m'] + rest, false) == Plain(rest, false)
    ensures Plain([ESC] + body, false) == ""
  {
    OpenUntilM(body, rest);
    assert ([ESC] + body + ['m'] + rest)[1..] == body + ['m'] + rest;
    assert ([ESC] + body)[1..] == body;
  }

  lemma {:induction false} OpenUntilM(body: string, rest: string)
    requires 'm' !in body
    ensures Plain(body + ['m'] + rest, true) == Plain(rest, false)
    ensures Plain(body, true) == ""
  {
    if body == "" {
      assert body + ['m'] + rest == ['m'] + rest;
      assert (['m'] + rest)[1..] == rest;
    } else {
      OpenUntilM(body[1..], rest);
      assert (body + ['m'] + rest)[1..] == body[1..] + ['m'] + rest;
    }
  }

  /** An escape left open can only hide what follows. */
  lemma {:induction false} OpenHides(text: string)
    ensures |Plain(text, true)| <= |Plain(text, false)|
  {
    if text != [] {
      OpenHides(text[1..]);
    }
  }

  /** Concatenation never makes more visible than its parts. */
  lemma VisibleConcat(a: string, b: string)
    ensures Visible(a + b) <= Visible(a) + Visible(b)
  {
    PlainConcat(a, b, false);
    OpenHides(b);
  }

  lemma VisiblePrefix(a: string, b: string)
    requires a <= b
    ensures Visible(a) <= Visible(b)
  {
    assert b == a + b[|a|..];
    PlainConcat(a, b[|a|..], false);
  }

  lemma {:induction false} VisibleAtMostLength(text: string, open: bool)
    ensures |Plain(text, open)| <= |text|
  {
    if text != [] {
      VisibleAtMostLength(text[1..], if open then text[0] != 'm' else text[0] == ESC);
    }
  }

  function Spaces(n: nat): (s: string)
    ensures |s| == n
  {
    seq(n, i => ' ')
  }

  /** `pad`: fill with spaces up to a number of characters, escapes counted. */
  function Pad(text: string, width: nat): string {
    if |text| >= width then text else text + Spaces(width - |text|)
  }

  function Truncate(text: string, width: nat): string {
    if |text| <= width then text
    else if width <= 1 then [ELLIPSIS][..width]
    else text[..width - 1] + [ELLIPSIS]
  }

  /** Padding never shows more than the larger of the width and the text. */
  lemma VisiblePad(text: string, width: nat)
    requires Visible(text) <= width
    ensures Visible(Pad(text, width)) <= width
  {
    if |text| < width {
      var fill := Spaces(width - |text|);
      VisibleConcat(text, fill);
      VisibleAtMostLength(text, false);
      VisibleAtMostLength(fill, false);
    }
  }

  /** A text that fits is left alone; one that is cut down has exactly the width it was cut to,
      all of it visible. */
  lemma VisibleTruncate(text: string, width: nat)
    requires ESC !in text
    ensures |text| <= width ==> Truncate(text, width) == text
    ensures |text| > width ==> Visible(Truncate(text, width)) == |Truncate(text, width)| == width
  {
    PlainIdentity(Truncate(text, width));
  }

  // ---------------------------------------------------------------- lines

  /** Every line of a text is at most this wide. */
  ghost predicate LinesFit(text: string, width: nat) {
    forall i :: 0 <= i < |Split(text, '\n')| ==> Visible(Split(text, '\n')[i]) <= width
  }

  /** A line put in front. */
  lemma LinesCons(line: string, rest: string, width: nat)
    requires '\n' !in line && Visible(line) <= width && LinesFit(rest, width)
    ensures LinesFit(line + ['\n'] + rest, width)
  {
    SplitCons(line, rest, '\n');
  }

  lemma LineAlone(line: string, width: nat)
    requires '\n' !in line && Visible(line) <= width
    ensures LinesFit(line, width)
  {
    SplitSingle(line, '\n');
  }

  /** Cutting the end off a text shortens lines, if anything. */
  lemma {:induction false} LinesPrefix(text: string, whole: string, width: nat)
    requires text <= whole && LinesFit(whole, width)
    ensures LinesFit(text, width)
    decreases |text|
  {
    match IndexOf(text, '\n')
    case None =>
      SplitSingle(text, '\n');
      FirstLine(text, whole);
    case Some(q) =>
      assert text == text[..q] + ['\n'] + text[q + 1..];
      assert whole == text[..q] + ['\n'] + whole[q + 1..];
      SplitCons(text[..q], text[q + 1..], '\n');
      SplitCons(text[..q], whole[q + 1..], '\n');
      var lines, rest := Split(whole, '\n'), Split(whole[q + 1..], '\n');
      assert lines == [text[..q]] + rest;
      assert forall i :: 0 <= i < |rest| ==> rest[i] == lines[i + 1];
      LinesPrefix(text[q + 1..], whole[q + 1..], width);
  }

  /** A text without a newline that starts another is a start of the other's first line. */
  lemma FirstLine(text: string, whole: string)
    requires text <= whole && '\n' !in text
    ensures text <= Split(whole, '\n')[0]
    ensures Visible(text) <= Visible(Split(whole, '\n')[0])
  {
    match IndexOf(whole, '\n') {
      case None => SplitSingle(whole, '\n');
      case Some(q) =>
        assert whole == whole[..q] + ['\n'] + whole[q + 1..];
        SplitCons(whole[..q], whole[q + 1..], '\n');
        assert q >= |text|;
        assert text <= whole[..q];
    }
    VisiblePrefix(text, Split(whole, '\n')[0]);
  }
}
