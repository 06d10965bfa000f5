/** What the rewrite promises: it only inserts the prefix in front of tracked values, a
    second pass changes nothing, and the two scanners do not disturb one another. All of it
    holds for every document and every prefix without a double quote. */
module RewriterProperties {
  import opened Text
  import opened Rewriter

  /** Two lists of pieces the scanners cannot tell apart. */
  predicate SameShape(a: seq<string>, b: seq<string>) {
    && |a| == |b|
    && forall i :: 0 <= i < |a| ==>
         && EndsWithAttribute(a[i]) == EndsWithAttribute(b[i])
         && (a[i] == "url") == (b[i] == "url")
         && (a[i] == ":") == (b[i] == ":")
  }

  lemma {:induction false} ShapeDeterminesAttributeFlags(a: seq<string>, b: seq<string>, armed: bool)
    requires SameShape(a, b)
    ensures AttributeFlags(a, armed) == AttributeFlags(b, armed)
  {
    if |a| > 1 {
      ShapeDeterminesAttributeFlags(a[1..], b[1..], !armed && EndsWithAttribute(a[0]));
    }
  }

  lemma {:induction false} ShapeDeterminesKeyFlags(a: seq<string>, b: seq<string>, st: KeyState)
    requires SameShape(a, b)
    ensures KeyFlags(a, st) == KeyFlags(b, st)
  {
    if |a| > 1 {
      ShapeDeterminesKeyFlags(a[1..], b[1..], NextKeyState(st, a[0]));
    }
  }

  /** A prefixed value contains a slash where every attribute name and the key have none. */
  lemma FixKeepsShape(value: string, prefix: string)
    ensures SameShape([value], [Fix(value, prefix)])
  {
    if NeedsPrefix(value, prefix) {
      var fixed := prefix + value;
      assert value[0] == '/' == fixed[|prefix|];
      SlashBlocksSuffix(prefix, value, "src=");
      SlashBlocksSuffix(prefix, value, "href=");
      SlashBlocksSuffix(prefix, value, "action=");
      assert '/' in fixed;
    }
  }

  lemma SlashBlocksSuffix(prefix: string, value: string, name: string)
    requires StartsWith(value, "/") && '/' !in name
    ensures EndsWith(prefix + value, name) <==> EndsWith(value, name)
  {
    var fixed := prefix + value;
    if |name| <= |value| {
      assert fixed[|fixed| - |name|..] == value[|value| - |name|..];
    } else if |name| <= |fixed| {
      assert fixed[|fixed| - |name|..][|name| - |value|] == value[0] == '/';
    }
  }

  lemma ApplyKeepsShape(segs: seq<string>, flags: seq<bool>, prefix: string)
    requires |flags| == |segs|
    ensures SameShape(segs, Apply(segs, flags, prefix))
  {
    forall i | 0 <= i < |segs|
      ensures SameShape([segs[i]], [Apply(segs, flags, prefix)[i]])
    {
      FixKeepsShape(segs[i], prefix);
    }
    assert forall i :: 0 <= i < |segs| ==> [segs[i]][0] == segs[i];
  }

  /** A fixed value lies under the prefix on a segment boundary, so it is never fixed again. */
  lemma FixUnderPrefix(value: string, prefix: string)
    ensures StartsWith(value, "/") && !StartsWith(value, "//") ==> PathMatches(prefix, Fix(value, prefix))
    ensures Fix(Fix(value, prefix), prefix) == Fix(value, prefix)
  {
    if NeedsPrefix(value, prefix) {
      assert (prefix + value)[|prefix|..] == value;
    }
  }

  /** The pieces of a rewritten text are the rewritten pieces. */
  lemma PiecesAfter(html: string, flags: seq<bool>, prefix: string)
    requires QUOTE !in prefix && |flags| == |Split(html, QUOTE)|
    ensures var segs := Split(html, QUOTE);
            Split(Join(Apply(segs, flags, prefix), QUOTE), QUOTE) == Apply(segs, flags, prefix)
  {
    SplitJoin(Apply(Split(html, QUOTE), flags, prefix), QUOTE);
  }

  /** The pieces the whole rewrite looks at. */
  function Tracked(html: string): (flags: seq<bool>)
    ensures |flags| == |Split(html, QUOTE)|
  {
    var segs := Split(html, QUOTE);
    seq(|segs|, i requires 0 <= i < |segs| => AttributeFlags(segs, false)[i] || KeyFlags(segs, Fresh)[i])
  }

  /** No piece is both an attribute value and a bootstrap URL: the piece before it would have
      to end in `=` and to be a lone colon. */
  lemma TrackedOnce(segs: seq<string>, j: nat)
    requires j < |segs|
    ensures !(AttributeFlags(segs, false)[j] && KeyFlags(segs, Fresh)[j])
  {
    AttributeFlagsMeaning(segs, false, j);
    KeyFlagsMeaning(segs, j);
  }

  /** The two scanners commute, and together they fix exactly the tracked pieces. */
  lemma PassesCommute(html: string, prefix: string)
    requires QUOTE !in prefix
    ensures Bootstrap(Attributes(html, prefix), prefix) == Attributes(Bootstrap(html, prefix), prefix)
    ensures Split(Rewrite(html, prefix), QUOTE) == Apply(Split(html, QUOTE), Tracked(html), prefix)
  {
    var segs := Split(html, QUOTE);
    var af, kf := AttributeFlags(segs, false), KeyFlags(segs, Fresh);
    var a, k := Apply(segs, af, prefix), Apply(segs, kf, prefix);
    ApplyKeepsShape(segs, af, prefix);
    ApplyKeepsShape(segs, kf, prefix);
    PiecesAfter(html, af, prefix);
    PiecesAfter(html, kf, prefix);
    ShapeDeterminesKeyFlags(segs, a, Fresh);
    ShapeDeterminesAttributeFlags(segs, k, false);
    ApplyBoth(segs, af, kf, Tracked(html), prefix);
    ApplyBoth(segs, kf, af, Tracked(html), prefix);
    PiecesAfter(html, Tracked(html), prefix);
  }

  lemma ApplyBoth(segs: seq<string>, f: seq<bool>, g: seq<bool>, both: seq<bool>, prefix: string)
    requires |segs| == |f| == |g| == |both|
    requires forall i :: 0 <= i < |segs| ==> both[i] == (f[i] || g[i])
    ensures Apply(Apply(segs, f, prefix), g, prefix) == Apply(segs, both, prefix)
  {
    forall i | 0 <= i < |segs|
      ensures Apply(Apply(segs, f, prefix), g, prefix)[i] == Apply(segs, both, prefix)[i]
    {
      FixUnderPrefix(segs[i], prefix);
    }
  }

  /** Each scanner on its own is idempotent. */
  lemma EachPassIdempotent(html: string, prefix: string)
    requires QUOTE !in prefix
    ensures Attributes(Attributes(html, prefix), prefix) == Attributes(html, prefix)
    ensures Bootstrap(Bootstrap(html, prefix), prefix) == Bootstrap(html, prefix)
  {
    var segs := Split(html, QUOTE);
    var af, kf := AttributeFlags(segs, false), KeyFlags(segs, Fresh);
    ApplyKeepsShape(segs, af, prefix);
    ApplyKeepsShape(segs, kf, prefix);
    PiecesAfter(html, af, prefix);
    PiecesAfter(html, kf, prefix);
    ShapeDeterminesAttributeFlags(segs, Apply(segs, af, prefix), false);
    ShapeDeterminesKeyFlags(segs, Apply(segs, kf, prefix), Fresh);
    ApplyBoth(segs, af, af, af, prefix);
    ApplyBoth(segs, kf, kf, kf, prefix);
  }

  /** A page passed through the relay twice is the page passed through once. */
  lemma RewriteIdempotent(html: string, prefix: string)
    requires QUOTE !in prefix
    ensures Rewrite(Rewrite(html, prefix), prefix) == Rewrite(html, prefix)
  {
    var page := Attributes(html, prefix);
    EachPassIdempotent(html, prefix);
    EachPassIdempotent(page, prefix);
    PassesCommute(page, prefix);
  }

  /** The bootstrap pass leaves a fixed point of the attribute pass fixed. */
  lemma BootstrapKeepsFixedPoint(html: string, prefix: string)
    requires QUOTE !in prefix && Attributes(html, prefix) == html
    ensures Attributes(Bootstrap(html, prefix), prefix) == Bootstrap(html, prefix)
  {
    PassesCommute(html, prefix);
  }

  // -------------------------------------------------------------- insertion only

  /** Which pieces of the document receive the prefix. */
  function Inserted(html: string, prefix: string): (ins: seq<bool>)
    ensures |ins| == |Split(html, QUOTE)|
  {
    var segs := Split(html, QUOTE);
    seq(|segs|, i requires 0 <= i < |segs| => Tracked(html)[i] && NeedsPrefix(segs[i], prefix))
  }

  /** Drop the first `n` characters of every marked piece. */
  function Erase(segs: seq<string>, marked: seq<bool>, n: nat): seq<string>
    requires |segs| == |marked|
    requires forall i :: 0 <= i < |segs| && marked[i] ==> n <= |segs[i]|
  {
    seq(|segs|, i requires 0 <= i < |segs| => if marked[i] then segs[i][n..] else segs[i])
  }

  function Count(marked: seq<bool>): nat {
    if marked == [] then 0 else (if marked[0] then 1 else 0) + Count(marked[1..])
  }

  /** The output is the input with the prefix put in front of the pieces that need it: those
      pieces start with it, erasing it there gives the input back, and nothing else moved. */
  lemma RewriteOnlyInserts(html: string, prefix: string)
    requires QUOTE !in prefix
    ensures var segs, out, ins := Split(html, QUOTE), Split(Rewrite(html, prefix), QUOTE), Inserted(html, prefix);
            && |out| == |segs|
            && (forall i :: 0 <= i < |segs| ==> out[i] == (if ins[i] then prefix + segs[i] else segs[i]))
            && Join(Erase(out, ins, |prefix|), QUOTE) == html
    ensures |Rewrite(html, prefix)| == |html| + |prefix| * Count(Inserted(html, prefix))
  {
    PassesCommute(html, prefix);
    var segs, out, ins := Split(html, QUOTE), Split(Rewrite(html, prefix), QUOTE), Inserted(html, prefix);
    assert Erase(out, ins, |prefix|) == segs;
    JoinLength(segs, out, ins, prefix);
  }

  /** A piece changes exactly if it is a tracked value that starts with a single slash and is
      neither the prefix itself nor below it: everything else is left as it was. */
  lemma RewriteChangesIff(html: string, prefix: string, j: nat)
    requires QUOTE !in prefix && prefix != "" && j < |Split(html, QUOTE)|
    ensures var before, after := Split(html, QUOTE), Split(Rewrite(html, prefix), QUOTE);
            && |after| == |before|
            && (after[j] != before[j] <==>
                  && Tracked(html)[j] && StartsWith(before[j], "/") && !StartsWith(before[j], "//")
                  && before[j] != prefix && !StartsWith(before[j], prefix + "/"))
  {
    RewriteOnlyInserts(html, prefix);
    var value := Split(html, QUOTE)[j];
    BelowPrefix(prefix, value);
    assert |prefix + value| != |value|;
  }

  lemma BelowPrefix(prefix: string, path: string)
    requires prefix != ""
    ensures PathMatches(prefix, path) <==> path == prefix || StartsWith(path, prefix + "/")
  {
    if StartsWith(path, prefix) {
      var rest := path[|prefix|..];
      assert path == prefix + rest;
      if rest != "" && rest[0] == '/' {
        assert path[..|prefix| + 1] == prefix + "/";
      }
    }
    if StartsWith(path, prefix + "/") {
      assert path[..|prefix| + 1] == prefix + "/";
      assert path[|prefix|] == (prefix + "/")[|prefix|];
      assert prefix <= path;
    }
  }

  lemma {:induction false} JoinLength(segs: seq<string>, out: seq<string>, ins: seq<bool>, prefix: string)
    requires |segs| == |out| == |ins| >= 1
    requires forall i :: 0 <= i < |segs| ==> out[i] == (if ins[i] then prefix + segs[i] else segs[i])
    ensures |Join(out, QUOTE)| == |Join(segs, QUOTE)| + |prefix| * Count(ins)
  {
    if |segs| == 1 {
      assert ins[1..] == [];
    } else {
      JoinLength(segs[1..], out[1..], ins[1..], prefix);
    }
  }

  /** After the rewrite, every tracked value that starts with a single slash lies under the
      prefix on a segment boundary; the tracked values are where they were. */
  lemma RewrittenLiesUnderPrefix(html: string, prefix: string, j: nat)
    requires QUOTE !in prefix && j < |Split(html, QUOTE)|
    ensures var out := Split(Rewrite(html, prefix), QUOTE);
            && |out| == |Split(html, QUOTE)|
            && Tracked(Rewrite(html, prefix)) == Tracked(html)
            && (Tracked(html)[j] && StartsWith(out[j], "/") && !StartsWith(out[j], "//") ==>
                  PathMatches(prefix, out[j]))
  {
    PassesCommute(html, prefix);
    var segs := Split(html, QUOTE);
    var out := Split(Rewrite(html, prefix), QUOTE);
    ApplyKeepsShape(segs, Tracked(html), prefix);
    ShapeDeterminesAttributeFlags(segs, out, false);
    ShapeDeterminesKeyFlags(segs, out, Fresh);
    assert Tracked(Rewrite(html, prefix)) == Tracked(html);
    FixUnderPrefix(segs[j], prefix);
  }
}
