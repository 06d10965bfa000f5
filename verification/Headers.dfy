/** The headers a proxy passes on: connection-scoped fields, and those a `Connection` field
    names, stay behind (RFC 9110 section 7.6.1). */
module Headers {
  import opened Text

  /** One field line. Names are lower case; a value that is not visible ASCII reads as `None`. */
  datatype Field = Field(name: string, value: Option<string>)

  predicate IsHopByHop(name: string) {
    || name == "connection" || name == "keep-alive" || name == "proxy-authenticate" || name == "proxy-authorization"
    || name == "te" || name == "trailer" || name == "transfer-encoding" || name == "upgrade"
  }

  function Lower(s: string): string {
    seq(|s|, i requires 0 <= i < |s| => if 'A' <= s[i] <= 'Z' then (s[i] as int + 32) as char else s[i])
  }

  /** The options a field line names, if it is a `Connection` line that can be read. */
  ghost predicate Names(f: Field, option: string) {
    f.name == "connection" && f.value.Some? && option != ""
    && exists token :: token in Split(f.value.value, ',') && Lower(Trim(token)) == option
  }

  function FirstConnection(fields: seq<Field>): (r: Option<Field>)
    ensures r.Some? ==> r.value in fields && r.value.name == "connection"
    ensures r.None? ==> forall f :: f in fields ==> f.name != "connection"
  {
    if fields == [] then None
    else if fields[0].name == "connection" then Some(fields[0])
    else FirstConnection(fields[1..])
  }

  /** What is passed on: neither hop-by-hop nor named by the first `Connection` line. */
  ghost predicate Passes(fields: seq<Field>, f: Field) {
    !IsHopByHop(f.name) && (FirstConnection(fields).Some? ==> !Names(FirstConnection(fields).value, f.name))
  }

  ghost function Passed(all: seq<Field>, fields: seq<Field>): seq<Field> {
    if fields == [] then []
    else
      var front, last := Passed(all, fields[..|fields| - 1]), fields[|fields| - 1];
      if Passes(all, last) then front + [last] else front
  }

  /** Against the options collected from the first `Connection` line. */
  lemma OptionsMeaning(src: seq<Field>, extra: seq<string>)
    requires var c := FirstConnection(src);
      if c.Some? && c.value.value.Some?
      then forall x :: x in extra <==> x != "" && exists t :: t in Split(c.value.value.value, ',') && Lower(Trim(t)) == x
      else extra == []
    ensures forall f: Field :: Passes(src, f) <==> !IsHopByHop(f.name) && f.name !in extra
  {
  }

  method FilterHeaders(src: seq<Field>) returns (out: seq<Field>)
    ensures out == Passed(src, src)
  {
    var extra: seq<string> := [];
    var connection := FirstConnection(src);
    if connection.Some? && connection.value.value.Some? {
      var tokens := Split(connection.value.value.value, ',');
      var k := 0;
      while k < |tokens|
        invariant k <= |tokens|
        invariant forall x :: x in extra <==> x != "" && exists t :: t in tokens[..k] && Lower(Trim(t)) == x
      {
        var t := Lower(Trim(tokens[k]));
        assert tokens[..k + 1] == tokens[..k] + [tokens[k]];
        if t != "" {
          extra := extra + [t];
        }
        k := k + 1;
      }
      assert tokens[..k] == tokens;
    }
    OptionsMeaning(src, extra);
    out := [];
    var i := 0;
    while i < |src|
      invariant i <= |src| && out == Passed(src, src[..i])
    {
      assert src[..i + 1][..i] == src[..i];
      var f := src[i];
      if !(IsHopByHop(f.name) || f.name in extra) {
        out := out + [f];
      }
      i := i + 1;
    }
    assert src[..i] == src;
  }

  lemma {:induction false} PassedMeaning(all: seq<Field>, fields: seq<Field>)
    ensures forall f :: f in Passed(all, fields) <==> f in fields && Passes(all, f)
  {
    if fields != [] {
      PassedMeaning(all, fields[..|fields| - 1]);
      assert fields == fields[..|fields| - 1] + [fields[|fields| - 1]];
    }
  }

  predicate LowerCase(s: string) {
    forall c :: c in s ==> !('A' <= c <= 'Z')
  }

  lemma LowerIff(s: string, option: string)
    requires LowerCase(option)
    ensures Lower(s) == option <==> SameIgnoringCase(s, option)
  {
    if Lower(s) == option {
      assert forall i :: 0 <= i < |s| ==> SameLetter(s[i], Lower(s)[i]);
    }
    if SameIgnoringCase(s, option) {
      forall i | 0 <= i < |s|
        ensures Lower(s)[i] == option[i]
      {
        assert SameLetter(s[i], option[i]) && option[i] in option;
      }
    }
  }

  /** A field is passed on exactly if it is none of the eight that concern one connection, and
      is not among the options, in any case, that the first `Connection` line lists. */
  lemma PassedIff(src: seq<Field>, f: Field)
    requires LowerCase(f.name)
    ensures f in Passed(src, src) <==>
      && f in src
      && f.name !in ["connection", "keep-alive", "proxy-authenticate", "proxy-authorization",
                     "te", "trailer", "transfer-encoding", "upgrade"]
      && !(var c := FirstConnection(src);
           c.Some? && c.value.value.Some? && f.name != ""
           && exists token :: token in Split(c.value.value.value, ',') && SameIgnoringCase(Trim(token), f.name))
  {
    PassedMeaning(src, src);
    forall token: string
      ensures Lower(Trim(token)) == f.name <==> SameIgnoringCase(Trim(token), f.name)
    {
      LowerIff(Trim(token), f.name);
    }
  }

  lemma {:induction false} AllPassed(all: seq<Field>, fields: seq<Field>)
    requires forall f :: f in fields ==> Passes(all, f)
    ensures Passed(all, fields) == fields
  {
    if fields != [] {
      AllPassed(all, fields[..|fields| - 1]);
      assert fields == fields[..|fields| - 1] + [fields[|fields| - 1]];
    }
  }

  /** A second hop filters nothing more. */
  lemma FilterIdempotent(src: seq<Field>)
    ensures Passed(Passed(src, src), Passed(src, src)) == Passed(src, src)
  {
    var out := Passed(src, src);
    PassedMeaning(src, src);
    assert FirstConnection(out).None?;
    AllPassed(out, out);
  }

  /** The rule: a field named by any `Connection` line stays behind. */
  ghost predicate NamedStayBehind(src: seq<Field>) {
    forall c, f :: c in src && f in Passed(src, src) ==> !Names(c, f.name)
  }

  /** What the lines after the first name is hop-by-hop anyway, or absent, or named by the
      first line too. */
  ghost predicate LaterLinesAddNothing(src: seq<Field>) {
    forall c, f :: c in src && Some(c) != FirstConnection(src) && f in src && Names(c, f.name) ==>
      IsHopByHop(f.name) || Names(FirstConnection(src).value, f.name)
  }

  lemma NothingAdded(src: seq<Field>, c: Field, f: Field)
    requires NamedStayBehind(src) && c in src && f in src && Names(c, f.name)
    ensures IsHopByHop(f.name) || Names(FirstConnection(src).value, f.name)
  {
    PassedMeaning(src, src);
    assert f !in Passed(src, src);
  }

  lemma StaysBehind(src: seq<Field>, c: Field, f: Field)
    requires LaterLinesAddNothing(src) && c in src && f in Passed(src, src)
    ensures !Names(c, f.name)
  {
    PassedMeaning(src, src);
    assert f in src && Passes(src, f);
  }

  /** The rule is met exactly when the lines after the first add nothing to it. */
  lemma NamedFieldsRemovedIff(src: seq<Field>)
    ensures NamedStayBehind(src) <==> LaterLinesAddNothing(src)
  {
    if NamedStayBehind(src) {
      forall c, f | c in src && Some(c) != FirstConnection(src) && f in src && Names(c, f.name)
        ensures IsHopByHop(f.name) || Names(FirstConnection(src).value, f.name)
      {
        NothingAdded(src, c, f);
      }
    }
    if LaterLinesAddNothing(src) {
      forall c, f | c in src && f in Passed(src, src)
        ensures !Names(c, f.name)
      {
        StaysBehind(src, c, f);
      }
    }
  }

  lemma OneOption(option: string, x: string)
    requires ',' !in option && option != "" && Lower(Trim(option)) == option
    ensures Names(Field("connection", Some(option)), x) <==> x == option
  {
    SplitSingle(option, ',');
    assert option in Split(option, ',');
  }

  /** Two `Connection` lines: an end-to-end field that only the second one names is forwarded. */
  lemma SecondConnectionLineIgnored(first: string, second: string, value: Option<string>)
    requires ',' !in first && first != "" && Lower(Trim(first)) == first
    requires ',' !in second && second != "" && Lower(Trim(second)) == second
    requires first != second && !IsHopByHop(second)
    ensures var src := [Field("connection", Some(first)), Field("connection", Some(second)), Field(second, value)];
            Names(src[1], second) && src[2] in Passed(src, src)
  {
    var src := [Field("connection", Some(first)), Field("connection", Some(second)), Field(second, value)];
    OneOption(first, second);
    OneOption(second, second);
    PassedMeaning(src, src);
    assert FirstConnection(src) == Some(src[0]);
    assert src[2] in src;
  }
}
