/** Filling the `[include]` places of a page (include.rs). A resolver maps a name to tokens,
or does not claim it. */
module Include {
  import opened Wrappers
  import opened Text
  import opened Aml
  import opened AmlScanner
  import opened AmlRoundTrip

  datatype IncludeError = NotScannable | NestedInclude | InvalidName

  type Resolver = string -> Option<Tokens>

  function IncludeTag(): string { "include" }

  function NameAttribute(): string { "name" }

  predicate IsInclude(t: Token) {
    (t.OpenTag? || t.CloseTag?) && t.name == IncludeTag()
  }

  predicate HasInclude(ts: Tokens) {
    exists i :: 0 <= i < |ts| && IsInclude(ts[i])
  }

  /** The value of the first `name` attribute, unless it is missing or empty. */
  function IncludeName(attributes: seq<Attribute>): Option<string> {
    if attributes == [] then None
    else if attributes[0].name != NameAttribute() then IncludeName(attributes[1..])
    else if attributes[0].value.Flag? || attributes[0].value.text == "" then None
    else Some(attributes[0].value.text)
  }

  /** What stands in place of a token: nothing for an include that names no handler or one that
      is not claimed, and nothing for a closing include tag. */
  function Expansion(t: Token, resolver: Resolver): Tokens {
    if !IsInclude(t) then [t]
    else if t.CloseTag? || IncludeName(t.attributes).None? then []
    else
      match resolver(IncludeName(t.attributes).value)
      case None => []
      case Some(generated) => generated
  }

  function Expand(ts: Tokens, resolver: Resolver): Tokens {
    if ts == [] then [] else Expansion(ts[0], resolver) + Expand(ts[1..], resolver)
  }

  /** A handler answers an include of this page with another include. */
  predicate Nests(ts: Tokens, resolver: Resolver) {
    exists i :: 0 <= i < |ts| && HasInclude(Expansion(ts[i], resolver))
  }

  predicate HoldsAt(s: string, part: string, i: nat) {
    i + |part| <= |s| && s[i..i + |part|] == part
  }

  predicate Contains(s: string, part: string) {
    exists i :: 0 <= i <= |s| && HoldsAt(s, part, i)
  }

  function Marker(): string { "[" + IncludeTag() }

  /** The resolved page: untouched when it does not hold the marker. */
  function Resolved(content: string, resolver: Resolver): Result<string, IncludeError> {
    if !Contains(content, Marker()) then Ok(content)
    else
      match Scan(content)
      case None => Err(NotScannable)
      case Some(ts) =>
        if Nests(ts, resolver) then Err(NestedInclude)
        else if Bad(Expand(ts, resolver)).Some? then Err(InvalidName)
        else Ok(Emit(Expand(ts, resolver)))
  }

  lemma {:induction false} ExpandAppend(a: Tokens, b: Tokens, resolver: Resolver)
    ensures Expand(a + b, resolver) == Expand(a, resolver) + Expand(b, resolver)
  {
    if a == [] {
      assert a + b == b;
    } else {
      ExpandAppend(a[1..], b, resolver);
      assert (a + b)[1..] == a[1..] + b;
    }
  }

  /** One pass over the scanned tokens. */
  method Splice(ts: Tokens, resolver: Resolver) returns (r: Option<Tokens>)
    ensures r == if Nests(ts, resolver) then None else Some(Expand(ts, resolver))
  {
    var resolved: Tokens := [];
    for k := 0 to |ts|
      invariant resolved == Expand(ts[..k], resolver)
      invariant forall i :: 0 <= i < k ==> !HasInclude(Expansion(ts[i], resolver))
    {
      assert ts[..k + 1] == ts[..k] + [ts[k]];
      ExpandAppend(ts[..k], [ts[k]], resolver);
      assert Expand([ts[k]], resolver) == Expansion(ts[k], resolver) + Expand([ts[k]][1..], resolver);
      var piece := Expansion(ts[k], resolver);
      if HasInclude(piece) {
        return None;
      }
      resolved := resolved + piece;
    }
    assert ts[..|ts|] == ts;
    r := Some(resolved);
  }

  method ResolvePage(content: string, resolver: Resolver) returns (r: Result<string, IncludeError>)
    ensures r == Resolved(content, resolver)
  {
    if !Contains(content, Marker()) {
      return Ok(content);
    }
    var scanned := Scan(content);
    if scanned.None? {
      return Err(NotScannable);
    }
    var resolved := Splice(scanned.value, resolver);
    if resolved.None? {
      return Err(NestedInclude);
    }
    var out := ToAml(resolved.value);
    r := if out.Ok? then Ok(out.value) else Err(InvalidName);
  }

  /** Nothing that survives expansion is an include. */
  lemma {:induction false} ExpandRemovesIncludes(ts: Tokens, resolver: Resolver)
    requires !Nests(ts, resolver)
    ensures !HasInclude(Expand(ts, resolver))
  {
    if ts != [] {
      var rest := ts[1..];
      assert forall i :: 0 <= i < |rest| ==> rest[i] == ts[i + 1];
      assert !Nests(rest, resolver);
      ExpandRemovesIncludes(rest, resolver);
      assert !HasInclude(Expansion(ts[0], resolver));
    }
  }

  lemma {:induction false} NormalizeKeepsIncludeFree(ts: Tokens)
    requires !HasInclude(ts)
    ensures !HasInclude(Normalize(ts))
  {
    if ts != [] {
      var rest := ts[1..];
      assert forall i :: 0 <= i < |rest| ==> rest[i] == ts[i + 1];
      NormalizeKeepsIncludeFree(rest);
      assert !IsInclude(ts[0]);
      assert !IsInclude(Quote(ts[0]));
      PrependKeepsIncludeFree(ts[0], Normalize(rest));
    }
  }

  lemma PrependKeepsIncludeFree(t: Token, ts: Tokens)
    requires !IsInclude(t) && !HasInclude(ts)
    ensures !HasInclude(Prepend(t, ts))
  {
    var after := Prepend(t, ts);
    forall i | 0 <= i < |after|
      ensures !IsInclude(after[i])
    {
      assert i > 0 && after == [Quote(t)] + ts ==> after[i] == ts[i - 1];
      assert 0 < i < |ts| && after[1..] == ts[1..] ==> after[i] == ts[i];
    }
  }

  /** A page that holds the marker and is resolved decodes to the authored stream with every include
      replaced by its expansion if and only if what the handlers returned holds no control or deceptive
      character and the page is within the scanner's limits. The expansion holds no include. */
  lemma ResolvedPageDecodes(content: string, resolver: Resolver)
    requires Contains(content, Marker()) && Resolved(content, resolver).Ok?
    ensures Scan(content).Some?
    ensures var out := Resolved(content, resolver).value;
            var expanded := Expand(Scan(content).value, resolver);
            && !HasInclude(Normalize(expanded))
            && (Scan(out) == Some(Normalize(expanded) + [Eof]) <==>
                Clean(expanded) && ByteLen(out) <= MAX_INPUT_SIZE && Fits(Normalize(expanded), ScanLimits()))
            && (Clean(expanded) && Scan(out).Some? ==> Scan(out) == Some(Normalize(expanded) + [Eof]))
  {
    var ts := Scan(content).value;
    var expanded := Expand(ts, resolver);
    BadIff(expanded);
    RoundTrip(expanded);
    if Clean(expanded) {
      CleanRoundTrip(expanded);
    }
    ExpandRemovesIncludes(ts, resolver);
    NormalizeKeepsIncludeFree(expanded);
  }

  lemma {:induction false} ExpandKeepsIncludeFree(ts: Tokens, resolver: Resolver)
    requires !HasInclude(ts)
    ensures Expand(ts, resolver) == ts
  {
    if ts != [] {
      assert forall i :: 0 <= i < |ts[1..]| ==> ts[1..][i] == ts[i + 1];
      ExpandKeepsIncludeFree(ts[1..], resolver);
      assert !IsInclude(ts[0]);
    }
  }

  lemma {:induction false} NormalizeKeepsInclude(ts: Tokens)
    requires HasInclude(ts)
    ensures HasInclude(Normalize(ts))
  {
    var rest := Normalize(ts[1..]);
    var after := Prepend(ts[0], rest);
    if IsInclude(ts[0]) {
      assert IsInclude(after[0]);
    } else {
      var i :| 0 <= i < |ts| && IsInclude(ts[i]);
      assert ts[i] == ts[1..][i - 1];
      NormalizeKeepsInclude(ts[1..]);
      var k :| 0 <= k < |rest| && IsInclude(rest[k]);
      if ts[0].Eof? || ts[0] == Content("") {
        assert after[k] == rest[k];
      } else if ts[0].Content? && rest[0].Content? {
        assert after[k] == rest[k];
      } else {
        assert after[k + 1] == rest[k];
      }
    }
  }

  lemma {:induction false} NormalizeIgnoresEnd(ts: Tokens)
    ensures Normalize(ts + [Eof]) == Normalize(ts)
  {
    if ts == [] {
      assert ts + [Eof] == [Eof] && [Eof][1..] == [];
    } else {
      NormalizeIgnoresEnd(ts[1..]);
      assert (ts + [Eof])[1..] == ts[1..] + [Eof];
    }
  }

  /** The page reads as the authored one with every include replaced. */
  ghost predicate ReadsAsExpanded(content: string, resolver: Resolver, out: string)
    requires Scan(content).Some?
  {
    Scan(out).Some? && Normalize(Scan(out).value) == Normalize(Expand(Scan(content).value, resolver))
  }

  /** A served page reads as the authored one with every include replaced if and only if: it holds the
      marker, and the expansion is clean and within the limits; or it lacks the marker and has no include. */
  lemma PageIsExpandedIff(content: string, resolver: Resolver)
    requires Resolved(content, resolver).Ok? && Scan(content).Some? && !Nests(Scan(content).value, resolver)
    ensures var out := Resolved(content, resolver).value;
            var expanded := Expand(Scan(content).value, resolver);
            ReadsAsExpanded(content, resolver, out) <==>
            if Contains(content, Marker())
            then Clean(expanded) && ByteLen(out) <= MAX_INPUT_SIZE && Fits(Normalize(expanded), ScanLimits())
            else !HasInclude(Scan(content).value)
  {
    var ts := Scan(content).value;
    var out := Resolved(content, resolver).value;
    var expanded := Expand(ts, resolver);
    if Contains(content, Marker()) {
      ResolvedPageDecodes(content, resolver);
      MarkedPageReads(out, expanded);
    } else if HasInclude(ts) {
      ExpandRemovesIncludes(ts, resolver);
      NormalizeKeepsIncludeFree(expanded);
      NormalizeKeepsInclude(ts);
    } else {
      ExpandKeepsIncludeFree(ts, resolver);
    }
  }

  lemma MarkedPageReads(out: string, expanded: Tokens)
    requires Scan(out) == Some(Normalize(expanded) + [Eof]) <==>
             Clean(expanded) && ByteLen(out) <= MAX_INPUT_SIZE && Fits(Normalize(expanded), ScanLimits())
    requires Clean(expanded) && Scan(out).Some? ==> Scan(out) == Some(Normalize(expanded) + [Eof])
    ensures Scan(out).Some? && Normalize(Scan(out).value) == Normalize(expanded) <==>
            Clean(expanded) && ByteLen(out) <= MAX_INPUT_SIZE && Fits(Normalize(expanded), ScanLimits())
  {
    NormalizeIgnoresEnd(Normalize(expanded));
    NormalizeIsNormal(expanded);
    NormalIsFixed(Normalize(expanded));
    if Scan(out).Some? {
      ScannedIsClean(out);
      NormalizeIsClean(Scan(out).value);
      NormalizeIsClean(expanded);
    }
  }

  /** Whether an include is left: as authored without the marker; never after a clean expansion. */
  lemma IncludeLeft(content: string, resolver: Resolver)
    requires Resolved(content, resolver).Ok?
    requires Scan(content).Some? && Scan(Resolved(content, resolver).value).Some?
    ensures !Contains(content, Marker()) ==>
              (HasInclude(Scan(Resolved(content, resolver).value).value) <==> HasInclude(Scan(content).value))
    ensures Contains(content, Marker()) && Clean(Expand(Scan(content).value, resolver)) ==>
              !HasInclude(Scan(Resolved(content, resolver).value).value)
  {
    if Contains(content, Marker()) {
      ResolvedPageDecodes(content, resolver);
      var expanded := Normalize(Expand(Scan(content).value, resolver));
      assert forall i :: 0 <= i < |expanded| ==> (expanded + [Eof])[i] == expanded[i];
    }
  }

  /** The page of one include, and a handler that answers it with one text. */
  function OneInclude(): Token {
    OpenTag(IncludeTag(), [Attribute(NameAttribute(), Quoted("x"))], false)
  }

  lemma OneTagScans(t: Token)
    requires t.OpenTag? && ValidToken(t) && CleanToken(t) && Quote(t) == t && TokenFits(t, ScanLimits())
    requires ByteLen(EmitToken(t)) <= MAX_INPUT_SIZE
    ensures Scan(Emit([t])) == Some([t, Eof])
  {
    var ts := [t];
    EmitOne(t);
    assert ts[1..] == [];
    assert Normalize(ts) == [t];
    CleanRoundTrip(ts);
    assert [t] + [Eof] == [t, Eof];
  }

  lemma OneIncludeIsFine()
    ensures var t := OneInclude(); ValidToken(t) && CleanToken(t) && Quote(t) == t && TokenFits(t, ScanLimits())
  {
    var t := OneInclude();
    assert ValidName(IncludeTag()) && ValidName(NameAttribute());
    assert AllPlain("x");
    assert t.attributes[1..] == [];
  }

  lemma OneIncludeScans()
    ensures var page := Emit([OneInclude()]);
            Scan(page) == Some([OneInclude(), Eof]) && Contains(page, Marker())
  {
    OneIncludeIsFine();
    OneIncludeIsShort();
    OneTagScans(OneInclude());
    EmitOne(OneInclude());
    MarkerAtFront(" name=\"x\"]");
  }

  lemma MarkerAtFront(rest: string)
    ensures Contains(Marker() + rest, Marker())
  {
    var page := Marker() + rest;
    assert page[0..0 + |Marker()|] == Marker();
    assert HoldsAt(page, Marker(), 0);
  }

  lemma OneIncludeIsShort()
    ensures EmitToken(OneInclude()) == Marker() + " name=\"x\"]" && ByteLen(EmitToken(OneInclude())) <= MAX_INPUT_SIZE
  {
    var a := Attribute(NameAttribute(), Quoted("x"));
    FlatOne(EscapeValueChar, 'x');
    assert EmitAttribute(a) == " name=\"x\"";
    FlatOne(EmitAttribute, a);
    var s := Marker() + " name=\"x\"]";
    assert Ascii(Marker()) && Ascii(" name=\"x\"]");
    assert Ascii(s);
    ByteLenAscii(s);
  }

  /** The handler that answers every include with a text that holds a control sequence introducer. */
  function Injector(text: string): Resolver {
    (name: string) => Some([Content(text)])
  }

  lemma OneIncludeResolves(text: string)
    ensures Resolved(Emit([OneInclude()]), Injector(text)) == Ok(Emit([Content(text)]))
  {
    OneIncludeScans();
    var expanded := [Content(text), Eof];
    OneIncludeExpands(Injector(text), text);
    BadIff(expanded);
    EmitWithEnd(Content(text));
  }

  /** Such a handler puts an include back into the page. */
  lemma DirtyTextInjectsInclude()
    ensures var out := Resolved(Emit([OneInclude()]), Injector([Introducer()] + ("[" + (IncludeTag() + "]"))));
            out.Ok? && Scan(out.value).Some? && HasInclude(Scan(out.value).value)
  {
    var name := IncludeTag();
    assert ValidName(name);
    OneIncludeResolves([Introducer()] + ("[" + (name + "]")));
    IntroducerMakesTag(name);
    var ts := [OpenTag(name, [], false), Content("]"), Eof];
    assert IsInclude(ts[0]);
  }

  lemma EmitWithEnd(t: Token)
    ensures Emit([t, Eof]) == Emit([t])
  {
    EmitOne(t);
    EmitOne(Eof);
    assert [t, Eof][1..] == [Eof];
    assert Emit([t, Eof]) == EmitToken(t) + Emit([Eof]);
  }

  lemma OneIncludeExpands(resolver: Resolver, text: string)
    requires resolver("x") == Some([Content(text)])
    ensures Expand([OneInclude(), Eof], resolver) == [Content(text), Eof]
    ensures !Nests([OneInclude(), Eof], resolver)
  {
    var ts := [OneInclude(), Eof];
    assert IsInclude(ts[0]) && !IsInclude(ts[1]);
    assert IncludeName(ts[0].attributes) == Some("x");
    assert Expansion(ts[0], resolver) == [Content(text)] && Expansion(ts[1], resolver) == [Eof];
    assert ts[1..] == [Eof] && [Eof][1..] == [];
    assert Expand([Eof], resolver) == [Eof] + Expand([], resolver) == [Eof];
    assert Expand(ts, resolver) == [Content(text)] + [Eof];
  }

  lemma SpacedTagIsToken(name: string, lim: Limits)
    requires ValidName(name)
    ensures var s := "[ " + name + "]"; StartsTag(s) && NextToken(s, lim) == Some((OpenTag(name, [], false), ""))
  {
    var s := "[ " + name + "]";
    var inner := name + "]";
    assert s[0] == '[' && s[1] == ' ';
    assert s[1..] == " " + inner && s[1..][1..] == inner;
    assert inner[0] == name[0] && NameChar(name[0]);
    assert SkipSpace(inner) == inner;
    NameThen(name, "]");
    EndThen(false, "", lim);
    assert "]" + "" == "]";
  }

  /** A space after the bracket is skipped by the scanner and not by the marker test. */
  lemma SpacedTagScans(name: string)
    requires ValidName(name) && ByteLen("[ " + name + "]") <= MAX_INPUT_SIZE
    ensures Scan("[ " + name + "]") == Some([OpenTag(name, [], false), Eof])
  {
    var s := "[ " + name + "]";
    assert AllPlain("[ ") && AllPlain(name) && AllPlain("]");
    PlainAppend("[ ", name);
    PlainAppend("[ " + name, "]");
    PlainIsKept(s);
    SpacedTagIsToken(name, ScanLimits());
    OneToken(s, OpenTag(name, [], false), ScanLimits(), ScanLimits().tokens);
  }

  lemma SpacedIncludeIsMissed(resolver: Resolver)
    ensures var page := "[ " + IncludeTag() + "]";
            Resolved(page, resolver) == Ok(page) && Scan(page) == Some([OpenTag(IncludeTag(), [], false), Eof])
            && HasInclude(Scan(page).value)
  {
    var name := IncludeTag();
    var page := "[ " + name + "]";
    assert ValidName(name) && Ascii(page);
    ByteLenAscii(page);
    SpacedTagScans(name);
    assert IsInclude(Scan(page).value[0]);
    MarkerNeedsName(page);
  }

  /** A page whose only opening bracket is followed by a space does not hold the marker. */
  lemma MarkerNeedsName(page: string)
    requires |page| > 1 && page[0] == '[' && page[1] == ' ' && forall i :: 0 < i < |page| ==> page[i] != '['
    ensures !Contains(page, Marker())
  {
    var part := Marker();
    assert part[0] == '[' && part[1] == 'i';
    forall i | 0 <= i <= |page|
      ensures !HoldsAt(page, part, i)
    {
      if i + |part| <= |page| {
        assert page[i..i + |part|][0] == page[i] && page[i..i + |part|][1] == page[i + 1];
      }
    }
  }
}
