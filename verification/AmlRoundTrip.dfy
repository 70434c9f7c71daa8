/** Scanning what the serializer wrote gives the tokens back (serialize.rs, the property of its
module documentation and of fuzz_serialize.rs). */
module AmlRoundTrip {
  import opened Wrappers
  import opened Text
  import opened Aml
  import opened AmlScanner

  // ---- names, values and text are read back ----

  lemma {:induction false} NameThen(name: string, r: string)
    requires forall i :: 0 <= i < |name| ==> NameChar(name[i])
    requires r == "" || !ScannedNameChar(r[0])
    ensures ScanName(name + r) == (name, r)
  {
    if name == "" {
      assert name + r == r;
    } else {
      NameThen(name[1..], r);
      assert (name + r)[1..] == name[1..] + r;
      assert name == [name[0]] + name[1..];
    }
  }

  lemma QuotedChar(c: char, t: string)
    ensures ScanQuoted(EscapeValueChar(c) + t) ==
            match ScanQuoted(t) { case None => None case Some((v, r)) => Some(([c] + v, r)) }
  {
    var s := EscapeValueChar(c) + t;
    if c == '\\' || c == '"' || c == '\n' || c == '\t' {
      assert s[0] == '\\' && s[2..] == t;
      assert Unescape(s[1]) == [c];
    } else {
      assert s[0] == c && s[1..] == t;
    }
  }

  /** A quoted value is read back whatever characters it holds. */
  lemma {:induction false} QuotedThen(v: string, r: string)
    ensures ScanQuoted(EscapeValue(v) + ("\"" + r)) == Some((v, r))
  {
    if v == "" {
      assert EscapeValue(v) + ("\"" + r) == "\"" + r;
      assert ("\"" + r)[1..] == r;
    } else {
      QuotedThen(v[1..], r);
      Associative(EscapeValueChar(v[0]), EscapeValue(v[1..]), "\"" + r);
      QuotedChar(v[0], EscapeValue(v[1..]) + ("\"" + r));
      assert v == [v[0]] + v[1..];
    }
  }

  lemma TextChar(c: char, t: string)
    ensures ScanText(EscapeChar(c) + t) == ([c] + ScanText(t).0, ScanText(t).1)
  {
    var s := EscapeChar(c) + t;
    if c == '[' || c == ']' {
      assert s[0] == c && s[1] == c && s[2..] == t;
    } else {
      assert s[0] == c && s[1..] == t;
    }
  }

  /** Text is read back whatever characters it holds, up to the next tag. */
  lemma {:induction false} TextThen(text: string, r: string)
    requires r == "" || StartsTag(r)
    ensures ScanText(EscapeText(text) + r) == (text, r)
  {
    if text == "" {
      assert EscapeText(text) + r == r;
    } else {
      TextThen(text[1..], r);
      Associative(EscapeChar(text[0]), EscapeText(text[1..]), r);
      TextChar(text[0], EscapeText(text[1..]) + r);
      assert text == [text[0]] + text[1..];
    }
  }

  // ---- tags are read back ----

  predicate ValueFits(v: AttributeValue, lim: Limits) {
    v.Flag? || |v.text| <= lim.value
  }

  predicate AttributesFit(attributes: seq<Attribute>, lim: Limits) {
    forall i :: 0 <= i < |attributes| ==> ValueFits(attributes[i].value, lim)
  }

  lemma ValueThen(v: AttributeValue, r: string, lim: Limits)
    requires !v.Flag?
    ensures ScanValue("\"" + EscapeValue(v.text) + "\"" + r, lim) ==
            if ValueFits(v, lim) then Some((QuoteValue(v), r)) else None
  {
    var s := "\"" + EscapeValue(v.text) + "\"" + r;
    assert s[0] == '"';
    assert s[1..] == EscapeValue(v.text) + ("\"" + r);
    QuotedThen(v.text, r);
  }

  lemma ValueParts(value: string, r: string)
    ensures var s := "=\"" + value + "\"" + r; s[0] == '=' && s[1..] == "\"" + value + "\"" + r
  {
  }

  lemma AttributeThen(a: Attribute, r: string, lim: Limits)
    requires ValidName(a.name) && r != "" && (r[0] == ' ' || r[0] == ']')
    ensures ScanAttribute(a.name + EmitValue(a.value) + r, lim) ==
            if ValueFits(a.value, lim) then Some((Some(Attribute(a.name, QuoteValue(a.value))), r)) else None
  {
    var after := EmitValue(a.value) + r;
    Associative(a.name, EmitValue(a.value), r);
    if a.value.Flag? {
      assert after == r;
      NameThen(a.name, after);
    } else {
      ValueParts(EscapeValue(a.value.text), r);
      NameThen(a.name, after);
      ValueThen(a.value, r, lim);
    }
  }

  /** What follows an attribute: another one, or the end of the tag. */
  function Tail(attributes: seq<Attribute>, selfClosing: bool, r: string): string {
    EmitAttributes(attributes) + (EmitEnd(selfClosing) + r)
  }

  lemma TailStart(attributes: seq<Attribute>, selfClosing: bool, r: string)
    ensures var t := Tail(attributes, selfClosing, r); t != "" && (t[0] == ' ' || t[0] == ']')
  {
    if attributes != [] {
      assert EmitAttribute(attributes[0])[0] == ' ';
      assert EmitAttributes(attributes)[0] == ' ';
    }
  }

  lemma EndThen(selfClosing: bool, r: string, lim: Limits)
    ensures ScanAttributes(EmitEnd(selfClosing) + r, lim) == Some(TagEnd([], selfClosing, r))
  {
    var s := EmitEnd(selfClosing) + r;
    if selfClosing {
      assert s[0] == ' ' && s[1] == '/' && s[2] == ']' && s[3..] == r;
      assert SkipSpace(s) == s[1..];
      assert s[1..][0] == '/' && s[1..][1] == ']' && s[1..][2..] == r;
    } else {
      assert s[0] == ']' && s[1..] == r;
      assert SkipSpace(s) == s;
    }
  }

  lemma SkipOneSpace(a: Attribute, t: string)
    requires ValidName(a.name)
    ensures SkipSpace(EmitAttribute(a) + t) == a.name + EmitValue(a.value) + t
  {
    var s := EmitAttribute(a) + t;
    var rest := a.name + EmitValue(a.value) + t;
    assert s == " " + rest;
    assert s[0] == ' ' && s[1..] == rest;
    assert rest[0] == a.name[0];
    assert NameChar(a.name[0]);
  }

  lemma {:induction false} AttributesThen(attributes: seq<Attribute>, selfClosing: bool, r: string, lim: Limits)
    requires forall i :: 0 <= i < |attributes| ==> ValidName(attributes[i].name)
    ensures ScanAttributes(Tail(attributes, selfClosing, r), lim) ==
            if AttributesFit(attributes, lim) then Some(TagEnd(QuoteAttributes(attributes), selfClosing, r)) else None
  {
    if attributes == [] {
      assert Tail(attributes, selfClosing, r) == EmitEnd(selfClosing) + r;
      EndThen(selfClosing, r, lim);
    } else {
      var a, rest := attributes[0], attributes[1..];
      var tail := Tail(rest, selfClosing, r);
      Associative(EmitAttribute(a), EmitAttributes(rest), EmitEnd(selfClosing) + r);
      assert Tail(attributes, selfClosing, r) == EmitAttribute(a) + tail;
      TailStart(rest, selfClosing, r);
      SkipOneSpace(a, tail);
      AttributeThen(a, tail, lim);
      AttributesThen(rest, selfClosing, r, lim);
      FirstAttribute(a, tail, lim);
      assert forall i :: 0 < i < |attributes| ==> attributes[i] == rest[i - 1];
    }
  }

  /** Reading an attribute list whose first attribute is `a`. */
  lemma FirstAttribute(a: Attribute, tail: string, lim: Limits)
    requires ValidName(a.name) && tail != "" && (tail[0] == ' ' || tail[0] == ']')
    ensures ScanAttributes(EmitAttribute(a) + tail, lim) ==
            if !ValueFits(a.value, lim) || ScanAttributes(tail, lim).None? then None
            else Some(ScanAttributes(tail, lim).value.(
                        attributes := [Attribute(a.name, QuoteValue(a.value))]
                                      + ScanAttributes(tail, lim).value.attributes))
  {
    SkipOneSpace(a, tail);
    AttributeThen(a, tail, lim);
    var t := a.name + EmitValue(a.value) + tail;
    assert t[0] == a.name[0] && NameChar(t[0]);
  }

  predicate TokenFits(t: Token, lim: Limits) {
    match t
    case OpenTag(_, attributes, _) => AttributesFit(attributes, lim)
    case Content(text) => ByteLen(text) <= lim.text
    case _ => true
  }

  lemma OpenParts(name: string, attributes: string, end: string, r: string)
    requires name != ""
    ensures var s := "[" + name + attributes + end + r;
            s[0] == '[' && s[1] == name[0] && s[1..] == name + (attributes + (end + r))
  {
  }

  lemma OpenThen(t: Token, r: string, lim: Limits)
    requires t.OpenTag? && ValidToken(t)
    ensures var s := EmitToken(t) + r;
            StartsTag(s) && NextToken(s, lim) == if TokenFits(t, lim) then Some((Quote(t), r)) else None
  {
    var s := EmitToken(t) + r;
    var tail := Tail(t.attributes, t.selfClosing, r);
    OpenParts(t.name, EmitAttributes(t.attributes), EmitEnd(t.selfClosing), r);
    assert s[1..] == t.name + tail;
    assert (t.name + tail)[0] == t.name[0] && NameChar(t.name[0]);
    TailStart(t.attributes, t.selfClosing, r);
    NameThen(t.name, tail);
    assert SkipSpace(t.name + tail) == t.name + tail;
    AttributesThen(t.attributes, t.selfClosing, r, lim);
  }

  lemma CloseThen(t: Token, r: string, lim: Limits)
    requires t.CloseTag? && ValidToken(t)
    ensures var s := EmitToken(t) + r; StartsTag(s) && NextToken(s, lim) == Some((t, r))
  {
    var s := EmitToken(t) + r;
    var after := "]" + r;
    assert s[0] == '[' && s[1] == '/';
    assert s[1..][1..] == t.name + after;
    assert after[0] == ']' && after[1..] == r;
    NameThen(t.name, after);
    assert NameChar(t.name[0]) && (t.name + after)[0] == t.name[0];
    assert SkipSpace(t.name + after) == t.name + after;
    assert SkipSpace(after) == after;
  }

  // ---- streams are read back ----

  ghost predicate Fits(ts: Tokens, lim: Limits) {
    |ts| <= lim.tokens && forall i :: 0 <= i < |ts| ==> TokenFits(ts[i], lim)
  }

  ghost predicate AllFit(ts: Tokens, lim: Limits) {
    forall i :: 0 <= i < |ts| ==> TokenFits(ts[i], lim)
  }

  lemma EmitStart(ts: Tokens)
    requires ts != [] && NamesValid(ts) && !ts[0].Eof? && !ts[0].Content?
    ensures StartsTag(Emit(ts))
  {
    assert ValidToken(ts[0]);
    assert Emit(ts) == EmitToken(ts[0]) + Emit(ts[1..]);
    if ts[0].OpenTag? {
      OpenThen(ts[0], Emit(ts[1..]), ScanLimits());
    } else {
      CloseThen(ts[0], Emit(ts[1..]), ScanLimits());
    }
  }

  lemma ContentThen(text: string, r: string, lim: Limits)
    requires text != "" && (r == "" || StartsTag(r))
    ensures var s := EscapeText(text) + r;
            s != "" && NextToken(s, lim) == if ByteLen(text) <= lim.text then Some((Content(text), r)) else None
  {
    var s := EscapeText(text) + r;
    TextThen(text, r);
    assert EscapeText(text) == EscapeChar(text[0]) + EscapeText(text[1..]);
    assert |EscapeChar(text[0])| > 0;
    assert StartsTag(s) ==> ScanText(s).0 == "";
  }

  /** The first token of a normal stream is read back, and what follows is left. */
  lemma TokenThen(ts: Tokens, lim: Limits)
    requires ts != [] && Normal(ts) && NamesValid(ts)
    ensures Emit(ts) != ""
    ensures NextToken(Emit(ts), lim) == if TokenFits(ts[0], lim) then Some((ts[0], Emit(ts[1..]))) else None
  {
    var t, r := ts[0], Emit(ts[1..]);
    assert ValidToken(t) && Quote(t) == t && !t.Eof? && t != Content("");
    assert Emit(ts) == EmitToken(t) + r;
    if t.OpenTag? {
      OpenThen(t, r, lim);
    } else if t.CloseTag? {
      CloseThen(t, r, lim);
    } else {
      if |ts| > 1 {
        assert !(ts[0].Content? && ts[1].Content?) && !ts[1].Eof?;
        RestIsFine(ts);
        EmitStart(ts[1..]);
      }
      ContentThen(t.text, r, lim);
    }
  }

  lemma RestIsFine(ts: Tokens)
    requires ts != [] && Normal(ts) && NamesValid(ts)
    ensures Normal(ts[1..]) && NamesValid(ts[1..])
  {
    assert forall i :: 0 <= i < |ts[1..]| ==> ts[1..][i] == ts[i + 1];
  }

  lemma AllFitStep(ts: Tokens, lim: Limits)
    requires ts != []
    ensures AllFit(ts, lim) <==> TokenFits(ts[0], lim) && AllFit(ts[1..], lim)
  {
    assert forall i :: 0 < i < |ts| ==> ts[i] == ts[1..][i - 1];
  }

  lemma {:induction false} StreamThen(ts: Tokens, lim: Limits, room: nat)
    requires Normal(ts) && NamesValid(ts)
    ensures ScanTokens(Emit(ts), lim, room) == if |ts| <= room && AllFit(ts, lim) then Some(ts + [Eof]) else None
  {
    if ts == [] {
      assert Emit(ts) == "" && ts + [Eof] == [Eof];
    } else {
      TokenThen(ts, lim);
      RestIsFine(ts);
      AllFitStep(ts, lim);
      if room > 0 {
        StreamThen(ts[1..], lim, room - 1);
        assert [ts[0]] + (ts[1..] + [Eof]) == ts + [Eof];
      }
    }
  }

  /** Unique decodability: a left-to-right reader undoes the serializer on every stream with valid
      names, up to normalisation, and refuses it exactly when a limit is exceeded. */
  lemma DecodeUndoesEmit(ts: Tokens, lim: Limits)
    requires NamesValid(ts)
    ensures ScanTokens(Emit(ts), lim, lim.tokens) ==
            if Fits(Normalize(ts), lim) then Some(Normalize(ts) + [Eof]) else None
  {
    NormalizeIsNormal(ts);
    NormalizeKeepsText(ts);
    NormalizeKeepsNames(ts);
    StreamThen(Normalize(ts), lim, lim.tokens);
  }

  // ---- the serializer is injective ----

  function Larger(a: nat, b: nat): nat {
    if a < b then b else a
  }

  function Most(a: Limits, b: Limits): Limits {
    Limits(Larger(a.tokens, b.tokens), Larger(a.text, b.text), Larger(a.value, b.value))
  }

  function ValueRoom(attributes: seq<Attribute>): nat {
    if attributes == [] then 0
    else Larger(if attributes[0].value.Flag? then 0 else |attributes[0].value.text|, ValueRoom(attributes[1..]))
  }

  function RoomFor(ts: Tokens): Limits {
    if ts == [] then Limits(0, 0, 0)
    else
      var rest := RoomFor(ts[1..]);
      Most(Limits(rest.tokens + 1, if ts[0].Content? then ByteLen(ts[0].text) else 0,
                  if ts[0].OpenTag? then ValueRoom(ts[0].attributes) else 0), rest)
  }

  lemma {:induction false} ValueRoomFits(attributes: seq<Attribute>, lim: Limits)
    requires ValueRoom(attributes) <= lim.value
    ensures AttributesFit(attributes, lim)
  {
    if attributes != [] {
      ValueRoomFits(attributes[1..], lim);
      assert forall i :: 0 < i < |attributes| ==> attributes[i] == attributes[1..][i - 1];
    }
  }

  lemma {:induction false} RoomFits(ts: Tokens, lim: Limits)
    requires RoomFor(ts).tokens <= lim.tokens && RoomFor(ts).text <= lim.text && RoomFor(ts).value <= lim.value
    ensures Fits(ts, lim) && RoomFor(ts).tokens == |ts|
  {
    if ts != [] {
      RoomFits(ts[1..], lim);
      if ts[0].OpenTag? {
        ValueRoomFits(ts[0].attributes, lim);
      }
      assert forall i :: 0 < i < |ts| ==> ts[i] == ts[1..][i - 1];
    }
  }

  /** Two streams are written alike only when they are alike up to normalisation. */
  lemma EmitIsInjective(ts: Tokens, us: Tokens)
    requires NamesValid(ts) && NamesValid(us)
    ensures Emit(ts) == Emit(us) <==> Normalize(ts) == Normalize(us)
  {
    NormalizeKeepsText(ts);
    NormalizeKeepsText(us);
    if Emit(ts) == Emit(us) {
      var lim := Most(RoomFor(Normalize(ts)), RoomFor(Normalize(us)));
      RoomFits(Normalize(ts), lim);
      RoomFits(Normalize(us), lim);
      DecodeUndoesEmit(ts, lim);
      DecodeUndoesEmit(us, lim);
      assert (Normalize(ts) + [Eof])[..|Normalize(ts)|] == Normalize(ts);
      assert (Normalize(us) + [Eof])[..|Normalize(us)|] == Normalize(us);
    }
  }

  // ---- through the sanitizer ----

  ghost predicate CleanValue(v: AttributeValue) {
    v.Flag? || AllPlain(v.text)
  }

  ghost predicate CleanAttributes(attributes: seq<Attribute>) {
    forall i :: 0 <= i < |attributes| ==> CleanValue(attributes[i].value)
  }

  ghost predicate CleanToken(t: Token) {
    match t
    case OpenTag(_, attributes, _) => CleanAttributes(attributes)
    case Content(text) => AllPlain(text)
    case _ => true
  }

  ghost predicate Clean(ts: Tokens) {
    forall i :: 0 <= i < |ts| ==> CleanToken(ts[i])
  }

  lemma {:induction false} FlatIsPlain<T>(f: T -> string, xs: seq<T>)
    requires forall i :: 0 <= i < |xs| ==> AllPlain(f(xs[i]))
    ensures AllPlain(Flat(f, xs))
  {
    if xs != [] {
      assert forall i :: 0 <= i < |xs[1..]| ==> xs[1..][i] == xs[i + 1];
      FlatIsPlain(f, xs[1..]);
      assert AllPlain(f(xs[0]));
      PlainAppend(f(xs[0]), Flat(f, xs[1..]));
    }
  }

  lemma PlainAppend(a: string, b: string)
    requires AllPlain(a) && AllPlain(b)
    ensures AllPlain(a + b)
  {
  }

  lemma AttributeIsPlain(a: Attribute)
    requires ValidName(a.name) && CleanValue(a.value)
    ensures AllPlain(EmitAttribute(a))
  {
    assert AllPlain(a.name);
    assert AllPlain(" ");
    PlainAppend(" ", a.name);
    if !a.value.Flag? {
      FlatIsPlain(EscapeValueChar, a.value.text);
      assert AllPlain("=\"") && AllPlain("\"");
      PlainAppend("=\"", EscapeValue(a.value.text));
      PlainAppend("=\"" + EscapeValue(a.value.text), "\"");
    }
    PlainAppend(" " + a.name, EmitValue(a.value));
  }

  lemma TokenIsPlain(t: Token)
    requires ValidToken(t) && CleanToken(t)
    ensures AllPlain(EmitToken(t))
  {
    if t.Content? {
      FlatIsPlain(EscapeChar, t.text);
    } else if t.OpenTag? {
      forall i | 0 <= i < |t.attributes|
        ensures AllPlain(EmitAttribute(t.attributes[i]))
      {
        AttributeIsPlain(t.attributes[i]);
      }
      FlatIsPlain(EmitAttribute, t.attributes);
      assert AllPlain(t.name) && AllPlain("[");
      PlainAppend("[", t.name);
      PlainAppend("[" + t.name, EmitAttributes(t.attributes));
      assert AllPlain(EmitEnd(t.selfClosing));
      PlainAppend("[" + t.name + EmitAttributes(t.attributes), EmitEnd(t.selfClosing));
    } else if t.CloseTag? {
      assert AllPlain(t.name) && AllPlain("[/") && AllPlain("]");
      PlainAppend("[/", t.name);
      PlainAppend("[/" + t.name, "]");
    }
  }

  lemma EmitIsPlain(ts: Tokens)
    requires NamesValid(ts) && Clean(ts)
    ensures AllPlain(Emit(ts))
  {
    forall i | 0 <= i < |ts|
      ensures AllPlain(EmitToken(ts[i]))
    {
      TokenIsPlain(ts[i]);
    }
    FlatIsPlain(EmitToken, ts);
  }

  lemma CleanRoundTrip(ts: Tokens)
    requires NamesValid(ts) && Clean(ts)
    ensures Scan(Emit(ts)) ==
            if ByteLen(Emit(ts)) <= MAX_INPUT_SIZE && Fits(Normalize(ts), ScanLimits())
            then Some(Normalize(ts) + [Eof]) else None
  {
    EmitIsPlain(ts);
    PlainIsKept(Emit(ts));
    DecodeUndoesEmit(ts, ScanLimits());
  }

  lemma CleanAttributesStep(attributes: seq<Attribute>)
    requires attributes != []
    ensures CleanAttributes(attributes) <==> CleanValue(attributes[0].value) && CleanAttributes(attributes[1..])
  {
    assert forall i :: 0 < i < |attributes| ==> attributes[i] == attributes[1..][i - 1];
  }

  lemma {:induction false} QuotedCleanAttributes(attributes: seq<Attribute>)
    ensures CleanAttributes(QuoteAttributes(attributes)) <==> CleanAttributes(attributes)
  {
    if attributes != [] {
      QuotedCleanAttributes(attributes[1..]);
      var quoted := QuoteAttributes(attributes);
      assert quoted[0].value == QuoteValue(attributes[0].value) && quoted[1..] == QuoteAttributes(attributes[1..]);
      CleanAttributesStep(attributes);
      CleanAttributesStep(quoted);
    }
  }

  lemma PrependIsClean(t: Token, ts: Tokens)
    ensures Clean(Prepend(t, ts)) <==> CleanToken(t) && Clean(ts)
  {
    var after := Prepend(t, ts);
    if t.Eof? || t == Content("") {
    } else if t.Content? && ts != [] && ts[0].Content? {
      assert after[0].text == t.text + ts[0].text && after[1..] == ts[1..];
      assert forall i :: 0 < i < |ts| ==> after[i] == ts[i];
      assert forall i :: 0 <= i < |t.text| ==> after[0].text[i] == t.text[i];
      assert forall i :: 0 <= i < |ts[0].text| ==> after[0].text[|t.text| + i] == ts[0].text[i];
    } else {
      if t.OpenTag? {
        QuotedCleanAttributes(t.attributes);
      }
      assert after[0] == Quote(t) && forall i :: 0 <= i < |ts| ==> after[i + 1] == ts[i];
    }
  }

  /** Normalising neither adds nor removes a character that is not plain. */
  lemma {:induction false} NormalizeIsClean(ts: Tokens)
    ensures Clean(Normalize(ts)) <==> Clean(ts)
  {
    if ts != [] {
      NormalizeIsClean(ts[1..]);
      PrependIsClean(ts[0], Normalize(ts[1..]));
      assert forall i :: 0 < i < |ts| ==> ts[i] == ts[1..][i - 1];
    }
  }

  /** The whole scanner undoes the serializer on a stream with valid names if and only if no text or
      value in it holds a control or deceptive character and the document is within the scanner's limits. */
  lemma RoundTrip(ts: Tokens)
    requires NamesValid(ts)
    ensures Scan(Emit(ts)) == Some(Normalize(ts) + [Eof]) <==>
            Clean(ts) && ByteLen(Emit(ts)) <= MAX_INPUT_SIZE && Fits(Normalize(ts), ScanLimits())
  {
    NormalizeIsClean(ts);
    CleanBeforeEnd(Normalize(ts));
    if Scan(Emit(ts)).Some? {
      ScannedIsClean(Emit(ts));
    }
    if Clean(ts) {
      CleanRoundTrip(ts);
    }
  }

  lemma CleanBeforeEnd(ts: Tokens)
    ensures Clean(ts + [Eof]) <==> Clean(ts)
  {
    assert forall i :: 0 <= i < |ts| ==> (ts + [Eof])[i] == ts[i];
  }

  /** The limits are needed: a text longer than the scanner admits is written and then refused. */
  lemma LongTextIsRefused(text: string)
    requires AllPlain(text) && ByteLen(text) > ScanLimits().text
    ensures NamesValid([Content(text)]) && Scan(Emit([Content(text)])) == None
  {
    var ts := [Content(text)];
    assert ts[1..] == [] && text != "";
    assert Normalize(ts) == ts;
    assert !TokenFits(ts[0], ScanLimits());
    CleanRoundTrip(ts);
  }

  lemma ScanOfSanitized(input: string, clean: string, ts: Tokens)
    requires ByteLen(input) <= MAX_INPUT_SIZE && Sanitize(input) == clean
    requires ScanTokens(clean, ScanLimits(), ScanLimits().tokens) == Some(ts)
    ensures Scan(input) == Some(ts)
  {
  }

  lemma OneToken(s: string, t: Token, lim: Limits, room: nat)
    requires s != "" && room > 0 && NextToken(s, lim) == Some((t, ""))
    ensures ScanTokens(s, lim, room) == Some([t, Eof])
  {
    assert ScanTokens("", lim, room - 1) == Some([Eof]);
    assert [t] + [Eof] == [t, Eof];
  }

  lemma StrayBracket(lim: Limits)
    requires lim.text > 0
    ensures NextToken("]", lim) == Some((Content("]"), ""))
  {
    var s := "]";
    assert s[1..] == "" && ScanText("") == ("", "");
    assert [s[0]] + "" == s;
    assert ScanText(s) == (s, "");
    ByteLenAscii(s);
  }

  lemma EmitOne(t: Token)
    ensures Emit([t]) == EmitToken(t)
  {
    FlatOne(EmitToken, t);
  }

  lemma EscapeTextSplit(c: char, rest: string)
    ensures EscapeText([c] + rest) == EscapeChar(c) + EscapeText(rest)
  {
    assert ([c] + rest)[1..] == rest;
  }

  /** Clean text is needed: an escape character in a text swallows the tag written after it. */
  lemma EscapeCharacterSwallowsTag()
    ensures Scan(Emit([Content([27 as char]), OpenTag("b", [], false)])) == Some([Content("]"), Eof])
  {
    var esc := 27 as char;
    var t := OpenTag("b", [], false);
    var ts := [Content([esc]), t];
    assert ts[1..] == [t];
    EmitOne(t);
    assert EmitAttributes([]) == "";
    assert EmitToken(t) == "[b]";
    assert EscapeText([esc]) == [esc] by {
      assert [esc] == [esc] + "";
      EscapeTextSplit(esc, "");
      assert [esc] + "" == [esc];
    }
    var s := [esc] + "[b]";
    assert Emit(ts) == EmitToken(ts[0]) + Emit(ts[1..]) == s;
    assert s[1..] == "[b]" && "[b]"[1..] == "b]" && "b]"[1..] == "]";
    assert SkipControlSequence("b]") == "]";
    assert SkipEscape("[b]") == "]";
    PlainIsKept("]");
    assert Sanitize(s) == "]";
    ByteLenAscii(s);
    StrayBracket(ScanLimits());
    OneToken("]", Content("]"), ScanLimits(), ScanLimits().tokens);
    ScanOfSanitized(s, "]", [Content("]"), Eof]);
  }

  /** The text that is misread: a control sequence introducer and a bracketed name. */
  function Introducer(): char {
    0x9b as char
  }

  lemma IntroducedText(name: string)
    requires ValidName(name)
    ensures EscapeText([Introducer()] + ("[" + (name + "]"))) == [Introducer()] + ("[[" + (name + "]]"))
  {
    EscapeTextSplit(Introducer(), "[" + (name + "]"));
    EscapeTextSplit('[', name + "]");
    FlatAppend(EscapeChar, name, "]");
    NameIsUnescaped(name);
    FlatOne(EscapeChar, ']');
  }

  /** The first of the doubled brackets ends the control sequence. */
  lemma IntroducerEatsBracket(rest: string)
    requires AllPlain(rest)
    ensures Sanitize([Introducer()] + ("[[" + rest)) == "[" + rest
  {
    var clean := "[" + rest;
    var s := [Introducer()] + ("[[" + rest);
    assert s[1..] == "[" + clean;
    assert ("[" + clean)[0] == '[' && ("[" + clean)[1..] == clean;
    assert SkipControlSequence("[" + clean) == clean;
    PlainIsKept(clean);
  }

  lemma {:induction false} NameIsUnescaped(name: string)
    requires forall i :: 0 <= i < |name| ==> NameChar(name[i])
    ensures EscapeText(name) == name
  {
    if name != "" {
      NameIsUnescaped(name[1..]);
      assert name == [name[0]] + name[1..];
      EscapeTextSplit(name[0], name[1..]);
    }
  }

  lemma BracketedTagScans(name: string, lim: Limits, room: nat)
    requires ValidName(name) && lim.text > 0 && room > 1
    ensures ScanTokens("[" + (name + "]]"), lim, room) == Some([OpenTag(name, [], false), Content("]"), Eof])
  {
    var t := OpenTag(name, [], false);
    var s := "[" + (name + "]]");
    assert EmitToken(t) == "[" + name + "" + "]";
    assert s == EmitToken(t) + "]";
    OpenThen(t, "]", lim);
    StrayBracket(lim);
    OneToken("]", Content("]"), lim, room - 1);
    assert [t] + [Content("]"), Eof] == [t, Content("]"), Eof];
  }

  /** A text that holds the introducer and a bracketed name is read back as that tag: of every text
      the serializer writes, these become markup. */
  lemma IntroducerMakesTag(name: string)
    requires ValidName(name) && |name| + 6 <= MAX_INPUT_SIZE
    ensures Scan(Emit([Content([Introducer()] + ("[" + (name + "]")))]))
            == Some([OpenTag(name, [], false), Content("]"), Eof])
  {
    EmitOne(Content([Introducer()] + ("[" + (name + "]"))));
    IntroducedText(name);
    IntroducerEatsBracket(name + "]]");
    var tail := "[[" + (name + "]]");
    assert Ascii(tail);
    ByteLenAscii(tail);
    ByteLenAppend([Introducer()], tail);
    assert [Introducer()][1..] == "";
    assert ByteLen([Introducer()]) == 2;
    BracketedTagScans(name, ScanLimits(), ScanLimits().tokens);
    ScanOfSanitized([Introducer()] + tail, "[" + (name + "]]"), [OpenTag(name, [], false), Content("]"), Eof]);
  }

  // ---- what the scanner produces can be written and read again ----

  ghost predicate ScannedAttributes(attributes: seq<Attribute>, lim: Limits) {
    && (forall i :: 0 <= i < |attributes| ==> ValidName(attributes[i].name))
    && CleanAttributes(attributes) && AttributesFit(attributes, lim)
  }

  /** A token as the scanner produces it. */
  ghost predicate ScannedToken(t: Token, lim: Limits) {
    ValidToken(t) && CleanToken(t) && TokenFits(t, lim) && !t.Eof? && t != Content("")
  }

  ghost predicate ScannedBody(ts: Tokens, lim: Limits) {
    && (forall i :: 0 <= i < |ts| ==> ScannedToken(ts[i], lim))
    && (forall i :: 0 < i < |ts| ==> !(ts[i - 1].Content? && ts[i].Content?))
  }

  lemma {:induction false} NameRest(s: string)
    requires AllPlain(s)
    ensures AllPlain(ScanName(s).1)
  {
    if s != "" && ScannedNameChar(s[0]) {
      NameRest(s[1..]);
    }
  }

  lemma {:induction false} SpaceRest(s: string)
    requires AllPlain(s)
    ensures AllPlain(SkipSpace(s))
  {
    if s != "" && IsWhitespace(s[0]) {
      SpaceRest(s[1..]);
    }
  }

  lemma {:induction false} QuotedIsPlain(s: string)
    requires AllPlain(s) && ScanQuoted(s).Some?
    ensures AllPlain(ScanQuoted(s).value.0) && AllPlain(ScanQuoted(s).value.1)
  {
    if s[0] == '"' {
    } else if s[0] == '\\' {
      QuotedIsPlain(s[2..]);
      assert AllPlain(Unescape(s[1]));
      PlainAppend(Unescape(s[1]), ScanQuoted(s[2..]).value.0);
    } else {
      QuotedIsPlain(s[1..]);
    }
  }

  lemma {:induction false} UnquotedIsPlain(s: string)
    requires AllPlain(s)
    ensures AllPlain(ScanUnquoted(s).0) && AllPlain(ScanUnquoted(s).1)
  {
    if !(s == "" || IsWhitespace(s[0]) || s[0] == ']' || s[0] == '/') {
      UnquotedIsPlain(s[1..]);
    }
  }

  lemma AttributeIsScanned(s: string, lim: Limits)
    requires s != "" && AllPlain(s) && ScanAttribute(s, lim).Some?
    ensures AllPlain(ScanAttribute(s, lim).value.1)
    ensures var a := ScanAttribute(s, lim).value.0; a.Some? ==> ScannedAttributes([a.value], lim)
  {
    NameRest(s);
    var rest := ScanName(s).1;
    if ScanName(s).0 != "" && rest != "" && rest[0] == '=' {
      var v := rest[1..];
      if v != "" && v[0] == '"' {
        QuotedIsPlain(v[1..]);
      } else {
        UnquotedIsPlain(v);
      }
    }
  }

  lemma {:induction false} AttributesAreScanned(s: string, lim: Limits)
    requires AllPlain(s) && ScanAttributes(s, lim).Some?
    ensures AllPlain(ScanAttributes(s, lim).value.rest)
    ensures ScannedAttributes(ScanAttributes(s, lim).value.attributes, lim)
    decreases |s|
  {
    SpaceRest(s);
    var t := SkipSpace(s);
    if t[0] == ']' || (t[0] == '/' && |t| > 1 && t[1] == ']') {
    } else {
      AttributeIsScanned(t, lim);
      AttributesAreScanned(ScanAttribute(t, lim).value.1, lim);
    }
  }

  lemma {:induction false} TextIsPlain(s: string)
    requires AllPlain(s)
    ensures AllPlain(ScanText(s).0) && AllPlain(ScanText(s).1)
    decreases |s|
  {
    if !(s == "" || StartsTag(s)) {
      TextIsPlain(if (s[0] == '[' || s[0] == ']') && |s| > 1 && s[1] == s[0] then s[2..] else s[1..]);
    }
  }

  lemma TagIsScanned(s: string, lim: Limits)
    requires AllPlain(s) && ScanTag(s, lim).Some?
    ensures ScannedToken(ScanTag(s, lim).value.0, lim) && AllPlain(ScanTag(s, lim).value.1)
    ensures !ScanTag(s, lim).value.0.Content?
  {
    if s != "" && s[0] == '/' {
      SpaceRest(s[1..]);
      NameRest(SkipSpace(s[1..]));
      SpaceRest(ScanName(SkipSpace(s[1..])).1);
    } else {
      SpaceRest(s);
      NameRest(SkipSpace(s));
      AttributesAreScanned(ScanName(SkipSpace(s)).1, lim);
    }
  }

  lemma TokenIsScanned(s: string, lim: Limits)
    requires s != "" && AllPlain(s) && NextToken(s, lim).Some?
    ensures ScannedToken(NextToken(s, lim).value.0, lim) && AllPlain(NextToken(s, lim).value.1)
    ensures NextToken(s, lim).value.0.Content? <==> !StartsTag(s)
    ensures NextToken(s, lim).value.0.Content? && NextToken(s, lim).value.1 != "" ==>
              StartsTag(NextToken(s, lim).value.1)
  {
    if StartsTag(s) {
      TagIsScanned(s[1..], lim);
    } else {
      TextIsPlain(s);
    }
  }

  lemma BodyPrepend(t: Token, others: Tokens, lim: Limits)
    requires ScannedToken(t, lim) && ScannedBody(others, lim) && (others != [] ==> !(t.Content? && others[0].Content?))
    ensures ScannedBody([t] + others, lim)
  {
    var body := [t] + others;
    assert forall i :: 0 < i < |body| ==> body[i] == others[i - 1];
  }

  /** Every stream the scanner produces ends once, at its end, and its body has valid names, plain
      characters, no empty and no adjacent texts, and is within the limits. */
  lemma {:induction false} StreamIsScanned(s: string, lim: Limits, room: nat) returns (body: Tokens)
    requires AllPlain(s) && ScanTokens(s, lim, room).Some?
    ensures ScanTokens(s, lim, room).value == body + [Eof]
    ensures ScannedBody(body, lim) && |body| <= room
    ensures body != [] ==> s != "" && (body[0].Content? <==> !StartsTag(s))
    decreases |s|
  {
    if s == "" {
      body := [];
    } else {
      TokenIsScanned(s, lim);
      var (t, rest) := NextToken(s, lim).value;
      var others := StreamIsScanned(rest, lim, room - 1);
      body := [t] + others;
      BodyPrepend(t, others, lim);
      assert body + [Eof] == [t] + (others + [Eof]);
    }
  }

  /** Scanned streams hold plain characters and valid names only. */
  lemma ScannedIsClean(input: string)
    requires Scan(input).Some?
    ensures Clean(Scan(input).value) && NamesValid(Scan(input).value)
  {
    SanitizedIsPlain(input);
    var body := StreamIsScanned(Sanitize(input), ScanLimits(), ScanLimits().tokens);
    forall i | 0 <= i < |Scan(input).value|
      ensures CleanToken(Scan(input).value[i]) && ValidToken(Scan(input).value[i])
    {
      if i < |body| {
        assert ScannedToken(body[i], ScanLimits());
      }
    }
  }

  function QuoteAll(ts: Tokens): (r: Tokens)
    ensures |r| == |ts| && forall i :: 0 <= i < |ts| ==> r[i] == Quote(ts[i])
  {
    if ts == [] then [] else [Quote(ts[0])] + QuoteAll(ts[1..])
  }

  lemma {:induction false} NormalizeScanned(body: Tokens, lim: Limits)
    requires ScannedBody(body, lim)
    ensures Normalize(body + [Eof]) == QuoteAll(body)
  {
    if body == [] {
      assert body + [Eof] == [Eof];
      assert [Eof][1..] == [];
    } else {
      var ts := body + [Eof];
      assert ts[1..] == body[1..] + [Eof];
      assert forall i :: 0 <= i < |body[1..]| ==> body[1..][i] == body[i + 1];
      NormalizeScanned(body[1..], lim);
      assert ScannedToken(body[0], lim);
      if |body| > 1 {
        assert !(body[0].Content? && body[1].Content?);
        assert QuoteAll(body[1..])[0] == Quote(body[1]);
      }
    }
  }

  lemma {:induction false} QuotedAttributesScanned(attributes: seq<Attribute>, lim: Limits)
    requires ScannedAttributes(attributes, lim)
    ensures ScannedAttributes(QuoteAttributes(attributes), lim)
  {
    if attributes != [] {
      assert forall i :: 0 <= i < |attributes[1..]| ==> attributes[1..][i] == attributes[i + 1];
      QuotedAttributesScanned(attributes[1..], lim);
    }
  }

  lemma QuoteIsScanned(t: Token, lim: Limits)
    requires ScannedToken(t, lim)
    ensures ScannedToken(Quote(t), lim)
  {
    if t.OpenTag? {
      QuotedAttributesScanned(t.attributes, lim);
    }
  }

  /** The fuzzed property, for every input: what was scanned can be written, and scanning that gives
      the same stream, exactly when the written text is within the input limit. */
  lemma RescanIsIdentity(input: string)
    requires Scan(input).Some?
    ensures var ts := Normalize(Scan(input).value);
            && NamesValid(ts)
            && Scan(Emit(ts)) == if ByteLen(Emit(ts)) <= MAX_INPUT_SIZE then Some(ts + [Eof]) else None
  {
    SanitizedIsPlain(input);
    var lim := ScanLimits();
    var body := StreamIsScanned(Sanitize(input), lim, lim.tokens);
    NormalizeScanned(body, lim);
    var ts := QuoteAll(body);
    forall i | 0 <= i < |ts|
      ensures ScannedToken(ts[i], lim)
    {
      QuoteIsScanned(body[i], lim);
    }
    CleanRoundTrip(ts);
    NormalizeIsNormal(body + [Eof]);
    NormalIsFixed(ts);
  }

  lemma {:induction false} NormalIsFixed(ts: Tokens)
    requires Normal(ts)
    ensures Normalize(ts) == ts
  {
    if ts != [] {
      assert forall i :: 0 <= i < |ts[1..]| ==> ts[1..][i] == ts[i + 1];
      NormalIsFixed(ts[1..]);
      assert Quote(ts[0]) == ts[0] && !ts[0].Eof? && ts[0] != Content("");
      if |ts| > 1 {
        assert !(ts[0].Content? && ts[1].Content?);
      }
      assert ts == [ts[0]] + ts[1..];
    }
  }
}
