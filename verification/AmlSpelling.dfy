/** What the scanner makes of a page as authors write it (scanner/mod.rs): names in either case, values
bare or quoted, blanks wherever they are allowed. */
module AmlSpelling {
  import opened Wrappers
  import opened Text
  import opened Aml
  import opened AmlScanner
  import opened AmlRoundTrip

  // ---- names, blanks and bare values ----

  function LowerAll(s: string): (r: string)
    ensures |r| == |s|
  {
    if s == "" then "" else [Lower(s[0])] + LowerAll(s[1..])
  }

  /** Letters in upper case mean those in lower case, and every other character itself. */
  lemma {:induction false} LoweredAt(s: string, i: nat)
    requires i < |s|
    ensures LowerAll(s)[i] == if 'A' <= s[i] <= 'Z' then 'a' + (s[i] - 'A') else s[i]
  {
    if i > 0 {
      LoweredAt(s[1..], i - 1);
    }
  }

  /** A name as it may be written. */
  predicate WrittenName(s: string) {
    s != "" && forall i :: 0 <= i < |s| ==> ScannedNameChar(s[i])
  }

  lemma {:induction false} WrittenNameThen(name: string, r: string)
    requires (forall i :: 0 <= i < |name| ==> ScannedNameChar(name[i])) && (r == "" || !ScannedNameChar(r[0]))
    ensures ScanName(name + r) == (LowerAll(name), r)
  {
    if name == "" {
      assert name + r == r;
    } else {
      WrittenNameThen(name[1..], r);
      assert (name + r)[1..] == name[1..] + r;
    }
  }

  lemma {:induction false} BlankThen(gap: string, r: string)
    requires Blank(gap) && (r == "" || !IsWhitespace(r[0]))
    ensures SkipSpace(gap + r) == r
  {
    if gap == "" {
      assert gap + r == r;
    } else {
      BlankThen(gap[1..], r);
      assert (gap + r)[1..] == gap[1..] + r;
    }
  }

  /** What ends a bare value. */
  predicate EndsValue(c: char) {
    IsWhitespace(c) || c == ']' || c == '/'
  }

  predicate BareValue(v: string) {
    (v != "" ==> v[0] != '"') && forall i :: 0 <= i < |v| ==> !EndsValue(v[i])
  }

  lemma {:induction false} BareThen(v: string, r: string)
    requires (forall i :: 0 <= i < |v| ==> !EndsValue(v[i])) && (r == "" || EndsValue(r[0]))
    ensures ScanUnquoted(v + r) == (v, r)
  {
    if v == "" {
      assert v + r == r;
    } else {
      BareThen(v[1..], r);
      assert (v + r)[1..] == v[1..] + r;
      assert v == [v[0]] + v[1..];
    }
  }

  // ---- attributes ----

  /** An attribute after at least one blank. */
  datatype Written = Written(gap: string, name: string, value: AttributeValue)

  predicate WrittenOk(a: Written) {
    a.gap != "" && Blank(a.gap) && WrittenName(a.name) && (a.value.Ident? ==> BareValue(a.value.text))
  }

  function WriteValue(v: AttributeValue): string {
    match v
    case Quoted(text) => "=" + ("\"" + EscapeValue(text) + "\"")
    case Ident(text) => "=" + text
    case Flag => ""
  }

  function Write(a: Written): string {
    a.gap + (a.name + WriteValue(a.value))
  }

  function WriteAll(attributes: seq<Written>): string {
    if attributes == [] then "" else Write(attributes[0]) + WriteAll(attributes[1..])
  }

  function Meaning(a: Written): Attribute {
    Attribute(LowerAll(a.name), a.value)
  }

  function Meanings(attributes: seq<Written>): seq<Attribute> {
    if attributes == [] then [] else [Meaning(attributes[0])] + Meanings(attributes[1..])
  }

  lemma WrittenValueThen(v: AttributeValue, r: string, lim: Limits)
    requires !v.Flag? && ValueFits(v, lim) && (v.Ident? ==> BareValue(v.text)) && r != "" && EndsValue(r[0])
    ensures var s := WriteValue(v) + r; s != "" && s[0] == '=' && ScanValue(s[1..], lim) == Some((v, r))
  {
    if v.Quoted? {
      var quoted := "\"" + EscapeValue(v.text) + "\"";
      AfterEquals(quoted, r);
      ValueThen(v, r, lim);
    } else {
      AfterEquals(v.text, r);
      BareValueThen(v.text, r, lim);
    }
  }

  lemma AfterEquals(value: string, r: string)
    ensures var s := "=" + value + r; s != "" && s[0] == '=' && s[1..] == value + r
  {
  }

  lemma BareValueThen(v: string, r: string, lim: Limits)
    requires BareValue(v) && |v| <= lim.value && r != "" && EndsValue(r[0])
    ensures ScanValue(v + r, lim) == Some((Ident(v), r))
  {
    BareThen(v, r);
    assert (v + r)[0] == if v == "" then r[0] else v[0];
  }

  lemma WrittenThen(a: Written, r: string, lim: Limits)
    requires WrittenOk(a) && ValueFits(a.value, lim) && r != "" && EndsValue(r[0])
    ensures ScanAttribute(a.name + (WriteValue(a.value) + r), lim) == Some((Some(Meaning(a)), r))
  {
    var after := WriteValue(a.value) + r;
    if a.value.Flag? {
      assert after == r;
    } else {
      WrittenValueThen(a.value, r, lim);
    }
    WrittenNameThen(a.name, after);
    assert LowerAll(a.name) != "";
  }

  function TagClose(selfClosing: bool): string {
    if selfClosing then "/]" else "]"
  }

  lemma WrittenEnd(gap: string, selfClosing: bool, r: string, lim: Limits)
    requires Blank(gap)
    ensures ScanAttributes(gap + (TagClose(selfClosing) + r), lim) == Some(TagEnd([], selfClosing, r))
  {
    var end := TagClose(selfClosing) + r;
    BlankThen(gap, end);
    if selfClosing {
      assert end[0] == '/' && end[1] == ']' && end[2..] == r;
    } else {
      assert end[0] == ']' && end[1..] == r;
    }
  }

  lemma OneWritten(a: Written, tail: string, lim: Limits, end: TagEnd)
    requires WrittenOk(a) && ValueFits(a.value, lim) && tail != "" && EndsValue(tail[0])
    requires ScanAttributes(tail, lim) == Some(end)
    ensures ScanAttributes(Write(a) + tail, lim) == Some(end.(attributes := [Meaning(a)] + end.attributes))
  {
    var t := a.name + (WriteValue(a.value) + tail);
    assert Write(a) + tail == a.gap + t;
    assert t[0] == a.name[0] && ScannedNameChar(t[0]);
    BlankThen(a.gap, t);
    WrittenThen(a, tail, lim);
  }

  predicate AllWritten(attributes: seq<Written>, lim: Limits) {
    forall i :: 0 <= i < |attributes| ==> WrittenOk(attributes[i]) && ValueFits(attributes[i].value, lim)
  }

  lemma {:induction false} AllWrittenThen(attributes: seq<Written>, gap: string, selfClosing: bool, r: string, lim: Limits)
    requires AllWritten(attributes, lim) && Blank(gap)
    ensures var s := WriteAll(attributes) + (gap + (TagClose(selfClosing) + r));
            && s != "" && EndsValue(s[0])
            && ScanAttributes(s, lim) == Some(TagEnd(Meanings(attributes), selfClosing, r))
  {
    var end := gap + (TagClose(selfClosing) + r);
    if attributes == [] {
      assert WriteAll(attributes) + end == end;
      WrittenEnd(gap, selfClosing, r, lim);
    } else {
      var a, rest := attributes[0], attributes[1..];
      assert forall i :: 0 <= i < |rest| ==> rest[i] == attributes[i + 1];
      AllWrittenThen(rest, gap, selfClosing, r, lim);
      var tail := WriteAll(rest) + end;
      Associative(Write(a), WriteAll(rest), end);
      assert (Write(a) + tail)[0] == a.gap[0];
      OneWritten(a, tail, lim, TagEnd(Meanings(rest), selfClosing, r));
    }
  }

  // ---- tokens ----

  /** A token as it may be written. */
  datatype WrittenToken =
    | WrittenOpen(before: string, name: string, attributes: seq<Written>, after: string, selfClosing: bool)
    | WrittenClose(before: string, name: string, after: string)
    | WrittenText(text: string)

  predicate TokenOk(t: WrittenToken, lim: Limits) {
    match t
    case WrittenOpen(before, name, attributes, after, _) =>
      Blank(before) && WrittenName(name) && AllWritten(attributes, lim) && Blank(after)
    case WrittenClose(before, name, after) => Blank(before) && WrittenName(name) && Blank(after)
    case WrittenText(text) => text != "" && ByteLen(text) <= lim.text
  }

  function WriteToken(t: WrittenToken): string {
    match t
    case WrittenOpen(before, name, attributes, after, selfClosing) =>
      "[" + (before + (name + (WriteAll(attributes) + (after + TagClose(selfClosing)))))
    case WrittenClose(before, name, after) => "[/" + (before + (name + (after + "]")))
    case WrittenText(text) => EscapeText(text)
  }

  function TokenMeaning(t: WrittenToken): Token {
    match t
    case WrittenOpen(_, name, attributes, _, selfClosing) => OpenTag(LowerAll(name), Meanings(attributes), selfClosing)
    case WrittenClose(_, name, _) => CloseTag(LowerAll(name))
    case WrittenText(text) => Content(text)
  }

  lemma OpenJoins(a: string, b: string, c: string, d: string, e: string, r: string)
    ensures "[" + (a + (b + (c + (d + e)))) + r == "[" + (a + (b + (c + (d + (e + r)))))
  {
  }

  /** An opening tag is read whatever its spelling. */
  lemma WrittenOpenThen(t: WrittenToken, r: string, lim: Limits)
    requires t.WrittenOpen? && TokenOk(t, lim)
    ensures var s := WriteToken(t) + r; StartsTag(s) && NextToken(s, lim) == Some((TokenMeaning(t), r))
  {
    var s := WriteToken(t) + r;
    OpenJoins(t.before, t.name, WriteAll(t.attributes), t.after, TagClose(t.selfClosing), r);
    var tail := WriteAll(t.attributes) + (t.after + (TagClose(t.selfClosing) + r));
    AllWrittenThen(t.attributes, t.after, t.selfClosing, r, lim);
    var named := t.name + tail;
    assert named[0] == t.name[0] && ScannedNameChar(named[0]);
    BlankThen(t.before, named);
    WrittenNameThen(t.name, tail);
    assert s[0] == '[' && s[1..] == t.before + named;
    assert (t.before + named)[0] == if t.before == "" then named[0] else t.before[0];
    assert LowerAll(t.name) != "";
  }

  lemma CloseJoins(a: string, b: string, c: string, r: string)
    ensures "[/" + (a + (b + (c + "]"))) + r == "[/" + (a + (b + (c + ("]" + r))))
  {
  }

  lemma WrittenCloseThen(t: WrittenToken, r: string, lim: Limits)
    requires t.WrittenClose? && TokenOk(t, lim)
    ensures var s := WriteToken(t) + r; StartsTag(s) && NextToken(s, lim) == Some((TokenMeaning(t), r))
  {
    var s := WriteToken(t) + r;
    CloseJoins(t.before, t.name, t.after, r);
    var end := "]" + r;
    var tail := t.after + end;
    var named := t.name + tail;
    assert end[0] == ']' && end[1..] == r;
    assert named[0] == t.name[0] && ScannedNameChar(named[0]);
    assert tail[0] == if t.after == "" then ']' else t.after[0];
    BlankThen(t.before, named);
    WrittenNameThen(t.name, tail);
    BlankThen(t.after, end);
    assert s[0] == '[' && s[1] == '/' && s[1..][1..] == t.before + named;
    assert LowerAll(t.name) != "";
  }

  lemma WrittenTextThen(t: WrittenToken, r: string, lim: Limits)
    requires t.WrittenText? && TokenOk(t, lim) && (r == "" || StartsTag(r))
    ensures var s := WriteToken(t) + r; s != "" && NextToken(s, lim) == Some((TokenMeaning(t), r))
  {
    ContentThen(t.text, r, lim);
  }

  function WriteStream(ts: seq<WrittenToken>): string {
    if ts == [] then "" else WriteToken(ts[0]) + WriteStream(ts[1..])
  }

  function StreamMeaning(ts: seq<WrittenToken>): Tokens {
    if ts == [] then [] else [TokenMeaning(ts[0])] + StreamMeaning(ts[1..])
  }

  /** Every token is well written, and no two texts follow one another. */
  predicate StreamOk(ts: seq<WrittenToken>, lim: Limits) {
    && (forall i :: 0 <= i < |ts| ==> TokenOk(ts[i], lim))
    && forall i :: 0 <= i < |ts| - 1 ==> !(ts[i].WrittenText? && ts[i + 1].WrittenText?)
  }

  lemma WrittenTokenThen(t: WrittenToken, r: string, lim: Limits)
    requires TokenOk(t, lim) && (t.WrittenText? ==> r == "" || StartsTag(r))
    ensures var s := WriteToken(t) + r; s != "" && NextToken(s, lim) == Some((TokenMeaning(t), r))
    ensures !t.WrittenText? ==> StartsTag(WriteToken(t) + r)
  {
    if t.WrittenOpen? {
      WrittenOpenThen(t, r, lim);
    } else if t.WrittenClose? {
      WrittenCloseThen(t, r, lim);
    } else {
      WrittenTextThen(t, r, lim);
    }
  }

  /** However a page is spelled, its tokens are the ones it spells. */
  lemma {:induction false} WrittenStreamScans(ts: seq<WrittenToken>, lim: Limits, room: nat)
    requires StreamOk(ts, lim) && |ts| <= room
    ensures ScanTokens(WriteStream(ts), lim, room) == Some(StreamMeaning(ts) + [Eof])
    decreases |ts|
  {
    if ts == [] {
      assert StreamMeaning(ts) + [Eof] == [Eof];
    } else {
      StreamRest(ts, lim);
      WrittenStreamScans(ts[1..], lim, room - 1);
      var rest := WriteStream(ts[1..]);
      StreamStarts(ts[1..], lim);
      WrittenTokenThen(ts[0], rest, lim);
      ScansOneMore(WriteToken(ts[0]) + rest, TokenMeaning(ts[0]), rest, lim, room);
      MeaningJoins(ts);
    }
  }

  lemma StreamRest(ts: seq<WrittenToken>, lim: Limits)
    requires ts != [] && StreamOk(ts, lim)
    ensures TokenOk(ts[0], lim) && StreamOk(ts[1..], lim)
    ensures ts[0].WrittenText? && ts[1..] != [] ==> !ts[1..][0].WrittenText?
  {
    var rest := ts[1..];
    assert forall i :: 0 <= i < |rest| ==> rest[i] == ts[i + 1];
  }

  lemma StreamStarts(ts: seq<WrittenToken>, lim: Limits)
    requires StreamOk(ts, lim)
    ensures ts == [] ==> WriteStream(ts) == ""
    ensures ts != [] && !ts[0].WrittenText? ==> StartsTag(WriteStream(ts))
  {
    if ts != [] && !ts[0].WrittenText? {
      WrittenTokenThen(ts[0], WriteStream(ts[1..]), lim);
    }
  }

  lemma MeaningJoins(ts: seq<WrittenToken>)
    requires ts != []
    ensures [TokenMeaning(ts[0])] + (StreamMeaning(ts[1..]) + [Eof]) == StreamMeaning(ts) + [Eof]
  {
  }

  lemma ScansOneMore(s: string, t: Token, rest: string, lim: Limits, room: nat)
    requires s != "" && room > 0 && NextToken(s, lim) == Some((t, rest)) && ScanTokens(rest, lim, room - 1).Some?
    ensures ScanTokens(s, lim, room) == Some([t] + ScanTokens(rest, lim, room - 1).value)
  {
  }

  /** A page within the scanner's limits scans to what it spells. */
  lemma WrittenPageScans(ts: seq<WrittenToken>)
    requires StreamOk(ts, ScanLimits()) && |ts| <= 50_000
    requires AllPlain(WriteStream(ts)) && ByteLen(WriteStream(ts)) <= MAX_INPUT_SIZE
    ensures Scan(WriteStream(ts)) == Some(StreamMeaning(ts) + [Eof])
  {
    PlainIsKept(WriteStream(ts));
    WrittenStreamScans(ts, ScanLimits(), ScanLimits().tokens);
  }

  // ---- the serializer's own spelling ----

  /** The attributes as the serializer writes them: one space, and every text quoted. */
  function Canonical(attributes: seq<Attribute>): seq<Written> {
    if attributes == [] then []
    else [Written(" ", attributes[0].name, QuoteValue(attributes[0].value))] + Canonical(attributes[1..])
  }

  function CanonicalToken(t: Token): WrittenToken
    requires !t.Eof?
  {
    match t
    case OpenTag(name, attributes, selfClosing) =>
      WrittenOpen("", name, Canonical(attributes), if selfClosing then " " else "", selfClosing)
    case CloseTag(name) => WrittenClose("", name, "")
    case Content(text) => WrittenText(text)
  }

  lemma {:induction false} AttributesAreCanonical(attributes: seq<Attribute>)
    ensures EmitAttributes(attributes) == WriteAll(Canonical(attributes))
  {
    if attributes != [] {
      var a := attributes[0];
      AttributesAreCanonical(attributes[1..]);
      AttributeIsCanonical(a);
      assert Canonical(attributes)[1..] == Canonical(attributes[1..]);
      assert EmitAttributes(attributes) == EmitAttribute(a) + EmitAttributes(attributes[1..]);
    }
  }

  lemma AttributeIsCanonical(a: Attribute)
    ensures EmitAttribute(a) == Write(Written(" ", a.name, QuoteValue(a.value)))
  {
    if a.value.Flag? {
      assert EmitAttribute(a) == " " + (a.name + "");
    } else {
      var text := EscapeValue(a.value.text);
      assert "=\"" + text + "\"" == "=" + ("\"" + text + "\"");
    }
  }

  /** The serializer writes one of the spellings. */
  lemma EmitIsCanonical(t: Token)
    requires !t.Eof?
    ensures EmitToken(t) == WriteToken(CanonicalToken(t))
  {
    if t.OpenTag? {
      AttributesAreCanonical(t.attributes);
      var end := EmitEnd(t.selfClosing);
      assert end == (if t.selfClosing then " " else "") + TagClose(t.selfClosing);
      assert "[" + t.name + EmitAttributes(t.attributes) + end == "[" + ("" + (t.name + (EmitAttributes(t.attributes) + end)));
    } else if t.CloseTag? {
      assert "[/" + t.name + "]" == "[/" + ("" + (t.name + ("" + "]")));
    }
  }
}
