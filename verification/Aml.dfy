/** AML tokens and their serialization (serialize.rs). */
module Aml {
  import opened Wrappers
  import opened Text

  datatype AttributeValue = Quoted(text: string) | Ident(text: string) | Flag

  datatype Attribute = Attribute(name: string, value: AttributeValue)

  datatype Token =
    | OpenTag(name: string, attributes: seq<Attribute>, selfClosing: bool)
    | CloseTag(name: string)
    | Content(text: string)
    | Eof

  type Tokens = seq<Token>

  datatype SerializeError = TagName(name: string) | AttributeName(name: string)

  // ---- names ----

  /** Characters a name may hold once it is lower-cased. */
  predicate NameChar(c: char) {
    'a' <= c <= 'z' || '0' <= c <= '9' || c == '-' || c == '_'
  }

  predicate ValidName(name: string) {
    name != "" && forall i :: 0 <= i < |name| ==> NameChar(name[i])
  }

  ghost predicate ValidToken(t: Token) {
    match t
    case OpenTag(name, attributes, _) =>
      ValidName(name) && forall i :: 0 <= i < |attributes| ==> ValidName(attributes[i].name)
    case CloseTag(name) => ValidName(name)
    case _ => true
  }

  ghost predicate NamesValid(ts: Tokens) {
    forall i :: 0 <= i < |ts| ==> ValidToken(ts[i])
  }

  // ---- what is written ----

  function EscapeChar(c: char): string {
    if c == '[' then "[[" else if c == ']' then "]]" else [c]
  }

  function EscapeText(s: string): string {
    Flat(EscapeChar, s)
  }

  function EscapeValueChar(c: char): string {
    if c == '\\' then "\\\\" else if c == '"' then "\\\"" else if c == '\n' then "\\n"
    else if c == '\t' then "\\t" else [c]
  }

  function EscapeValue(s: string): string {
    Flat(EscapeValueChar, s)
  }

  function EmitValue(v: AttributeValue): string {
    if v.Flag? then "" else "=\"" + EscapeValue(v.text) + "\""
  }

  function EmitAttribute(a: Attribute): string {
    " " + a.name + EmitValue(a.value)
  }

  function EmitAttributes(attributes: seq<Attribute>): string {
    Flat(EmitAttribute, attributes)
  }

  function EmitEnd(selfClosing: bool): string {
    if selfClosing then " /]" else "]"
  }

  function EmitToken(t: Token): string {
    match t
    case Content(text) => EscapeText(text)
    case OpenTag(name, attributes, selfClosing) =>
      "[" + name + EmitAttributes(attributes) + EmitEnd(selfClosing)
    case CloseTag(name) => "[/" + name + "]"
    case Eof => ""
  }

  function Emit(ts: Tokens): string {
    Flat(EmitToken, ts)
  }

  /** The first name that cannot be written, in the order the serializer meets them. */
  function BadAttribute(attributes: seq<Attribute>): Option<SerializeError> {
    if attributes == [] then None
    else if !ValidName(attributes[0].name) then Some(AttributeName(attributes[0].name))
    else BadAttribute(attributes[1..])
  }

  function BadToken(t: Token): Option<SerializeError> {
    match t
    case OpenTag(name, attributes, _) => if !ValidName(name) then Some(TagName(name)) else BadAttribute(attributes)
    case CloseTag(name) => if !ValidName(name) then Some(TagName(name)) else None
    case _ => None
  }

  function Bad(ts: Tokens): Option<SerializeError> {
    if ts == [] then None else if BadToken(ts[0]).Some? then BadToken(ts[0]) else Bad(ts[1..])
  }

  lemma {:induction false} BadAttributeIff(attributes: seq<Attribute>)
    ensures BadAttribute(attributes).None? <==> forall i :: 0 <= i < |attributes| ==> ValidName(attributes[i].name)
  {
    if attributes != [] {
      BadAttributeIff(attributes[1..]);
      assert forall i :: 0 < i < |attributes| ==> attributes[i] == attributes[1..][i - 1];
    }
  }

  /** The error of a stream is that of its first token with an invalid name: the tag's own name, or else the
      first invalid one among its attributes. */
  lemma {:induction false} BadIsFirst(ts: Tokens, i: nat, k: nat)
    requires i < |ts| && !ValidToken(ts[i]) && forall j :: 0 <= j < i ==> ValidToken(ts[j])
    requires ts[i].OpenTag? && ValidName(ts[i].name) ==>
               k < |ts[i].attributes| && !ValidName(ts[i].attributes[k].name)
               && forall j :: 0 <= j < k ==> ValidName(ts[i].attributes[j].name)
    ensures Bad(ts) == Some(if ValidName(ts[i].name) then AttributeName(ts[i].attributes[k].name) else TagName(ts[i].name))
    decreases i
  {
    if i > 0 {
      assert forall j :: 0 < j < |ts| ==> ts[j] == ts[1..][j - 1];
      assert ValidToken(ts[0]);
      if ts[0].OpenTag? {
        BadAttributeIff(ts[0].attributes);
      }
      BadIsFirst(ts[1..], i - 1, k);
    } else if ts[0].OpenTag? && ValidName(ts[0].name) {
      FirstBadAttribute(ts[0].attributes, k);
    }
  }

  lemma {:induction false} FirstBadAttribute(attributes: seq<Attribute>, k: nat)
    requires k < |attributes| && !ValidName(attributes[k].name)
    requires forall j :: 0 <= j < k ==> ValidName(attributes[j].name)
    ensures BadAttribute(attributes) == Some(AttributeName(attributes[k].name))
    decreases k
  {
    if k > 0 {
      assert forall j :: 0 < j < |attributes| ==> attributes[j] == attributes[1..][j - 1];
      FirstBadAttribute(attributes[1..], k - 1);
    }
  }

  /** Only names fail: a stream is refused exactly when some name in it is not valid. */
  lemma {:induction false} BadIff(ts: Tokens)
    ensures Bad(ts).None? <==> NamesValid(ts)
  {
    if ts != [] {
      BadIff(ts[1..]);
      if ts[0].OpenTag? {
        BadAttributeIff(ts[0].attributes);
      }
      assert forall i :: 0 < i < |ts| ==> ts[i] == ts[1..][i - 1];
    }
  }

  // ---- the serializer ----

  method PushText(text: string, out: string) returns (r: string)
    ensures r == out + EscapeText(text)
  {
    r := out;
    for k := 0 to |text|
      invariant r == out + EscapeText(text[..k])
    {
      FlatSnoc(EscapeChar, text, k);
      Associative(out, EscapeText(text[..k]), EscapeChar(text[k]));
      var piece := [text[k]];
      if text[k] == '[' {
        piece := "[[";
      } else if text[k] == ']' {
        piece := "]]";
      }
      r := r + piece;
    }
    assert text[..|text|] == text;
  }

  method PushAttrValue(value: string, out: string) returns (r: string)
    ensures r == out + EscapeValue(value)
  {
    r := out;
    for k := 0 to |value|
      invariant r == out + EscapeValue(value[..k])
    {
      FlatSnoc(EscapeValueChar, value, k);
      Associative(out, EscapeValue(value[..k]), EscapeValueChar(value[k]));
      r := r + EscapeValueChar(value[k]);
    }
    assert value[..|value|] == value;
  }

  method PushAttribute(a: Attribute, out: string) returns (r: Result<string, SerializeError>)
    ensures r == if ValidName(a.name) then Ok(out + EmitAttribute(a)) else Err(AttributeName(a.name))
  {
    if !ValidName(a.name) {
      return Err(AttributeName(a.name));
    }
    var s := " " + a.name;
    if !a.value.Flag? {
      var quoted := PushAttrValue(a.value.text, "=\"");
      s := s + (quoted + "\"");
    }
    assert s == EmitAttribute(a);
    r := Ok(out + s);
  }

  method PushAttributes(attributes: seq<Attribute>, out: string) returns (r: Result<string, SerializeError>)
    ensures r == if BadAttribute(attributes).Some? then Err(BadAttribute(attributes).value)
                 else Ok(out + EmitAttributes(attributes))
  {
    var s := out;
    assert attributes[0..] == attributes;
    for k := 0 to |attributes|
      invariant s == out + EmitAttributes(attributes[..k])
      invariant BadAttribute(attributes[k..]) == BadAttribute(attributes)
    {
      FlatSnoc(EmitAttribute, attributes, k);
      Associative(out, EmitAttributes(attributes[..k]), EmitAttribute(attributes[k]));
      assert attributes[k..][1..] == attributes[k + 1..];
      var pushed := PushAttribute(attributes[k], s);
      if pushed.Err? {
        return Err(pushed.error);
      }
      s := pushed.value;
    }
    assert attributes[..|attributes|] == attributes;
    r := Ok(s);
  }

  method PushToken(t: Token, out: string) returns (r: Result<string, SerializeError>)
    ensures r == if BadToken(t).Some? then Err(BadToken(t).value) else Ok(out + EmitToken(t))
  {
    match t
    case Content(text) =>
      var s := PushText(text, out);
      r := Ok(s);
    case OpenTag(name, attributes, selfClosing) =>
      if !ValidName(name) {
        return Err(TagName(name));
      }
      var tag := PushAttributes(attributes, "[" + name);
      if tag.Err? {
        return Err(tag.error);
      }
      r := Ok(out + (tag.value + EmitEnd(selfClosing)));
    case CloseTag(name) =>
      if !ValidName(name) {
        return Err(TagName(name));
      }
      r := Ok(out + ("[/" + name + "]"));
    case Eof =>
      assert out + EmitToken(t) == out;
      r := Ok(out);
  }

  /** Serialize a stream; the first invalid name refuses it. */
  method ToAml(ts: Tokens) returns (r: Result<string, SerializeError>)
    ensures r == if Bad(ts).Some? then Err(Bad(ts).value) else Ok(Emit(ts))
  {
    var out := "";
    assert ts[0..] == ts;
    for k := 0 to |ts|
      invariant out == Emit(ts[..k]) && Bad(ts[k..]) == Bad(ts)
    {
      FlatSnoc(EmitToken, ts, k);
      assert ts[k..][1..] == ts[k + 1..];
      var pushed := PushToken(ts[k], out);
      if pushed.Err? {
        return Err(pushed.error);
      }
      out := pushed.value;
    }
    assert ts[..|ts|] == ts;
    r := Ok(out);
  }

  // ---- what a reader can still tell ----

  /** The value as it is written: an identifier becomes a quoted string. */
  function QuoteValue(v: AttributeValue): AttributeValue {
    if v.Ident? then Quoted(v.text) else v
  }

  function QuoteAttributes(attributes: seq<Attribute>): seq<Attribute> {
    if attributes == [] then []
    else [Attribute(attributes[0].name, QuoteValue(attributes[0].value))] + QuoteAttributes(attributes[1..])
  }

  function Quote(t: Token): Token {
    if t.OpenTag? then OpenTag(t.name, QuoteAttributes(t.attributes), t.selfClosing) else t
  }

  /** Prepend a token to a normalised stream. */
  function Prepend(t: Token, ts: Tokens): Tokens {
    if t.Eof? || t == Content("") then ts
    else if t.Content? && ts != [] && ts[0].Content? then [Content(t.text + ts[0].text)] + ts[1..]
    else [Quote(t)] + ts
  }

  /** Ends and empty texts dropped, adjacent texts merged, identifiers quoted. */
  function Normalize(ts: Tokens): Tokens {
    if ts == [] then [] else Prepend(ts[0], Normalize(ts[1..]))
  }

  ghost predicate Normal(ts: Tokens) {
    && (forall i :: 0 <= i < |ts| ==> !ts[i].Eof? && ts[i] != Content("") && Quote(ts[i]) == ts[i])
    && (forall i :: 0 < i < |ts| ==> !(ts[i - 1].Content? && ts[i].Content?))
  }

  lemma {:induction false} QuoteTwice(attributes: seq<Attribute>)
    ensures QuoteAttributes(QuoteAttributes(attributes)) == QuoteAttributes(attributes)
    ensures EmitAttributes(QuoteAttributes(attributes)) == EmitAttributes(attributes)
  {
    if attributes != [] {
      QuoteTwice(attributes[1..]);
      var rest := QuoteAttributes(attributes[1..]);
      var head := Attribute(attributes[0].name, QuoteValue(attributes[0].value));
      assert ([head] + rest)[1..] == rest;
      assert EmitAttribute(head) == EmitAttribute(attributes[0]);
    }
  }

  lemma PrependIsNormal(t: Token, ts: Tokens)
    requires Normal(ts)
    ensures Normal(Prepend(t, ts))
  {
    if t.OpenTag? {
      QuoteTwice(t.attributes);
    }
    var after := Prepend(t, ts);
    if t.Eof? || t == Content("") {
    } else if t.Content? && ts != [] && ts[0].Content? {
      assert forall i :: 0 < i < |after| ==> after[i] == ts[i];
    } else {
      assert forall i :: 0 < i < |after| ==> after[i] == ts[i - 1];
    }
  }

  lemma {:induction false} NormalizeIsNormal(ts: Tokens)
    ensures Normal(Normalize(ts))
  {
    if ts != [] {
      NormalizeIsNormal(ts[1..]);
      PrependIsNormal(ts[0], Normalize(ts[1..]));
    }
  }

  lemma PrependEmits(t: Token, ts: Tokens)
    ensures Emit(Prepend(t, ts)) == EmitToken(t) + Emit(ts)
  {
    if t.Eof? || t == Content("") {
      assert EmitToken(t) == "";
    } else if t.Content? && ts != [] && ts[0].Content? {
      FlatAppend(EscapeChar, t.text, ts[0].text);
      Associative(EscapeText(t.text), EscapeText(ts[0].text), Emit(ts[1..]));
      var after := Prepend(t, ts);
      assert after[1..] == ts[1..];
    } else {
      if t.OpenTag? {
        QuoteTwice(t.attributes);
      }
      assert ([Quote(t)] + ts)[1..] == ts;
    }
  }

  /** Normalising a stream does not change what is written. */
  lemma {:induction false} NormalizeKeepsText(ts: Tokens)
    ensures Emit(Normalize(ts)) == Emit(ts)
  {
    if ts != [] {
      NormalizeKeepsText(ts[1..]);
      PrependEmits(ts[0], Normalize(ts[1..]));
    }
  }

  lemma {:induction false} QuoteKeepsNames(attributes: seq<Attribute>)
    requires forall i :: 0 <= i < |attributes| ==> ValidName(attributes[i].name)
    ensures forall i :: 0 <= i < |QuoteAttributes(attributes)| ==> ValidName(QuoteAttributes(attributes)[i].name)
  {
    if attributes != [] {
      QuoteKeepsNames(attributes[1..]);
    }
  }

  lemma {:induction false} NormalizeKeepsNames(ts: Tokens)
    requires NamesValid(ts)
    ensures NamesValid(Normalize(ts))
  {
    if ts != [] {
      NormalizeKeepsNames(ts[1..]);
      if ts[0].OpenTag? {
        QuoteKeepsNames(ts[0].attributes);
      }
    }
  }
}
