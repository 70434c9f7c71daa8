/** The AML scanner (scanner/mod.rs and scanner/escape.rs): control sequences are removed from
the input, then tokens are read from left to right. Every refusal is `None`. */
module AmlScanner {
  import opened Wrappers
  import opened Text
  import opened Aml

  const MAX_INPUT_SIZE: nat := 1024 * 1024

  /** Most tokens, bytes of one text, and characters of one attribute value. */
  datatype Limits = Limits(tokens: nat, text: nat, value: nat)

  function ScanLimits(): Limits {
    Limits(50_000, 64 * 1024, 4096)
  }

  // ---- removing control sequences ----

  predicate Deceptive(c: char) {
    var n := c as int;
    || n == 0x61c || n == 0x200e || n == 0x200f || 0x202a <= n <= 0x202e || 0x2066 <= n <= 0x2069
    || n == 0x200b || 0x2060 <= n <= 0x2064 || 0xfff9 <= n <= 0xfffb || n == 0xfeff
  }

  /** Characters that are never removed or changed. */
  predicate Plain(c: char) {
    c == '\t' || c == '\n' || (!IsControl(c) && !Deceptive(c))
  }

  ghost predicate AllPlain(s: string) {
    forall i :: 0 <= i < |s| ==> Plain(s[i])
  }

  /** Skip to the end of a control sequence: a character from `@` to `~`. */
  function SkipControlSequence(s: string): (r: string)
    ensures |r| <= |s|
  {
    if s == "" then "" else if 0x40 <= s[0] as int <= 0x7e then s[1..] else SkipControlSequence(s[1..])
  }

  /** Skip to the end of a control string: BEL, or either form of the string terminator. */
  function SkipControlString(s: string): (r: string)
    ensures |r| <= |s|
  {
    if s == "" then ""
    else if s[0] as int == 7 || s[0] as int == 0x9c then s[1..]
    else if s[0] as int == 0x1b && |s| > 1 && s[1] == '\\' then s[2..]
    else SkipControlString(s[1..])
  }

  /** Skip what an escape character introduces. */
  function SkipEscape(s: string): (r: string)
    ensures |r| <= |s|
  {
    if s == "" then ""
    else if s[0] == '[' then SkipControlSequence(s[1..])
    else if s[0] == ']' || s[0] == 'P' || s[0] == '^' || s[0] == '_' then SkipControlString(s[1..])
    else s[1..]
  }

  function SkipC1(s: string, c: char): (r: string)
    ensures |r| <= |s|
  {
    var n := c as int;
    if n == 0x9b then SkipControlSequence(s)
    else if n == 0x90 || n == 0x9d || n == 0x9e || n == 0x9f then SkipControlString(s)
    else s
  }

  function Sanitize(s: string): string
    decreases |s|
  {
    if s == "" then ""
    else
      var c, rest := s[0], s[1..];
      if Plain(c) then [c] + Sanitize(rest)
      else if c == '\r' then (if rest != "" && rest[0] == '\n' then "" else "\n") + Sanitize(rest)
      else if c as int == 0x1b then Sanitize(SkipEscape(rest))
      else if 0x80 <= c as int <= 0x9f then Sanitize(SkipC1(rest, c))
      else Sanitize(rest)
  }

  /** Only plain characters come through. */
  lemma {:induction false} SanitizedIsPlain(s: string)
    ensures AllPlain(Sanitize(s))
    decreases |s|
  {
    if s != "" {
      var c, rest := s[0], s[1..];
      if Plain(c) || c == '\r' {
        SanitizedIsPlain(rest);
      } else if c as int == 0x1b {
        SanitizedIsPlain(SkipEscape(rest));
      } else if 0x80 <= c as int <= 0x9f {
        SanitizedIsPlain(SkipC1(rest, c));
      } else {
        SanitizedIsPlain(rest);
      }
    }
  }

  /** Plain text comes through unchanged; so sanitizing twice is sanitizing once. */
  lemma {:induction false} PlainIsKept(s: string)
    requires AllPlain(s)
    ensures Sanitize(s) == s
  {
    if s != "" {
      PlainIsKept(s[1..]);
      assert s == [s[0]] + s[1..];
    }
  }

  lemma SanitizeTwice(s: string)
    ensures Sanitize(Sanitize(s)) == Sanitize(s)
  {
    SanitizedIsPlain(s);
    PlainIsKept(Sanitize(s));
  }

  // ---- parts of a tag ----

  function SkipSpace(s: string): (r: string)
    ensures |r| <= |s|
    ensures r != "" ==> !IsWhitespace(r[0])
  {
    if s != "" && IsWhitespace(s[0]) then SkipSpace(s[1..]) else s
  }

  predicate ScannedNameChar(c: char) {
    NameChar(c) || 'A' <= c <= 'Z'
  }

  function Lower(c: char): char {
    if 'A' <= c <= 'Z' then ((c as int) + 32) as char else c
  }

  /** The name at the front, lower-cased, and what follows. */
  function ScanName(s: string): (r: (string, string))
    ensures |r.0| + |r.1| == |s|
    ensures r.0 != "" ==> ValidName(r.0)
  {
    if s != "" && ScannedNameChar(s[0]) then
      var (name, rest) := ScanName(s[1..]);
      ([Lower(s[0])] + name, rest)
    else ("", s)
  }

  function Unescape(c: char): string {
    if c == '"' then "\"" else if c == '\\' then "\\" else if c == 'n' then "\n" else if c == 't' then "\t"
    else "\\" + [c]
  }

  /** A quoted string after its opening quote, and what follows its closing quote. */
  function ScanQuoted(s: string): (r: Option<(string, string)>)
    ensures r.Some? ==> |r.value.1| < |s|
  {
    if s == "" then None
    else if s[0] == '"' then Some(("", s[1..]))
    else if s[0] == '\\' then
      if |s| == 1 then None
      else
        match ScanQuoted(s[2..])
        case None => None
        case Some((value, rest)) => Some((Unescape(s[1]) + value, rest))
    else
      match ScanQuoted(s[1..])
      case None => None
      case Some((value, rest)) => Some(([s[0]] + value, rest))
  }

  /** An unquoted value ends at white space, a bracket or a slash. */
  function ScanUnquoted(s: string): (r: (string, string))
    ensures |r.0| + |r.1| == |s|
  {
    if s == "" || IsWhitespace(s[0]) || s[0] == ']' || s[0] == '/' then ("", s)
    else
      var (value, rest) := ScanUnquoted(s[1..]);
      ([s[0]] + value, rest)
  }

  /** A value after its equals sign. */
  function ScanValue(s: string, lim: Limits): (r: Option<(AttributeValue, string)>)
    ensures r.Some? ==> |r.value.1| <= |s|
  {
    if s != "" && s[0] == '"' then
      match ScanQuoted(s[1..])
      case None => None
      case Some((value, rest)) => if |value| > lim.value then None else Some((Quoted(value), rest))
    else
      var (value, rest) := ScanUnquoted(s);
      if |value| > lim.value then None else Some((Ident(value), rest))
  }

  /** An attribute; a character that starts none is skipped. */
  function ScanAttribute(s: string, lim: Limits): (r: Option<(Option<Attribute>, string)>)
    requires s != ""
    ensures r.Some? ==> |r.value.1| < |s|
  {
    var (name, rest) := ScanName(s);
    if name == "" then Some((None, s[1..]))
    else if rest != "" && rest[0] == '=' then
      match ScanValue(rest[1..], lim)
      case None => None
      case Some((value, after)) => Some((Some(Attribute(name, value)), after))
    else Some((Some(Attribute(name, Flag)), rest))
  }

  datatype TagEnd = TagEnd(attributes: seq<Attribute>, selfClosing: bool, rest: string)

  /** Attributes up to the end of the tag. */
  function ScanAttributes(s: string, lim: Limits): (r: Option<TagEnd>)
    ensures r.Some? ==> |r.value.rest| < |s|
    decreases |s|
  {
    var t := SkipSpace(s);
    if t == "" then None
    else if t[0] == ']' then Some(TagEnd([], false, t[1..]))
    else if t[0] == '/' && |t| > 1 && t[1] == ']' then Some(TagEnd([], true, t[2..]))
    else
      match ScanAttribute(t, lim)
      case None => None
      case Some((attribute, after)) =>
        match ScanAttributes(after, lim)
        case None => None
        case Some(end) =>
          Some(end.(attributes := (if attribute.Some? then [attribute.value] else []) + end.attributes))
  }

  // ---- tokens ----

  /** A tag after its opening bracket. */
  function ScanTag(s: string, lim: Limits): (r: Option<(Token, string)>)
    ensures r.Some? ==> |r.value.1| <= |s|
  {
    if s != "" && s[0] == '/' then
      var (name, rest) := ScanName(SkipSpace(s[1..]));
      var after := SkipSpace(rest);
      if name == "" || after == "" || after[0] != ']' then None else Some((CloseTag(name), after[1..]))
    else
      var (name, rest) := ScanName(SkipSpace(s));
      if name == "" then None
      else
        match ScanAttributes(rest, lim)
        case None => None
        case Some(end) => Some((OpenTag(name, end.attributes, end.selfClosing), end.rest))
  }

  /** The text starts a tag: a bracket that is not doubled. */
  predicate StartsTag(s: string) {
    s != "" && s[0] == '[' && !(|s| > 1 && s[1] == '[')
  }

  /** Text up to the next tag, doubled brackets read as one. */
  function ScanText(s: string): (r: (string, string))
    ensures |r.1| <= |s|
    ensures r.1 != "" ==> StartsTag(r.1)
    ensures s != "" && !StartsTag(s) ==> r.0 != "" && |r.1| < |s|
    decreases |s|
  {
    if s == "" || StartsTag(s) then ("", s)
    else
      var doubled := (s[0] == '[' || s[0] == ']') && |s| > 1 && s[1] == s[0];
      var (text, rest) := ScanText(if doubled then s[2..] else s[1..]);
      ([s[0]] + text, rest)
  }

  function NextToken(s: string, lim: Limits): (r: Option<(Token, string)>)
    requires s != ""
    ensures r.Some? ==> |r.value.1| < |s|
  {
    if StartsTag(s) then ScanTag(s[1..], lim)
    else
      var (text, rest) := ScanText(s);
      if ByteLen(text) > lim.text then None else Some((Content(text), rest))
  }

  /** All tokens, with `room` left for more. */
  function ScanTokens(s: string, lim: Limits, room: nat): Option<Tokens>
    decreases |s|
  {
    if s == "" then Some([Eof])
    else if room == 0 then None
    else
      match NextToken(s, lim)
      case None => None
      case Some((t, rest)) =>
        match ScanTokens(rest, lim, room - 1)
        case None => None
        case Some(ts) => Some([t] + ts)
  }

  /** Scan a document. */
  function Scan(input: string): Option<Tokens> {
    if ByteLen(input) > MAX_INPUT_SIZE then None
    else ScanTokens(Sanitize(input), ScanLimits(), ScanLimits().tokens)
  }
}
