/** What is removed from a page before it is scanned (scanner/escape.rs): whole control sequences and
control strings, in their 7-bit and 8-bit forms, and nothing beyond their ends. */
module AmlControls {
  import opened Wrappers
  import opened Text
  import opened AmlScanner

  /** A page in pieces: a character that is shown, one that is dropped alone, a line end of two characters,
      an escape with its one character, a control sequence, a control string. */
  datatype Piece =
    | Shown(c: char)
    | Dropped(c: char)
    | LineEnd
    | Escaped(escape: char, c: char)
    | Sequence(intro: string, params: string, final: char)
    | ControlString(intro: string, body: string, end: string)

  predicate IsEscape(c: char) {
    c as int == 0x1b
  }

  predicate OpensString(c: char) {
    c == ']' || c == 'P' || c == '^' || c == '_'
  }

  predicate SequenceIntro(s: string) {
    (|s| == 1 && s[0] as int == 0x9b) || (|s| == 2 && IsEscape(s[0]) && s[1] == '[')
  }

  predicate StringIntro(s: string) {
    || (|s| == 1 && (s[0] as int == 0x90 || 0x9d <= s[0] as int <= 0x9f))
    || (|s| == 2 && IsEscape(s[0]) && OpensString(s[1]))
  }

  predicate StringEnd(s: string) {
    (|s| == 1 && (s[0] as int == 7 || s[0] as int == 0x9c)) || (|s| == 2 && IsEscape(s[0]) && s[1] == '\\')
  }

  predicate FinalByte(c: char) {
    0x40 <= c as int <= 0x7e
  }

  /** The string does not end within its body. */
  predicate StringBody(s: string) {
    forall i :: 0 <= i < |s| ==> s[i] as int != 7 && s[i] as int != 0x9c && !(IsEscape(s[i]) && i + 1 < |s| && s[i + 1] == '\\')
  }

  /** Characters that are removed without anything after them. */
  predicate DroppedAlone(c: char) {
    && !Plain(c) && c != '\r' && !IsEscape(c)
    && !(c as int == 0x9b || c as int == 0x90 || 0x9d <= c as int <= 0x9f)
  }

  predicate PieceOk(p: Piece) {
    match p
    case Shown(c) => Plain(c)
    case Dropped(c) => DroppedAlone(c)
    case LineEnd => true
    case Escaped(escape, c) => IsEscape(escape) && c != '[' && !OpensString(c)
    case Sequence(intro, params, final) =>
      SequenceIntro(intro) && FinalByte(final) && forall i :: 0 <= i < |params| ==> !FinalByte(params[i])
    case ControlString(intro, body, end) => StringIntro(intro) && StringBody(body) && StringEnd(end)
  }

  function Written(p: Piece): string {
    match p
    case Shown(c) => [c]
    case Dropped(c) => [c]
    case LineEnd => "\r\n"
    case Escaped(escape, c) => [escape, c]
    case Sequence(intro, params, final) => intro + (params + [final])
    case ControlString(intro, body, end) => intro + (body + end)
  }

  function Seen(p: Piece): string {
    match p
    case Shown(c) => [c]
    case LineEnd => "\n"
    case _ => ""
  }

  function WrittenAll(ps: seq<Piece>): string {
    if ps == [] then "" else Written(ps[0]) + WrittenAll(ps[1..])
  }

  function SeenAll(ps: seq<Piece>): string {
    if ps == [] then "" else Seen(ps[0]) + SeenAll(ps[1..])
  }

  lemma {:induction false} SequenceEnds(params: string, final: char, r: string)
    requires FinalByte(final) && forall i :: 0 <= i < |params| ==> !FinalByte(params[i])
    ensures SkipControlSequence(params + [final] + r) == r
  {
    var s := params + [final] + r;
    if params == "" {
      assert s[0] == final && s[1..] == r;
    } else {
      SequenceEnds(params[1..], final, r);
      assert s[0] == params[0] && s[1..] == params[1..] + [final] + r;
    }
  }

  lemma {:induction false} StringEnds(body: string, end: string, r: string)
    requires StringBody(body) && StringEnd(end)
    ensures SkipControlString(body + end + r) == r
  {
    var s := body + end + r;
    if body == "" {
      EndIsSkipped(end, r);
      assert s == end + r;
    } else {
      var rest := body[1..];
      assert forall i :: 0 <= i < |rest| ==> rest[i] == body[i + 1];
      StringEnds(rest, end, r);
      assert s[0] == body[0] && s[1..] == rest + end + r;
      assert s[1] == if |body| > 1 then body[1] else end[0];
    }
  }

  lemma EndIsSkipped(end: string, r: string)
    requires StringEnd(end)
    ensures SkipControlString(end + r) == r
  {
    var s := end + r;
    assert s[0] == end[0];
    if |end| == 1 {
      assert s[1..] == r;
    } else {
      assert s[1] == end[1] && s[2..] == r;
    }
  }

  lemma IntroThen(intro: string, tail: string)
    requires SequenceIntro(intro) || StringIntro(intro)
    ensures Sanitize(intro + tail)
            == Sanitize(if SequenceIntro(intro) then SkipControlSequence(tail) else SkipControlString(tail))
  {
    var s := intro + tail;
    assert s[0] == intro[0];
    if |intro| == 1 {
      assert s[1..] == tail;
    } else {
      assert s[1..] == [intro[1]] + tail;
      assert s[1..][0] == intro[1] && s[1..][1..] == tail;
    }
  }

  lemma SequenceIsRemoved(p: Piece, r: string)
    requires p.Sequence? && PieceOk(p)
    ensures Sanitize(Written(p) + r) == Sanitize(r)
  {
    var tail := p.params + [p.final] + r;
    assert Written(p) + r == p.intro + tail;
    IntroThen(p.intro, tail);
    SequenceEnds(p.params, p.final, r);
  }

  lemma StringIsRemoved(p: Piece, r: string)
    requires p.ControlString? && PieceOk(p)
    ensures Sanitize(Written(p) + r) == Sanitize(r)
  {
    var tail := p.body + p.end + r;
    assert Written(p) + r == p.intro + tail;
    IntroThen(p.intro, tail);
    StringEnds(p.body, p.end, r);
  }

  lemma CharacterIsSeen(p: Piece, r: string)
    requires (p.Shown? || p.Dropped?) && PieceOk(p)
    ensures Sanitize(Written(p) + r) == Seen(p) + Sanitize(r)
  {
    var s := Written(p) + r;
    assert s[0] == p.c && s[1..] == r;
    assert "" + Sanitize(r) == Sanitize(r);
  }

  lemma PairIsSeen(p: Piece, r: string)
    requires (p.LineEnd? || p.Escaped?) && PieceOk(p)
    ensures Sanitize(Written(p) + r) == Seen(p) + Sanitize(r)
  {
    var s := Written(p) + r;
    var t := s[1..];
    assert t[0] == s[1] && t[1..] == r;
    assert "" + Sanitize(r) == Sanitize(r);
    if p.LineEnd? {
      assert s[0] == '\r' && t[0] == '\n';
      assert Sanitize(t) == ['\n'] + Sanitize(r);
      assert Sanitize(s) == "" + Sanitize(t);
    } else {
      assert SkipEscape(t) == r;
    }
  }

  lemma PieceIsSeen(p: Piece, r: string)
    requires PieceOk(p)
    ensures Sanitize(Written(p) + r) == Seen(p) + Sanitize(r)
  {
    if p.Sequence? {
      SequenceIsRemoved(p, r);
      assert "" + Sanitize(r) == Sanitize(r);
    } else if p.ControlString? {
      StringIsRemoved(p, r);
      assert "" + Sanitize(r) == Sanitize(r);
    } else if p.Shown? || p.Dropped? {
      CharacterIsSeen(p, r);
    } else {
      PairIsSeen(p, r);
    }
  }

  /** Of a page in pieces exactly the shown characters and the line ends come through, in order. */
  lemma {:induction false} PiecesAreSeen(ps: seq<Piece>, r: string)
    requires forall i :: 0 <= i < |ps| ==> PieceOk(ps[i])
    ensures Sanitize(WrittenAll(ps) + r) == SeenAll(ps) + Sanitize(r)
    decreases |ps|
  {
    if ps == [] {
      assert WrittenAll(ps) + r == r && SeenAll(ps) + Sanitize(r) == Sanitize(r);
    } else {
      PiecesAreSeen(ps[1..], r);
      PieceIsSeen(ps[0], WrittenAll(ps[1..]) + r);
      Associative(Written(ps[0]), WrittenAll(ps[1..]), r);
      Associative(Seen(ps[0]), SeenAll(ps[1..]), Sanitize(r));
    }
  }

  /** A carriage return that no line feed follows is a line end of its own. */
  lemma LoneReturnEndsLine(r: string)
    requires r == "" || r[0] != '\n'
    ensures Sanitize("\r" + r) == "\n" + Sanitize(r)
  {
    var s := "\r" + r;
    assert s[0] == '\r' && s[1..] == r;
  }

  /** A sequence or string that never ends takes the rest of the page with it. */
  lemma UnendedSequence(intro: string, params: string)
    requires SequenceIntro(intro) && forall i :: 0 <= i < |params| ==> !FinalByte(params[i])
    ensures Sanitize(intro + params) == ""
  {
    IntroThen(intro, params);
    NoFinalByte(params);
  }

  lemma {:induction false} NoFinalByte(params: string)
    requires forall i :: 0 <= i < |params| ==> !FinalByte(params[i])
    ensures SkipControlSequence(params) == ""
  {
    if params != "" {
      NoFinalByte(params[1..]);
    }
  }

  lemma UnendedString(intro: string, body: string)
    requires StringIntro(intro) && StringBody(body)
    ensures Sanitize(intro + body) == ""
  {
    IntroThen(intro, body);
    NoStringEnd(body);
  }

  lemma {:induction false} NoStringEnd(body: string)
    requires StringBody(body)
    ensures SkipControlString(body) == ""
  {
    if body != "" {
      var rest := body[1..];
      assert forall i :: 0 <= i < |rest| ==> rest[i] == body[i + 1];
      NoStringEnd(rest);
    }
  }
}
