/** The wire form of session directives (session.rs, `SessionDirective`, and the
metadata block of message.rs that carries them). */
module SessionDirectives {
  import opened Wrappers
  import opened Text
  import opened Sessions

  // ---- decimal numbers ----

  function Digit(n: nat): char
    requires n < 10
  {
    '0' + n as char
  }

  function Decimal(n: nat): (s: string)
    ensures s != ""
  {
    if n < 10 then [Digit(n)] else Decimal(n / 10) + [Digit(n % 10)]
  }

  method DecimalLen(n: nat) returns (length: nat)
    ensures length == |Decimal(n)|
  {
    length := 1;
    var value := n;
    while value >= 10
      invariant length + |Decimal(value)| == 1 + |Decimal(n)|
    {
      value := value / 10;
      length := length + 1;
    }
  }

  /** Read digits after `acc`; `None` on any other character or past the largest `u64`. */
  function Accumulate(s: string, acc: nat): Option<nat> {
    if s == "" then Some(acc)
    else if !('0' <= s[0] <= '9') then None
    else
      var next := acc * 10 + (s[0] - '0') as nat;
      if next >= U64 then None else Accumulate(s[1..], next)
  }

  /** A leading plus sign is allowed. */
  function ParseU64(s: string): Option<nat> {
    var digits := if s != "" && s[0] == '+' then s[1..] else s;
    if digits == "" then None else Accumulate(digits, 0)
  }

  lemma {:induction false} AccumulateAppend(a: string, b: string, acc: nat)
    ensures Accumulate(a + b, acc) ==
            match Accumulate(a, acc) { case None => None case Some(n) => Accumulate(b, n) }
    decreases |a|
  {
    if a == "" {
      assert a + b == b;
    } else {
      assert (a + b)[1..] == a[1..] + b;
      if '0' <= a[0] <= '9' {
        AccumulateAppend(a[1..], b, acc * 10 + (a[0] - '0') as nat);
      }
    }
  }

  lemma {:induction false} DecimalDigits(n: nat)
    ensures forall i :: 0 <= i < |Decimal(n)| ==> '0' <= Decimal(n)[i] <= '9'
  {
    if n >= 10 {
      DecimalDigits(n / 10);
    }
  }

  lemma {:induction false} AccumulateDecimal(n: nat)
    requires n < U64
    ensures Accumulate(Decimal(n), 0) == Some(n)
  {
    if n < 10 {
      assert Decimal(n)[1..] == "";
    } else {
      AccumulateDecimal(n / 10);
      var last := [Digit(n % 10)];
      AccumulateAppend(Decimal(n / 10), last, 0);
      assert last[1..] == "";
    }
  }

  /** Printing then parsing a `u64` gives it back. */
  lemma DecimalRoundTrip(n: nat)
    requires n < U64
    ensures ParseU64(Decimal(n)) == Some(n)
  {
    DecimalDigits(n);
    AccumulateDecimal(n);
  }

  predicate AllDigits(s: string) {
    forall i :: 0 <= i < |s| ==> '0' <= s[i] <= '9'
  }

  /** The number some digits stand for. */
  function NumberOf(s: string): nat
    requires AllDigits(s)
  {
    if s == "" then 0 else NumberOf(s[..|s| - 1]) * 10 + (s[|s| - 1] - '0') as nat
  }

  lemma {:induction false} AccumulateIs(s: string)
    requires AllDigits(s)
    ensures Accumulate(s, 0) == if NumberOf(s) < U64 then Some(NumberOf(s)) else None
  {
    if s != "" {
      var init, last := s[..|s| - 1], [s[|s| - 1]];
      assert s == init + last && last[1..] == "";
      AccumulateIs(init);
      AccumulateAppend(init, last, 0);
    }
  }

  lemma {:induction false} AccumulateStops(s: string, acc: nat)
    requires !AllDigits(s)
    ensures Accumulate(s, acc).None?
    decreases |s|
  {
    if '0' <= s[0] <= '9' {
      assert !AllDigits(s[1..]) by {
        var i :| 0 <= i < |s| && !('0' <= s[i] <= '9');
        assert s[1..][i - 1] == s[i];
      }
      AccumulateStops(s[1..], acc * 10 + (s[0] - '0') as nat);
    }
  }

  /** An expiry is read exactly when it is a number below 2^64 in digits, after at most one plus sign. */
  lemma ParseIsNumber(s: string, digits: string)
    requires s == digits || s == "+" + digits
    requires digits != "" && digits[0] != '+'
    ensures ParseU64(s) == if AllDigits(digits) && NumberOf(digits) < U64 then Some(NumberOf(digits)) else None
  {
    assert s == "+" + digits ==> s[1..] == digits;
    if AllDigits(digits) {
      AccumulateIs(digits);
    } else {
      AccumulateStops(digits, 0);
    }
  }

  // ---- scopes ----

  function Segments(s: string): seq<string>
    decreases |s|
  {
    var i := Find(s, '/');
    if i == |s| then [s] else [s[..i]] + Segments(s[i + 1..])
  }

  predicate ValidScope(scope: string) {
    && scope != "" && ByteLen(scope) <= MAX_SCOPE_LEN && scope[0] == '/'
    && (forall i :: 0 <= i < |scope| ==> !IsControl(scope[i]) && scope[i] != '?' && scope[i] != '#')
    && (forall i :: 0 <= i < |Segments(scope)| ==> Segments(scope)[i] != "." && Segments(scope)[i] != "..")
  }

  /** `s[i..j]` is a whole segment: it holds no slash and stands between slashes or ends. */
  predicate SegmentAt(s: string, i: nat, j: nat) {
    && i <= j <= |s| && '/' !in s[i..j]
    && (i == 0 || s[i - 1] == '/') && (j == |s| || s[j] == '/')
  }

  ghost predicate HasSegment(s: string, segment: string) {
    exists i: nat, j: nat :: SegmentAt(s, i, j) && s[i..j] == segment
  }

  lemma FirstSegment(s: string, j: nat)
    requires SegmentAt(s, 0, j)
    ensures Find(s, '/') == j
  {
  }

  lemma LaterSegment(s: string, k: nat, i: nat, j: nat)
    requires k < |s| && s[k] == '/' && k < i
    ensures SegmentAt(s, i, j) <==> SegmentAt(s[k + 1..], i - k - 1, if j > k then j - k - 1 else 0) && j > k
    ensures SegmentAt(s, i, j) ==> s[i..j] == s[k + 1..][i - k - 1..j - k - 1]
  {
    var rest := s[k + 1..];
    if i <= j <= |s| {
      assert s[i..j] == rest[i - k - 1..j - k - 1];
    }
  }

  /** Splitting a scope at its slashes gives exactly its segments. */
  lemma {:induction false} SegmentsAre(s: string, segment: string)
    ensures segment in Segments(s) <==> HasSegment(s, segment)
    decreases |s|
  {
    var k := Find(s, '/');
    HasSegmentStep(s, k, segment);
    SegmentsStep(s, k, segment);
    if k < |s| {
      SegmentsAre(s[k + 1..], segment);
    }
  }

  lemma SegmentsStep(s: string, k: nat, segment: string)
    requires k == Find(s, '/')
    ensures segment in Segments(s) <==> segment == s[..k] || (k < |s| && segment in Segments(s[k + 1..]))
  {
    if k == |s| {
      assert s[..k] == s;
    }
  }

  lemma HasSegmentStep(s: string, k: nat, segment: string)
    requires k == Find(s, '/')
    ensures HasSegment(s, segment) <==> segment == s[..k] || (k < |s| && HasSegment(s[k + 1..], segment))
  {
    assert '/' !in s[..k] && s[0..k] == s[..k];
    assert SegmentAt(s, 0, k);
    if k < |s| && HasSegment(s[k + 1..], segment) {
      var i: nat, j: nat :| SegmentAt(s[k + 1..], i, j) && s[k + 1..][i..j] == segment;
      LaterSegment(s, k, i + k + 1, j + k + 1);
    }
    if HasSegment(s, segment) {
      var i: nat, j: nat :| SegmentAt(s, i, j) && s[i..j] == segment;
      SegmentIsFound(s, k, i, j);
    }
  }

  lemma SegmentIsFound(s: string, k: nat, i: nat, j: nat)
    requires k == Find(s, '/') && SegmentAt(s, i, j)
    ensures (i == 0 && j == k) || (k < i && k < |s| && HasSegment(s[k + 1..], s[i..j]))
  {
    if i == 0 {
      FirstSegment(s, j);
    } else {
      assert k <= i - 1;
      LaterSegment(s, k, i, j);
    }
  }

  /** A scope is valid exactly when it is absolute, at most 1024 bytes long, without control character, query or
      fragment, and without dot segment. */
  lemma ValidScopeIff(scope: string)
    ensures ValidScope(scope) <==>
            && Absolute(scope) && ByteLen(scope) <= 1024
            && (forall c :: c in scope ==> !IsControl(c) && c != '?' && c != '#')
            && !HasSegment(scope, ".") && !HasSegment(scope, "..")
  {
    SegmentsAre(scope, ".");
    SegmentsAre(scope, "..");
    if ValidScope(scope) {
      assert forall i :: 0 <= i < |scope| ==> scope[i] in scope;
    } else if (forall c :: c in scope ==> !IsControl(c) && c != '?' && c != '#') {
      assert forall i :: 0 <= i < |scope| ==> scope[i] in scope;
    }
  }

  predicate ValidToken(token: string) {
    token != "" && ByteLen(token) <= MAX_TOKEN_LEN
  }

  // ---- printing ----

  datatype SerializeError = InvalidMessage | ResourceExhausted(requested: nat)

  /** The directives the printer accepts; expiry is a `u64`. */
  predicate Printable(d: Directive) {
    && ValidScope(d.scope)
    && (d.Set? ==> ValidToken(d.token) && (d.expires.Some? ==> d.expires.value < U64))
  }

  /** The names of the two metadata fields. */
  datatype FieldNames = FieldNames(setName: string, clearName: string)

  function WireNames(): FieldNames {
    FieldNames("Set-Session", "Clear-Session")
  }

  predicate ProperName(name: string) {
    name != "" && forall i :: 0 <= i < |name| ==> '-' <= name[i] <= 'z' && name[i] != ':'
  }

  predicate ProperNames(n: FieldNames) {
    ProperName(n.setName) && ProperName(n.clearName) && n.setName != n.clearName
  }

  lemma WireNamesAreProper()
    ensures ProperNames(WireNames()) && |WireNames().setName| == 11 && |WireNames().clearName| == 13
  {
    SetNameIsProper();
    ClearNameIsProper();
    var n := WireNames();
    assert n.setName[0] == 'S' && n.clearName[0] == 'C';
  }

  lemma SetNameIsProper()
    ensures ProperName(WireNames().setName)
  {
    var s := WireNames().setName;
    assert |s| == 11;
    assert s[0] == 'S' && s[1] == 'e' && s[2] == 't' && s[3] == '-' && s[4] == 'S' && s[5] == 'e';
    assert s[6] == 's' && s[7] == 's' && s[8] == 'i' && s[9] == 'o' && s[10] == 'n';
  }

  lemma ClearNameIsProper()
    ensures ProperName(WireNames().clearName)
  {
    var s := WireNames().clearName;
    assert |s| == 13;
    assert s[0] == 'C' && s[1] == 'l' && s[2] == 'e' && s[3] == 'a' && s[4] == 'r' && s[5] == '-';
    assert s[6] == 'S' && s[7] == 'e' && s[8] == 's' && s[9] == 's' && s[10] == 'i' && s[11] == 'o' && s[12] == 'n';
  }

  function Key(n: FieldNames, d: Directive): string {
    if d.Set? then n.setName else n.clearName
  }

  function Expiry(expires: Option<nat>): string {
    if expires.Some? then " " + Decimal(expires.value) else ""
  }

  function Value(d: Directive): string {
    if d.Set? then d.token + " " + d.scope + Expiry(d.expires) else d.scope
  }

  function Line(n: FieldNames, d: Directive): string {
    Key(n, d) + ": " + Value(d) + "\n"
  }

  lemma NameIsClean(name: string)
    requires ProperName(name)
    ensures Ascii(name) && Clean(name) && ':' !in name
  {
  }

  lemma FramedLength(key: string, value: string)
    requires Ascii(key)
    ensures ByteLen(key + ": " + value + "\n") == |key| + 3 + ByteLen(value)
  {
    ByteLenAscii(key);
    ByteLenAscii(": ");
    ByteLenAscii("\n");
    ByteLenAppend(key, ": ");
    ByteLenAppend(key + ": ", value);
    ByteLenAppend(key + ": " + value, "\n");
  }

  lemma LineLength(n: FieldNames, d: Directive)
    requires ProperNames(n)
    ensures ByteLen(Line(n, d)) == |Key(n, d)| + 3 + ByteLen(Value(d))
  {
    NameIsClean(Key(n, d));
    FramedLength(Key(n, d), Value(d));
  }

  lemma SetValueLength(d: Directive)
    requires d.Set?
    ensures ByteLen(Value(d)) == ByteLen(d.token) + 1 + ByteLen(d.scope)
                                 + (if d.expires.Some? then 1 + |Decimal(d.expires.value)| else 0)
  {
    ByteLenAscii(" ");
    ByteLenAppend(d.token, " ");
    ByteLenAppend(d.token + " ", d.scope);
    ByteLenAppend(d.token + " " + d.scope, Expiry(d.expires));
    if d.expires.Some? {
      DecimalDigits(d.expires.value);
      ByteLenAscii(Decimal(d.expires.value));
      ByteLenAppend(" ", Decimal(d.expires.value));
    }
  }

  /** Bytes reserved for a line: both names, separators and line end are counted. */
  method Measure(n: FieldNames, d: Directive) returns (requested: nat)
    requires ProperNames(n)
    ensures requested == ByteLen(Line(n, d))
  {
    LineLength(n, d);
    requested := |Key(n, d)| + 3 + ByteLen(d.scope);
    if d.Set? {
      SetValueLength(d);
      requested := requested + 1 + ByteLen(d.token);
      if d.expires.Some? {
        var length := DecimalLen(d.expires.value);
        requested := requested + 1 + length;
      }
    }
  }

  /** Print a directive, reserving its exact size in bytes before writing. */
  method Serialize(n: FieldNames, d: Directive, reserved: bool) returns (r: Result<string, SerializeError>)
    requires ProperNames(n) && (d.Set? && d.expires.Some? ==> d.expires.value < U64)
    ensures r == if !Printable(d) then Err(InvalidMessage)
                 else if !reserved then Err(ResourceExhausted(ByteLen(Line(n, d))))
                 else Ok(Line(n, d))
  {
    if !Printable(d) {
      return Err(InvalidMessage);
    }
    var requested := Measure(n, d);
    if !reserved {
      return Err(ResourceExhausted(requested));
    }
    var s := Key(n, d) + ": ";
    if d.Set? {
      var value := d.token + " " + d.scope;
      if d.expires.Some? {
        value := value + (" " + Decimal(d.expires.value));
      }
      assert value == Value(d);
      s := s + value;
    } else {
      s := s + d.scope;
    }
    r := Ok(s + "\n");
  }

  // ---- parsing ----

  /** Token, scope and expiry: at most three fields separated by single spaces. */
  function Fields(value: string): (string, string, Option<nat>) {
    var i := Find(value, ' ');
    if i == |value| then (value, "/", None)
    else
      var (scope, expires) := ScopeFields(value[i + 1..]);
      (value[..i], scope, expires)
  }

  function ScopeFields(rest: string): (string, Option<nat>) {
    var j := Find(rest, ' ');
    (rest[..j], if j < |rest| then ParseU64(rest[j + 1..]) else None)
  }

  function ParseSet(value: string): Option<Directive> {
    var (token, scope, expires) := Fields(value);
    if ValidToken(token) && ValidScope(scope) then Some(Set(token, scope, expires)) else None
  }

  function TrimStart(s: string): string {
    if s != "" && IsWhitespace(s[0]) then TrimStart(s[1..]) else s
  }

  function TrimEnd(s: string): string {
    if s != "" && IsWhitespace(s[|s| - 1]) then TrimEnd(s[..|s| - 1]) else s
  }

  function ParseClear(value: string): Option<Directive> {
    var scope := TrimEnd(TrimStart(value));
    if ValidScope(scope) then Some(Clear(scope)) else None
  }

  /** Every directive the parser accepts has an absolute scope. */
  lemma ParsedScopeIsAbsolute(value: string)
    ensures ParseSet(value).Some? ==> Absolute(ParseSet(value).value.scope)
    ensures ParseClear(value).Some? ==> Absolute(ParseClear(value).value.scope)
  {
  }

  /** Neither token nor scope holds a space; the scope of a Clear has no trailing whitespace. */
  predicate Unspaced(d: Directive) {
    if d.Set? then ' ' !in d.token && ' ' !in d.scope
    else d.scope != "" && !IsWhitespace(d.scope[|d.scope| - 1])
  }

  lemma NotFound(s: string, c: char)
    requires c !in s
    ensures Find(s, c) == |s|
  {
  }

  lemma FieldsOf(token: string, rest: string)
    requires ' ' !in token
    ensures Fields(token + " " + rest) == (token, ScopeFields(rest).0, ScopeFields(rest).1)
  {
    FirstSpace(token, rest, token + " " + rest);
  }

  lemma FirstSpace(token: string, rest: string, value: string)
    requires ' ' !in token && value == token + " " + rest
    ensures |token| < |value| && Find(value, ' ') == |token|
    ensures value[..|token|] == token && value[|token| + 1..] == rest
  {
    assert value == token + [' '] + rest;
    FindAfter(token, ' ', rest);
  }

  lemma ScopeAndExpiry(scope: string, expires: Option<nat>)
    requires ' ' !in scope && (expires.Some? ==> expires.value < U64)
    ensures ScopeFields(scope + Expiry(expires)) == (scope, expires)
  {
    var rest := scope + Expiry(expires);
    if expires.Some? {
      var digits := Decimal(expires.value);
      assert rest == scope + [' '] + digits;
      FindAfter(scope, ' ', digits);
      assert rest[..|scope|] == scope && rest[|scope| + 1..] == digits;
      DecimalRoundTrip(expires.value);
    } else {
      assert rest == scope;
      NotFound(rest, ' ');
    }
  }

  lemma FieldsUnspaced(value: string)
    ensures ' ' !in Fields(value).0 && ' ' !in Fields(value).1
  {
    assert value[..|value|] == value;
  }

  lemma FieldsRoundTrip(token: string, scope: string, expires: Option<nat>)
    requires ' ' !in token && ' ' !in scope && (expires.Some? ==> expires.value < U64)
    ensures Fields(token + " " + scope + Expiry(expires)) == (token, scope, expires)
  {
    FieldsOf(token, scope + Expiry(expires));
    ScopeAndExpiry(scope, expires);
    Associative(token + " ", scope, Expiry(expires));
  }

  /** A Set is read back exactly when neither its token nor its scope holds a space. */
  lemma SetRoundTrip(d: Directive)
    requires Printable(d) && d.Set?
    ensures ParseSet(Value(d)) == Some(d) <==> ' ' !in d.token && ' ' !in d.scope
  {
    FieldsUnspaced(Value(d));
    if ' ' !in d.token && ' ' !in d.scope {
      FieldsRoundTrip(d.token, d.scope, d.expires);
    }
  }

  lemma {:induction false} TrimEndKeeps(s: string)
    requires s != ""
    ensures TrimEnd(s) == s <==> !IsWhitespace(s[|s| - 1])
  {
    TrimEndShortens(s[..|s| - 1]);
  }

  lemma {:induction false} TrimEndShortens(s: string)
    ensures |TrimEnd(s)| <= |s|
  {
    if s != "" {
      TrimEndShortens(s[..|s| - 1]);
    }
  }

  /** A Clear is read back exactly when its scope has no trailing whitespace. */
  lemma ClearRoundTrip(d: Directive)
    requires Printable(d) && d.Clear?
    ensures ParseClear(Value(d)) == Some(d) <==> !IsWhitespace(d.scope[|d.scope| - 1])
  {
    TrimEndKeeps(d.scope);
  }

  lemma OneSegment(s: string)
    requires '/' !in s
    ensures Segments("/" + s) == ["", s]
  {
    var scope := "/" + s;
    assert scope == "" + ['/'] + s;
    FindAfter("", '/', s);
    assert scope[..0] == "" && scope[1..] == s;
    NotFound(s, '/');
  }

  /** A scope of one segment is valid unless the segment is a dot segment or holds a reserved character. */
  lemma OneSegmentIsValid(s: string)
    requires Ascii(s) && |s| < MAX_SCOPE_LEN && s != "." && s != ".."
    requires forall i :: 0 <= i < |s| ==> !IsControl(s[i]) && s[i] != '?' && s[i] != '#' && s[i] != '/'
    ensures ValidScope("/" + s)
  {
    OneSegment(s);
    ByteLenAscii("/" + s);
  }

  /** A token alone is a token for the whole site, without expiry. */
  lemma BareTokenIsWholeSite(token: string)
    requires ' ' !in token
    ensures ParseSet(token) == if ValidToken(token) then Some(Set(token, "/", None)) else None
  {
    NotFound(token, ' ');
    OneSegmentIsValid("");
    assert "/" + "" == "/";
  }

  /** A token and a scope; then anything after the next space is the expiry, and one that is no number is none. */
  lemma FieldsAreRead(token: string, scope: string, rest: string)
    requires ' ' !in token && ' ' !in scope
    ensures ParseSet(token + " " + scope) ==
            if ValidToken(token) && ValidScope(scope) then Some(Set(token, scope, None)) else None
    ensures ParseSet(token + " " + (scope + " " + rest)) ==
            if ValidToken(token) && ValidScope(scope) then Some(Set(token, scope, ParseU64(rest))) else None
  {
    TwoFields(token, scope);
    ThreeFields(token, scope, rest);
  }

  lemma TwoFields(token: string, scope: string)
    requires ' ' !in token && ' ' !in scope
    ensures Fields(token + " " + scope) == (token, scope, None)
  {
    FieldsOf(token, scope);
    NotFound(scope, ' ');
    assert scope[..|scope|] == scope;
  }

  lemma ThreeFields(token: string, scope: string, rest: string)
    requires ' ' !in token && ' ' !in scope
    ensures Fields(token + " " + (scope + " " + rest)) == (token, scope, ParseU64(rest))
  {
    var more := scope + " " + rest;
    FieldsOf(token, more);
    assert more == scope + [' '] + rest;
    FindAfter(scope, ' ', rest);
    assert more[..|scope|] == scope && more[|scope| + 1..] == rest;
  }

  lemma {:induction false} TrimsStart(pad: string, s: string)
    requires Blank(pad) && (s == "" || !IsWhitespace(s[0]))
    ensures TrimStart(pad + s) == s
  {
    if pad == "" {
      assert pad + s == s;
    } else {
      TrimsStart(pad[1..], s);
      assert (pad + s)[1..] == pad[1..] + s;
    }
  }

  lemma {:induction false} TrimsEnd(s: string, pad: string)
    requires Blank(pad) && (s == "" || !IsWhitespace(s[|s| - 1]))
    ensures TrimEnd(s + pad) == s
  {
    if pad == "" {
      assert s + pad == s;
    } else {
      var n := |pad| - 1;
      TrimsEnd(s, pad[..n]);
      assert (s + pad)[..|s| + n] == s + pad[..n];
    }
  }

  /** Blanks around the scope of a Clear are not part of it. */
  lemma ClearIsTrimmed(left: string, scope: string, right: string)
    requires Blank(left) && Blank(right) && scope != "" && !IsWhitespace(scope[0]) && !IsWhitespace(scope[|scope| - 1])
    ensures ParseClear(left + (scope + right)) == if ValidScope(scope) then Some(Clear(scope)) else None
  {
    assert (scope + right)[0] == scope[0];
    TrimsStart(left, scope + right);
    TrimsEnd(scope, right);
  }

  /** A scope with a space passes validation, and is then cut at the space. */
  lemma SpacedScopeIsMisread(token: string, a: string, b: string)
    requires ValidToken(token) && ' ' !in token && ' ' !in a && ValidScope("/" + a)
    requires ValidScope("/" + a + " " + b) && ParseU64(b).None?
    ensures ParseSet(Value(Set(token, "/" + a + " " + b, None))) == Some(Set(token, "/" + a, None))
  {
    var scope := "/" + a;
    var rest := scope + " " + b;
    assert rest == scope + [' '] + b;
    FieldsOf(token, rest);
    FindAfter(scope, ' ', b);
    assert rest[..|scope|] == scope && rest[|scope| + 1..] == b;
    assert token + " " + rest + "" == token + " " + rest;
  }

  /** Such a scope exists. */
  lemma SpacedScopeIsValid()
    ensures ValidScope("/" + "a") && ValidScope("/" + "a b") && ParseU64("b").None?
  {
    OneSegmentIsValid("a");
    OneSegmentIsValid("a b");
  }

  // ---- the metadata block ----

  /** Index of the first colon followed by a space, or the length. */
  function FindSeparator(s: string): (i: nat)
    ensures i <= |s|
    ensures i < |s| ==> i + 1 < |s| && s[i] == ':' && s[i + 1] == ' '
    ensures forall j :: 0 <= j < i && j + 1 < |s| ==> !(s[j] == ':' && s[j + 1] == ' ')
  {
    if |s| < 2 then |s|
    else if s[0] == ':' && s[1] == ' ' then 0
    else
      var k := FindSeparator(s[1..]);
      assert forall j :: 0 < j < |s| ==> s[j] == s[1..][j - 1];
      1 + k
  }

  predicate Clean(line: string) {
    line != "" && forall i :: 0 <= i < |line| ==> !IsControl(line[i])
  }

  function ParseField(n: FieldNames, line: string): Option<Directive> {
    var i := FindSeparator(line);
    if !Clean(line) || i == |line| || i == 0 || i + 2 == |line| then None
    else
      var key, value := line[..i], line[i + 2..];
      if key == n.setName then ParseSet(value) else if key == n.clearName then ParseClear(value) else None
  }

  /** The text of a line, without a carriage return before its end. */
  function Chomp(line: string): string {
    if line != "" && line[|line| - 1] == '\r' then line[..|line| - 1] else line
  }

  /** Read one directive per line; any malformed line refuses the block. */
  function ParseBlock(n: FieldNames, text: string): Option<seq<Directive>>
    decreases |text|
  {
    if text == "" then Some([])
    else
      var i := Find(text, '\n');
      var first := ParseField(n, Chomp(text[..i]));
      var rest := if i < |text| then ParseBlock(n, text[i + 1..]) else Some([]);
      if first.None? || rest.None? then None else Some([first.value] + rest.value)
  }

  function Block(n: FieldNames, ds: seq<Directive>): string {
    if ds == [] then "" else Line(n, ds[0]) + Block(n, ds[1..])
  }

  /** What survives a trip through the metadata block. */
  predicate Portable(d: Directive) {
    Printable(d) && Unspaced(d) && (d.Set? ==> forall i :: 0 <= i < |d.token| ==> !IsControl(d.token[i]))
  }

  lemma ValueIsClean(d: Directive)
    requires Portable(d)
    ensures Value(d) != "" && forall i :: 0 <= i < |Value(d)| ==> !IsControl(Value(d)[i])
  {
    if d.Set? && d.expires.Some? {
      DecimalDigits(d.expires.value);
    }
  }

  lemma ParseValue(d: Directive)
    requires Portable(d)
    ensures (if d.Set? then ParseSet(Value(d)) else ParseClear(Value(d))) == Some(d)
  {
    if d.Set? {
      SetRoundTrip(d);
    } else {
      ClearRoundTrip(d);
    }
  }

  lemma SeparatorAfter(key: string, value: string)
    requires ':' !in key
    ensures FindSeparator(key + ": " + value) == |key|
  {
    var s := key + ": " + value;
    assert s[|key|] == ':' && s[|key| + 1] == ' ';
    assert forall k :: 0 <= k < |key| ==> s[k] == key[k];
  }

  lemma SplitField(key: string, value: string)
    requires ':' !in key && key != "" && value != ""
    ensures var line := key + ": " + value; var i := FindSeparator(line);
            0 < i && i + 2 < |line| && line[..i] == key && line[i + 2..] == value
  {
    SeparatorAfter(key, value);
    var line := key + ": " + value;
    assert line[..|key|] == key && line[|key| + 2..] == value;
  }

  lemma JoinedIsClean(key: string, value: string)
    requires Clean(key) && Clean(value)
    ensures Clean(key + ": " + value)
  {
  }

  lemma FieldRoundTrip(n: FieldNames, d: Directive)
    requires ProperNames(n) && Portable(d)
    ensures Clean(Key(n, d) + ": " + Value(d)) && ParseField(n, Key(n, d) + ": " + Value(d)) == Some(d)
  {
    NameIsClean(Key(n, d));
    ValueIsClean(d);
    SplitField(Key(n, d), Value(d));
    JoinedIsClean(Key(n, d), Value(d));
    ParseValue(d);
  }

  lemma FirstLine(n: FieldNames, line: string, rest: string)
    requires Clean(line) && ParseField(n, line).Some?
    ensures ParseBlock(n, line + "\n" + rest) ==
            if ParseBlock(n, rest).None? then None
            else Some([ParseField(n, line).value] + ParseBlock(n, rest).value)
  {
    var text := line + ['\n'] + rest;
    assert text == line + "\n" + rest;
    assert '\n' !in line;
    FindAfter(line, '\n', rest);
    assert text[..|line|] == line && text[|line| + 1..] == rest;
    assert !IsControl(line[|line| - 1]);
  }

  lemma FirstDirective(n: FieldNames, d: Directive, rest: string)
    requires ProperNames(n) && Portable(d)
    ensures ParseBlock(n, Line(n, d) + rest) ==
            if ParseBlock(n, rest).None? then None else Some([d] + ParseBlock(n, rest).value)
  {
    FieldRoundTrip(n, d);
    FirstLine(n, Key(n, d) + ": " + Value(d), rest);
  }

  /** Every list of portable directives survives printing and parsing, in order. */
  lemma {:induction false} BlockRoundTrip(n: FieldNames, ds: seq<Directive>)
    requires ProperNames(n) && forall i :: 0 <= i < |ds| ==> Portable(ds[i])
    ensures ParseBlock(n, Block(n, ds)) == Some(ds)
  {
    if ds != [] {
      BlockRoundTrip(n, ds[1..]);
      BlockStep(n, ds, Block(n, ds[1..]));
    }
  }

  lemma BlockStep(n: FieldNames, ds: seq<Directive>, rest: string)
    requires ProperNames(n) && ds != [] && Portable(ds[0])
    requires rest == Block(n, ds[1..]) && ParseBlock(n, rest) == Some(ds[1..])
    ensures ParseBlock(n, Block(n, ds)) == Some(ds)
  {
    FirstDirective(n, ds[0], rest);
    BlockStarts(n, ds);
    assert ds == [ds[0]] + ds[1..];
  }

  lemma BlockStarts(n: FieldNames, ds: seq<Directive>)
    requires ds != []
    ensures Block(n, ds) == Line(n, ds[0]) + Block(n, ds[1..])
  {
  }
}
