/** What a resolved page is, in terms of the authored tokens and the handlers' answers. */
module IncludePages {
  import opened Wrappers
  import opened Aml
  import opened AmlScanner
  import opened Include

  /** The first `name` attribute is number `k`. */
  ghost predicate FirstName(attributes: seq<Attribute>, k: nat) {
    && k < |attributes| && attributes[k].name == NameAttribute()
    && forall i :: 0 <= i < k ==> attributes[i].name != NameAttribute()
  }

  /** The tag names a handler: its first `name` attribute has a text, and the text is not empty. */
  ghost predicate Names(attributes: seq<Attribute>, name: string) {
    name != "" && exists k: nat :: FirstName(attributes, k) && HasText(attributes[k].value, name)
  }

  predicate HasText(value: AttributeValue, text: string) {
    !value.Flag? && value.text == text
  }

  lemma {:induction false} NamesIff(attributes: seq<Attribute>, name: string)
    ensures IncludeName(attributes) == Some(name) <==> Names(attributes, name)
  {
    if attributes != [] {
      var rest := attributes[1..];
      if attributes[0].name == NameAttribute() {
        assert FirstName(attributes, 0);
        assert forall k: nat :: FirstName(attributes, k) ==> k == 0;
      } else {
        NamesIff(rest, name);
        NamesShift(attributes, name);
      }
    }
  }

  lemma NamesShift(attributes: seq<Attribute>, name: string)
    requires attributes != [] && attributes[0].name != NameAttribute()
    ensures Names(attributes[1..], name) <==> Names(attributes, name)
  {
    var rest := attributes[1..];
    assert forall k :: 0 <= k < |rest| ==> rest[k] == attributes[k + 1];
    if Names(rest, name) {
      var k: nat :| FirstName(rest, k) && HasText(rest[k].value, name);
      forall i | 0 <= i < k + 1
        ensures attributes[i].name != NameAttribute()
      {
        assert i > 0 ==> attributes[i] == rest[i - 1];
      }
      assert FirstName(attributes, k + 1);
    }
    if Names(attributes, name) {
      var k: nat :| FirstName(attributes, k) && HasText(attributes[k].value, name);
      assert k != 0;
      assert FirstName(rest, k - 1);
    }
  }

  /** The tokens an include tag is filled with: the whole answer of the handler it names, and nothing if it
      names none, if the handler is not claimed, or if it is a closing tag. */
  ghost predicate FilledWith(t: Token, answer: Tokens, resolver: Resolver) {
    && IsInclude(t)
    && ((t.OpenTag? && exists n :: Names(t.attributes, n) && resolver(n) == Some(answer))
        || (answer == [] && !(t.OpenTag? && exists n :: Names(t.attributes, n) && resolver(n).Some?)))
  }

  /** Tokens without an include, the include tag after them, and what it is filled with. */
  datatype Part = Part(before: Tokens, tag: Token, answer: Tokens)

  ghost predicate PartOk(p: Part, resolver: Resolver) {
    !HasInclude(p.before) && FilledWith(p.tag, p.answer, resolver)
  }

  function Authored(parts: seq<Part>, tail: Tokens): Tokens {
    if parts == [] then tail else parts[0].before + [parts[0].tag] + Authored(parts[1..], tail)
  }

  function Served(parts: seq<Part>, tail: Tokens): Tokens {
    if parts == [] then tail else parts[0].before + parts[0].answer + Served(parts[1..], tail)
  }

  predicate SomeNested(parts: seq<Part>) {
    exists i :: 0 <= i < |parts| && HasInclude(parts[i].answer)
  }

  lemma FillingIs(t: Token, answer: Tokens, resolver: Resolver)
    requires FilledWith(t, answer, resolver)
    ensures Expansion(t, resolver) == answer
  {
    if t.OpenTag? {
      forall n
        ensures IncludeName(t.attributes) == Some(n) <==> Names(t.attributes, n)
      {
        NamesIff(t.attributes, n);
      }
    }
  }

  lemma ExpandOne(t: Token, resolver: Resolver)
    ensures Expand([t], resolver) == Expansion(t, resolver)
  {
    assert [t][1..] == [];
    assert Expand([t], resolver) == Expansion(t, resolver) + Expand([], resolver);
  }

  lemma NestsAppend(a: Tokens, b: Tokens, resolver: Resolver)
    ensures Nests(a + b, resolver) <==> Nests(a, resolver) || Nests(b, resolver)
  {
    if Nests(a, resolver) {
      var i :| 0 <= i < |a| && HasInclude(Expansion(a[i], resolver));
      assert (a + b)[i] == a[i];
    }
    if Nests(b, resolver) {
      var i :| 0 <= i < |b| && HasInclude(Expansion(b[i], resolver));
      assert (a + b)[|a| + i] == b[i];
    }
    if Nests(a + b, resolver) {
      var i :| 0 <= i < |a + b| && HasInclude(Expansion((a + b)[i], resolver));
      assert (a + b)[i] == if i < |a| then a[i] else b[i - |a|];
    }
  }

  lemma PlainNeverNests(ts: Tokens, resolver: Resolver)
    requires !HasInclude(ts)
    ensures !Nests(ts, resolver)
  {
    forall i | 0 <= i < |ts|
      ensures !HasInclude(Expansion(ts[i], resolver))
    {
      assert !IsInclude(ts[i]) && Expansion(ts[i], resolver) == [ts[i]];
    }
  }

  lemma PartExpands(p: Part, rest: Tokens, resolver: Resolver)
    requires PartOk(p, resolver)
    ensures Expand(p.before + [p.tag] + rest, resolver) == p.before + p.answer + Expand(rest, resolver)
    ensures Nests(p.before + [p.tag] + rest, resolver) <==> HasInclude(p.answer) || Nests(rest, resolver)
  {
    FillingIs(p.tag, p.answer, resolver);
    ExpandAppend(p.before + [p.tag], rest, resolver);
    ExpandAppend(p.before, [p.tag], resolver);
    ExpandKeepsIncludeFree(p.before, resolver);
    ExpandOne(p.tag, resolver);
    NestsAppend(p.before + [p.tag], rest, resolver);
    NestsAppend(p.before, [p.tag], resolver);
    PlainNeverNests(p.before, resolver);
    assert [p.tag][0] == p.tag;
  }

  lemma {:induction false} PartsExpand(parts: seq<Part>, tail: Tokens, resolver: Resolver)
    requires !HasInclude(tail) && forall i :: 0 <= i < |parts| ==> PartOk(parts[i], resolver)
    ensures Expand(Authored(parts, tail), resolver) == Served(parts, tail)
    ensures Nests(Authored(parts, tail), resolver) <==> SomeNested(parts)
  {
    if parts == [] {
      ExpandKeepsIncludeFree(tail, resolver);
      PlainNeverNests(tail, resolver);
    } else {
      var rest := parts[1..];
      assert forall i :: 0 <= i < |rest| ==> rest[i] == parts[i + 1];
      PartsExpand(rest, tail, resolver);
      assert PartOk(parts[0], resolver);
      PartExpands(parts[0], Authored(rest, tail), resolver);
      SomeNestedSplit(parts);
    }
  }

  lemma SomeNestedSplit(parts: seq<Part>)
    requires parts != []
    ensures SomeNested(parts) <==> HasInclude(parts[0].answer) || SomeNested(parts[1..])
  {
    var rest := parts[1..];
    if SomeNested(rest) {
      var i :| 0 <= i < |rest| && HasInclude(rest[i].answer);
      assert rest[i] == parts[i + 1];
    }
    if SomeNested(parts) {
      var i :| 0 <= i < |parts| && HasInclude(parts[i].answer);
      assert i > 0 ==> rest[i - 1] == parts[i];
    }
  }

  /** A page that holds the marker is served with each include tag replaced by the whole answer to it and every
      other token as authored, in order; it is refused as nested exactly when some answer holds an include, and
      for an invalid name exactly when what would be served has one. */
  lemma PageIsFilled(content: string, resolver: Resolver, parts: seq<Part>, tail: Tokens)
    requires Contains(content, Marker()) && Scan(content) == Some(Authored(parts, tail))
    requires !HasInclude(tail) && forall i :: 0 <= i < |parts| ==> PartOk(parts[i], resolver)
    ensures Resolved(content, resolver)
            == if SomeNested(parts) then Err(NestedInclude)
               else if NamesValid(Served(parts, tail)) then Ok(Emit(Served(parts, tail)))
               else Err(InvalidName)
  {
    PartsExpand(parts, tail, resolver);
    BadIff(Served(parts, tail));
  }

  /** Every page can be told apart in this way. */
  lemma {:induction false} PageHasParts(ts: Tokens, resolver: Resolver) returns (parts: seq<Part>, tail: Tokens)
    ensures ts == Authored(parts, tail) && !HasInclude(tail)
    ensures forall i :: 0 <= i < |parts| ==> PartOk(parts[i], resolver)
  {
    if ts == [] {
      parts, tail := [], [];
    } else {
      var rest: seq<Part>;
      rest, tail := PageHasParts(ts[1..], resolver);
      assert ts == [ts[0]] + ts[1..];
      if IsInclude(ts[0]) {
        var p := Part([], ts[0], Expansion(ts[0], resolver));
        EveryTagIsFilled(ts[0], resolver);
        parts := [p] + rest;
        assert parts[1..] == rest;
        assert Authored(parts, tail) == [] + [ts[0]] + Authored(rest, tail);
      } else if rest == [] {
        parts, tail := [], [ts[0]] + tail;
      } else {
        parts := [rest[0].(before := [ts[0]] + rest[0].before)] + rest[1..];
        assert PartOk(rest[0], resolver);
        assert parts[1..] == rest[1..];
        assert Authored(parts, tail) == [ts[0]] + rest[0].before + [rest[0].tag] + Authored(rest[1..], tail);
      }
    }
  }

  lemma EveryTagIsFilled(t: Token, resolver: Resolver)
    requires IsInclude(t)
    ensures FilledWith(t, Expansion(t, resolver), resolver)
  {
    if t.OpenTag? {
      forall n
        ensures IncludeName(t.attributes) == Some(n) <==> Names(t.attributes, n)
      {
        NamesIff(t.attributes, n);
      }
    }
  }

  /** A page of one include: the whole answer stands where the tag stood. */
  lemma OneIncludeIsFilled(content: string, resolver: Resolver, a: Tokens, t: Token, b: Tokens, answer: Tokens)
    requires Contains(content, Marker()) && Scan(content) == Some(a + [t] + b)
    requires !HasInclude(a) && !HasInclude(b) && FilledWith(t, answer, resolver)
    ensures Resolved(content, resolver)
            == if HasInclude(answer) then Err(NestedInclude)
               else if NamesValid(a + answer + b) then Ok(Emit(a + answer + b))
               else Err(InvalidName)
  {
    var p := Part(a, t, answer);
    var parts := [p];
    assert parts[1..] == [] && parts[0] == p;
    assert PartOk(p, resolver);
    assert Authored(parts, b) == a + [t] + Authored([], b);
    assert Served(parts, b) == a + answer + Served([], b);
    SomeNestedSplit(parts);
    PageIsFilled(content, resolver, parts, b);
  }
}
