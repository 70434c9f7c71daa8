/** Text as the source measures it: strings of Unicode characters, lengths in UTF-8 bytes. */
module Text {

  /** Bytes of one character in UTF-8. */
  function Width(c: char): (n: nat)
    ensures 1 <= n <= 4
  {
    if c as int < 0x80 then 1 else if c as int < 0x800 then 2 else if c as int < 0x10000 then 3 else 4
  }

  function ByteLen(s: string): nat {
    if s == "" then 0 else Width(s[0]) + ByteLen(s[1..])
  }

  lemma {:induction false} ByteLenAppend(a: string, b: string)
    ensures ByteLen(a + b) == ByteLen(a) + ByteLen(b)
  {
    if a == "" {
      assert a + b == b;
    } else {
      ByteLenAppend(a[1..], b);
      assert (a + b)[1..] == a[1..] + b;
    }
  }

  lemma {:induction false} ByteLenCovers(s: string)
    ensures ByteLen(s) >= |s|
  {
    if s != "" {
      ByteLenCovers(s[1..]);
    }
  }

  /** Every character of the text is one byte. */
  ghost predicate Ascii(s: string) {
    forall i :: 0 <= i < |s| ==> s[i] as int < 0x80
  }

  lemma {:induction false} ByteLenAscii(s: string)
    requires Ascii(s)
    ensures ByteLen(s) == |s|
  {
    if s != "" {
      ByteLenAscii(s[1..]);
    }
  }

  /** Control characters, Unicode category Cc. */
  predicate IsControl(c: char) {
    c as int < 0x20 || 0x7f <= c as int < 0xa0
  }

  /** The Unicode property White_Space. */
  predicate IsWhitespace(c: char) {
    var n := c as int;
    || 9 <= n <= 13 || n == 0x20 || n == 0x85 || n == 0xa0 || n == 0x1680 || 0x2000 <= n <= 0x200a
    || n == 0x2028 || n == 0x2029 || n == 0x202f || n == 0x205f || n == 0x3000
  }

  predicate Blank(s: string) {
    forall i :: 0 <= i < |s| ==> IsWhitespace(s[i])
  }

  /** Index of the first `c`, or the length. */
  function Find(s: string, c: char): (i: nat)
    ensures i <= |s|
    ensures c !in s[..i]
    ensures i < |s| ==> s[i] == c
  {
    if s == "" || s[0] == c then 0
    else
      var k := Find(s[1..], c);
      assert s[..1 + k] == [s[0]] + s[1..][..k];
      1 + k
  }

  lemma {:induction false} FindAfter(a: string, c: char, b: string)
    requires c !in a
    ensures Find(a + [c] + b, c) == |a|
  {
    var s := a + [c] + b;
    assert s[|a|] == c;
    assert forall k :: 0 <= k < |a| ==> s[k] == a[k];
    assert forall k :: 0 <= k < Find(s, c) ==> s[k] == s[..Find(s, c)][k];
  }

  /** The texts of the elements, one after the other. */
  function Flat<T>(f: T -> string, xs: seq<T>): string {
    if xs == [] then "" else f(xs[0]) + Flat(f, xs[1..])
  }

  lemma {:induction false} FlatAppend<T>(f: T -> string, a: seq<T>, b: seq<T>)
    ensures Flat(f, a + b) == Flat(f, a) + Flat(f, b)
  {
    if a == [] {
      assert a + b == b;
    } else {
      FlatAppend(f, a[1..], b);
      assert (a + b)[1..] == a[1..] + b;
      Associative(f(a[0]), Flat(f, a[1..]), Flat(f, b));
    }
  }

  lemma FlatOne<T>(f: T -> string, x: T)
    ensures Flat(f, [x]) == f(x)
  {
    assert [x][1..] == [];
    assert Flat(f, [x]) == f(x) + Flat(f, [x][1..]);
    assert f(x) + "" == f(x);
  }

  lemma FlatSnoc<T>(f: T -> string, xs: seq<T>, k: nat)
    requires k < |xs|
    ensures Flat(f, xs[..k + 1]) == Flat(f, xs[..k]) + f(xs[k])
  {
    assert xs[..k + 1] == xs[..k] + [xs[k]];
    FlatAppend(f, xs[..k], [xs[k]]);
    FlatOne(f, xs[k]);
  }

  lemma Associative(a: string, b: string, c: string)
    ensures a + (b + c) == (a + b) + c
  {
  }
}
