/**
 * Node identifiers of the table of contents: `toKebabcase` and the
 * `<kebab-title>-<depth>` id that the tree mapper attaches to every item.
 */
module Identifiers {

  /** ASCII lower-casing; stands in for JavaScript's `toLowerCase` (no Unicode case mapping). */
  function LowerChar(c: char): char {
    if 'A' <= c <= 'Z' then (c as int + 32) as char else c
  }

  function LowerCase(s: string): string {
    seq(|s|, i requires 0 <= i < |s| => LowerChar(s[i]))
  }

  /** `s.split(sep)` for a one-character separator: every separator ends a piece, so there is always one more piece than separators. */
  function Split(s: string, sep: char): (parts: seq<string>)
    ensures |parts| >= 1
    ensures forall k :: 0 <= k < |parts| ==> sep !in parts[k]
  {
    if s == [] then [[]]
    else
      var rest := Split(s[1..], sep);
      if s[0] == sep then [[]] + rest
      else [[s[0]] + rest[0]] + rest[1..]
  }

  /** `parts.join(sep)` for a one-character separator. */
  function Join(parts: seq<string>, sep: char): string {
    if |parts| == 0 then []
    else if |parts| == 1 then parts[0]
    else parts[0] + [sep] + Join(parts[1..], sep)
  }

  /** Reference meaning of split-then-join: every occurrence of `a` replaced by `b`. */
  function Replace(s: string, a: char, b: char): string {
    seq(|s|, i requires 0 <= i < |s| => if s[i] == a then b else s[i])
  }

  function ToKebabcase(title: string): string {
    Join(Split(LowerCase(title), ' '), '-')
  }

  function DigitChar(d: nat): char
    requires d < 10
  {
    ('0' as int + d) as char
  }

  function DigitValue(c: char): nat {
    if '0' <= c <= '9' then c as int - '0' as int else 0
  }

  /** The decimal text of a depth, as written by the template literal `${depth}`. */
  function NatToString(n: nat): (r: string)
    ensures |r| >= 1
    ensures forall i :: 0 <= i < |r| ==> '0' <= r[i] <= '9'
  {
    if n < 10 then [DigitChar(n)] else NatToString(n / 10) + [DigitChar(n % 10)]
  }

  /** Reads a decimal numeral back (the inverse of NatToString on its range). */
  function ParseNat(s: string): nat {
    if s == [] then 0 else ParseNat(s[..|s| - 1]) * 10 + DigitValue(s[|s| - 1])
  }

  /** The id of an item with this title at this depth. */
  function NodeId(title: string, depth: nat): string {
    ToKebabcase(title) + "-" + NatToString(depth)
  }

  /** Splitting on `a` and joining with `b` replaces each `a` by `b` and changes nothing else. */
  lemma {:induction false} SplitJoinReplaces(s: string, a: char, b: char)
    ensures Join(Split(s, a), b) == Replace(s, a, b)
  {
    if s != [] {
      var rest := Split(s[1..], a);
      SplitJoinReplaces(s[1..], a, b);
      assert Replace(s, a, b) == [if s[0] == a then b else s[0]] + Replace(s[1..], a, b);
      if s[0] == a {
        assert Join([[]] + rest, b) == [b] + Join(rest, b);
      } else {
        var parts := [[s[0]] + rest[0]] + rest[1..];
        if |rest| == 1 {
          assert Join(parts, b) == [s[0]] + rest[0];
        } else {
          assert parts[1..] == rest[1..];
          assert Join(parts, b) == [s[0]] + (rest[0] + [b] + Join(rest[1..], b));
        }
      }
    }
  }

  /** Split and join with the same separator give the text back. */
  lemma {:induction false} SplitJoinRoundTrip(s: string, sep: char)
    ensures Join(Split(s, sep), sep) == s
  {
    SplitJoinReplaces(s, sep, sep);
    assert Replace(s, sep, sep) == s;
  }

  /** The kebab-case title has the title's length, a hyphen for each space and the lower-cased character elsewhere. */
  lemma KebabcaseChars(title: string)
    ensures |ToKebabcase(title)| == |title|
    ensures forall i :: 0 <= i < |title| ==>
      ToKebabcase(title)[i] == if title[i] == ' ' then '-' else LowerChar(title[i])
    ensures ' ' !in ToKebabcase(title)
  {
    SplitJoinReplaces(LowerCase(title), ' ', '-');
  }

  /** Reading the decimal text of a depth gives the depth back. */
  lemma {:induction false} ParseNatToString(n: nat)
    ensures ParseNat(NatToString(n)) == n
  {
    var s := NatToString(n);
    if n < 10 {
      assert s[..|s| - 1] == [];
    } else {
      assert s[..|s| - 1] == NatToString(n / 10);
      ParseNatToString(n / 10);
    }
  }

  /** A position past the hyphen of `p + "-" + q` lies inside `q`. */
  lemma HyphenInside(p: string, q: string, k: nat)
    requires |p| < k < |p| + 1 + |q|
    ensures (p + "-" + q)[k] in q
  {
    assert (p + "-" + q)[k] == q[k - |p| - 1];
  }

  /** Text ending in a hyphen followed by hyphen-free text splits uniquely at its last hyphen. */
  lemma LastHyphenSplit(a: string, x: string, b: string, y: string)
    requires '-' !in x && '-' !in y
    requires a + "-" + x == b + "-" + y
    ensures a == b && x == y
  {
    var s := a + "-" + x;
    if |x| < |y| {
      HyphenInside(b, y, |a|);
      assert false;
    } else if |y| < |x| {
      HyphenInside(a, x, |b|);
      assert false;
    }
    assert a == s[..|a|];
    assert x == s[|a| + 1..];
  }

  /** Two ids are equal exactly when the depths are equal and the titles have the same kebab case:
      items at different depths never share an id, items at one depth share one when their titles collide. */
  lemma NodeIdEqual(t1: string, d1: nat, t2: string, d2: nat)
    ensures NodeId(t1, d1) == NodeId(t2, d2) <==> d1 == d2 && ToKebabcase(t1) == ToKebabcase(t2)
  {
    if NodeId(t1, d1) == NodeId(t2, d2) {
      LastHyphenSplit(ToKebabcase(t1), NatToString(d1), ToKebabcase(t2), NatToString(d2));
      ParseNatToString(d1);
      ParseNatToString(d2);
    }
  }
}
