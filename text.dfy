/** String helpers standing for the .NET string and `StringBuilder` operations the C# code uses. */
module Text {
  import opened Wrappers
  import opened Seqs

  /** `Environment.NewLine` as written by `AppendLine` and by the line breaks of verbatim strings. */
  const NewLine: string := "\n"

  predicate IsDigit(c: char) { '0' <= c <= '9' }

  function Digit(d: nat): (c: char)
    requires d < 10
    ensures IsDigit(c)
  {
    ['0', '1', '2', '3', '4', '5', '6', '7', '8', '9'][d]
  }

  /** `int.ToString()` for a non-negative number, as `StringBuilder.Append(int)` writes it. */
  function NatToString(n: nat): (s: string)
    ensures |s| > 0
    ensures forall i :: 0 <= i < |s| ==> IsDigit(s[i])
    ensures (|s| == 1) == (n < 10)
  {
    if n < 10 then [Digit(n)] else NatToString(n / 10) + [Digit(n % 10)]
  }

  /** Distinct numbers print differently, so `obs1..obsN` and `propertyExpression1..N` are distinct names. */
  lemma {:induction false} NatToStringInjective(m: nat, n: nat)
    requires NatToString(m) == NatToString(n)
    ensures m == n
  {
    var s := NatToString(m);
    if m >= 10 && n >= 10 {
      assert NatToString(m / 10) == s[..|s| - 1] == NatToString(n / 10);
      NatToStringInjective(m / 10, n / 10);
      assert Digit(m % 10) == s[|s| - 1] == Digit(n % 10);
      assert m % 10 == n % 10;
    } else {
      assert Digit(m) == Digit(n);
    }
  }

  /** A prefix followed by a number never equals the same prefix followed by another number. */
  lemma NumberedNamesDistinct(prefix: string, m: nat, n: nat)
    requires m != n
    ensures prefix + NatToString(m) != prefix + NatToString(n)
  {
    if prefix + NatToString(m) == prefix + NatToString(n) {
      assert NatToString(m) == (prefix + NatToString(m))[|prefix|..];
      NatToStringInjective(m, n);
    }
  }

  predicate EndsWithDigit(s: string) { |s| > 0 && IsDigit(s[|s| - 1]) }

  /**
   * A name that does not end in a digit, followed by a number, determines both the name and the number:
   * `p + n` and `q + m` coincide only when `p == q` and `n == m`.
   */
  lemma {:induction false} NumberedNamesInjective(p: string, m: nat, q: string, n: nat)
    requires !EndsWithDigit(p) && !EndsWithDigit(q)
    requires p + NatToString(m) == q + NatToString(n)
    ensures p == q && m == n
  {
    var s := p + NatToString(m);
    var d, e := NatToString(m), NatToString(n);
    if |p| < |q| {
      LongerNameEndsWithDigit(q, e, p, d);
      assert false;
    } else if |q| < |p| {
      LongerNameEndsWithDigit(p, d, q, e);
      assert false;
    }
    assert p == s[..|p|] == q;
    assert d == s[|p|..] == e;
    NatToStringInjective(m, n);
  }

  /** When two splittings of one text have digits after the shorter name, the longer name ends in a digit. */
  lemma LongerNameEndsWithDigit(p: string, d: string, q: string, e: string)
    requires p + d == q + e && |q| < |p|
    requires forall i :: 0 <= i < |e| ==> IsDigit(e[i])
    ensures EndsWithDigit(p)
  {
    assert (p + d)[|p| - 1] == p[|p| - 1];
    assert (q + e)[|p| - 1] == e[|p| - 1 - |q|];
  }

  /** Without that condition the number can run into the name: "A1" then 0 reads as "A" then 10. */
  lemma NumberedNamesCanCollide()
    ensures "A1" + NatToString(0) == "A" + NatToString(10)
  {
    assert NatToString(10) == NatToString(1) + [Digit(0)];
  }

  /** `string.Join(separator, parts)`. */
  function Join(separator: string, parts: seq<string>): string
  {
    if |parts| == 0 then ""
    else if |parts| == 1 then parts[0]
    else Join(separator, parts[..|parts| - 1]) + separator + parts[|parts| - 1]
  }

  lemma JoinSnoc(separator: string, parts: seq<string>, last: string)
    requires |parts| > 0
    ensures Join(separator, parts + [last]) == Join(separator, parts) + separator + last
  {
    assert (parts + [last])[..|parts|] == parts;
  }

  /** Each part followed by `separator`: what a loop appending `part` then `separator` writes. */
  function Separated(parts: seq<string>, separator: string): string
  {
    if parts == [] then "" else Separated(parts[..|parts| - 1], separator) + (parts[|parts| - 1] + separator)
  }

  /** Appending every part with a trailing separator and then a last part is joining them all. */
  lemma {:induction false} SeparatedThenLastIsJoin(parts: seq<string>, separator: string, last: string)
    ensures Separated(parts, separator) + last == Join(separator, parts + [last])
    decreases |parts|
  {
    if parts == [] {
      assert parts + [last] == [last];
    } else {
      var front := parts[..|parts| - 1];
      var x := parts[|parts| - 1];
      SeparatedThenLastIsJoin(front, separator, x);
      assert (parts + [last])[..|parts|] == front + [x];
      calc {
        Separated(parts, separator) + last;
        Separated(front, separator) + (x + separator) + last;
        Join(separator, front + [x]) + separator + last;
        Join(separator, parts + [last]);
      }
    }
  }

  /** `string.Concat(Enumerable.Repeat(s, n))`. */
  function Repeat(s: string, n: nat): string
  {
    if n == 0 then "" else Repeat(s, n - 1) + s
  }

  /** `char.IsWhiteSpace`: the Unicode white-space characters. */
  predicate IsWhiteSpace(c: char)
  {
    || ('\U{0009}' <= c <= '\U{000D}') || c == ' ' || c == '\U{0085}' || c == '\U{00A0}'
    || c == '\U{1680}' || ('\U{2000}' <= c <= '\U{200A}') || c == '\U{2028}' || c == '\U{2029}'
    || c == '\U{202F}' || c == '\U{205F}' || c == '\U{3000}'
  }

  /** `string.IsNullOrWhiteSpace`, with `None` for `null`. */
  predicate IsNullOrWhiteSpace(s: Option<string>)
  {
    s.None? || forall i :: 0 <= i < |s.value| ==> IsWhiteSpace(s.value[i])
  }

  /** `string.IsNullOrEmpty` on a string that is never `null`. */
  predicate IsNullOrEmpty(s: string)
  {
    s == ""
  }

  /** `s.Replace(from, to)` for characters. */
  function ReplaceChar(s: string, from: char, to: char): (r: string)
    ensures |r| == |s|
    ensures forall i :: 0 <= i < |s| ==> r[i] == (if s[i] == from then to else s[i])
  {
    seq(|s|, i requires 0 <= i < |s| => if s[i] == from then to else s[i])
  }

  /** `s` with `f` applied to each character, as `ToUpperInvariant` applies the character mapping. */
  function MapChars(s: string, f: char -> char): (r: string)
    ensures |r| == |s|
  {
    if s == [] then [] else MapChars(s[..|s| - 1], f) + [f(s[|s| - 1])]
  }

  lemma {:induction false} MapCharsAt(s: string, f: char -> char, i: nat)
    requires i < |s|
    ensures MapChars(s, f)[i] == f(s[i])
  {
    if i < |s| - 1 {
      MapCharsAt(s[..|s| - 1], f, i);
    }
  }

  lemma {:induction false} MapCharsAppend(a: string, b: string, f: char -> char)
    ensures MapChars(a + b, f) == MapChars(a, f) + MapChars(b, f)
    decreases |b|
  {
    if b != [] {
      assert (a + b)[..|a + b| - 1] == a + b[..|b| - 1];
      MapCharsAppend(a, b[..|b| - 1], f);
    } else {
      assert a + b == a;
    }
  }

  /** A mapping that keeps every digit leaves a number's text as it is. */
  lemma {:induction false} MapCharsKeepsDigits(s: string, f: char -> char)
    requires forall i :: 0 <= i < |s| ==> IsDigit(s[i])
    requires forall c :: IsDigit(c) ==> f(c) == c
    ensures MapChars(s, f) == s
  {
    if s != [] {
      MapCharsKeepsDigits(s[..|s| - 1], f);
      assert s == s[..|s| - 1] + [s[|s| - 1]];
    }
  }

  /** A character mapping that fixes every digit and maps no other character to a digit, as `ToUpperInvariant` does. */
  predicate KeepsDigits(f: char -> char)
  {
    forall c :: (IsDigit(c) ==> f(c) == c) && (IsDigit(f(c)) ==> IsDigit(c))
  }

  /** Such a mapping leaves a number's text as it is. */
  lemma MapCharsKeepsNumber(n: nat, f: char -> char)
    requires KeepsDigits(f)
    ensures MapChars(NatToString(n), f) == NatToString(n)
  {
    MapCharsKeepsDigits(NatToString(n), f);
  }

  /** Such a mapping neither adds nor removes a trailing digit. */
  lemma MapCharsEndsWithDigit(s: string, f: char -> char)
    requires KeepsDigits(f)
    ensures EndsWithDigit(MapChars(s, f)) <==> EndsWithDigit(s)
  {
    if s != [] {
      MapCharsAt(s, f, |s| - 1);
    }
  }

  /** `t` occurs in `s` at offset `i`. */
  predicate OccursAt(s: string, t: string, i: nat)
  {
    i + |t| <= |s| && s[i..i + |t|] == t
  }

  /** `s.Contains(t)`. */
  predicate Contains(s: string, t: string)
  {
    exists i: nat | i <= |s| :: OccursAt(s, t, i)
  }

  lemma OccursInMiddle(p: string, t: string, q: string)
    ensures OccursAt(p + t + q, t, |p|)
    ensures Contains(p + t + q, t)
  {
    assert (p + t + q)[|p|..|p| + |t|] == t;
    assert OccursAt(p + t + q, t, |p|);
  }

  lemma AppendAssociative(a: string, b: string, c: string)
    ensures a + b + c == a + (b + c)
  {
  }

  lemma AppendEmpty(a: string)
    ensures a + "" == a
  {
  }

  /** An occurrence in a prefix is an occurrence in the whole text. */
  lemma ContainsPrefix(s: string, t: string, rest: string)
    requires Contains(s, t)
    ensures Contains(s + rest, t)
  {
    var k: nat :| k <= |s| && OccursAt(s, t, k);
    assert (s + rest)[k..k + |t|] == s[k..k + |t|];
    assert OccursAt(s + rest, t, k);
  }

  /** An occurrence in a suffix is an occurrence in the whole text. */
  lemma ContainsSuffix(front: string, s: string, t: string)
    requires Contains(s, t)
    ensures Contains(front + s, t)
  {
    var k: nat :| k <= |s| && OccursAt(s, t, k);
    assert (front + s)[|front| + k..|front| + k + |t|] == s[k..k + |t|];
    assert OccursAt(front + s, t, |front| + k);
  }

  /** A text ends with its last part. */
  lemma ContainsLast(front: string, t: string)
    ensures Contains(front + t, t)
  {
    assert (front + t)[|front|..|front| + |t|] == t;
    assert OccursAt(front + t, t, |front|);
  }

  /** `t` and `u` in order, with text around and between them. */
  lemma InOrderWithin(a: string, t: string, b: string, u: string, c: string)
    ensures ContainsInOrder(a + t + b + u + c, t, u)
  {
    assert (a + t + b + u + c)[|a|..|a| + |t|] == t;
    assert (a + t + b + u + c)[|a + t + b|..|a + t + b| + |u|] == u;
    assert OccursAt(a + t + b + u + c, t, |a|);
    assert OccursAt(a + t + b + u + c, u, |a + t + b|);
  }

  /** The pieces of an interpolated template, concatenated in order. */
  function Concat(parts: seq<string>): string
  {
    if parts == [] then "" else Concat(parts[..|parts| - 1]) + parts[|parts| - 1]
  }

  lemma {:induction false} ConcatAppend(a: seq<string>, b: seq<string>)
    ensures Concat(a + b) == Concat(a) + Concat(b)
    decreases |b|
  {
    if b == [] {
      assert a + b == a;
    } else {
      var front := b[..|b| - 1];
      ConcatAppend(a, front);
      assert (a + b)[..|a + b| - 1] == a + front;
    }
  }

  /** `t` occurs in `s`, and an occurrence of `u` starts after it ends. */
  predicate ContainsInOrder(s: string, t: string, u: string)
  {
    exists i: nat, j: nat | i <= |s| && j <= |s| :: OccursAt(s, t, i) && OccursAt(s, u, j) && i + |t| <= j
  }

  /** Each piece occurs in the template at the length of the pieces before it. */
  lemma ConcatOccursAt(parts: seq<string>, i: nat)
    requires i < |parts|
    ensures OccursAt(Concat(parts), parts[i], |Concat(parts[..i])|)
  {
    assert parts == parts[..i] + [parts[i]] + parts[i + 1..];
    ConcatAppend(parts[..i] + [parts[i]], parts[i + 1..]);
    ConcatAppend(parts[..i], [parts[i]]);
    assert Concat([parts[i]]) == Concat([]) + parts[i];
    OccursInMiddle(Concat(parts[..i]), parts[i], Concat(parts[i + 1..]));
  }

  /** A later prefix of the pieces is at least as long as an earlier prefix and the piece after it. */
  lemma ConcatPrefixGrows(parts: seq<string>, i: nat, j: nat)
    requires i < j <= |parts|
    ensures |Concat(parts[..i])| + |parts[i]| <= |Concat(parts[..j])|
  {
    assert parts[..i + 1][..i] == parts[..i];
    assert parts[..j] == parts[..i + 1] + parts[i + 1..j];
    ConcatAppend(parts[..i + 1], parts[i + 1..j]);
  }

  /** Two pieces of a template occur in it, in the order of the pieces. */
  lemma ConcatInOrder(parts: seq<string>, i: nat, j: nat, t: string, u: string)
    requires i < j < |parts| && parts[i] == t && parts[j] == u
    ensures Contains(Concat(parts), t) && Contains(Concat(parts), u)
    ensures ContainsInOrder(Concat(parts), t, u)
  {
    var s := Concat(parts);
    var a, b := |Concat(parts[..i])|, |Concat(parts[..j])|;
    ConcatOccursAt(parts, i);
    ConcatOccursAt(parts, j);
    ConcatPrefixGrows(parts, i, j);
    assert OccursAt(s, parts[i], a) && OccursAt(s, parts[j], b) && a + |parts[i]| <= b;
  }

  /*
   * A template of 2n + 1 pieces whose odd-numbered pieces are the facts to find: each odd-numbered
   * piece occurs before the next one. One lemma per length keeps the pieces apart from their text.
   */
  lemma PiecesInOrder5(p0: string, p1: string, p2: string, p3: string, p4: string)
    ensures ContainsInOrder(Concat([p0, p1, p2, p3, p4]), p1, p3)
  {
    ConcatInOrder([p0, p1, p2, p3, p4], 1, 3, p1, p3);
  }

  lemma PiecesInOrder7(p0: string, p1: string, p2: string, p3: string, p4: string, p5: string, p6: string)
    ensures ContainsInOrder(Concat([p0, p1, p2, p3, p4, p5, p6]), p1, p3)
    ensures ContainsInOrder(Concat([p0, p1, p2, p3, p4, p5, p6]), p3, p5)
  {
    ConcatInOrder([p0, p1, p2, p3, p4, p5, p6], 1, 3, p1, p3);
    ConcatInOrder([p0, p1, p2, p3, p4, p5, p6], 3, 5, p3, p5);
  }

  lemma PiecesInOrder9(p0: string, p1: string, p2: string, p3: string, p4: string, p5: string, p6: string,
                       p7: string, p8: string)
    ensures ContainsInOrder(Concat([p0, p1, p2, p3, p4, p5, p6, p7, p8]), p1, p3)
    ensures ContainsInOrder(Concat([p0, p1, p2, p3, p4, p5, p6, p7, p8]), p3, p5)
    ensures ContainsInOrder(Concat([p0, p1, p2, p3, p4, p5, p6, p7, p8]), p5, p7)
  {
    ConcatInOrder([p0, p1, p2, p3, p4, p5, p6, p7, p8], 1, 3, p1, p3);
    ConcatInOrder([p0, p1, p2, p3, p4, p5, p6, p7, p8], 3, 5, p3, p5);
    ConcatInOrder([p0, p1, p2, p3, p4, p5, p6, p7, p8], 5, 7, p5, p7);
  }

  lemma PiecesInOrder11(p0: string, p1: string, p2: string, p3: string, p4: string, p5: string,
                        p6: string, p7: string, p8: string, p9: string, p10: string)
    ensures ContainsInOrder(Concat([p0, p1, p2, p3, p4, p5, p6, p7, p8, p9, p10]), p1, p3)
    ensures ContainsInOrder(Concat([p0, p1, p2, p3, p4, p5, p6, p7, p8, p9, p10]), p3, p5)
    ensures ContainsInOrder(Concat([p0, p1, p2, p3, p4, p5, p6, p7, p8, p9, p10]), p5, p7)
    ensures ContainsInOrder(Concat([p0, p1, p2, p3, p4, p5, p6, p7, p8, p9, p10]), p7, p9)
  {
    ConcatInOrder([p0, p1, p2, p3, p4, p5, p6, p7, p8, p9, p10], 1, 3, p1, p3);
    ConcatInOrder([p0, p1, p2, p3, p4, p5, p6, p7, p8, p9, p10], 3, 5, p3, p5);
    ConcatInOrder([p0, p1, p2, p3, p4, p5, p6, p7, p8, p9, p10], 5, 7, p5, p7);
    ConcatInOrder([p0, p1, p2, p3, p4, p5, p6, p7, p8, p9, p10], 7, 9, p7, p9);
  }

  lemma PiecesInOrder15(p0: string, p1: string, p2: string, p3: string, p4: string, p5: string, p6: string, p7: string,
                        p8: string, p9: string, p10: string, p11: string, p12: string, p13: string, p14: string)
    ensures ContainsInOrder(Concat([p0, p1, p2, p3, p4, p5, p6, p7, p8, p9, p10, p11, p12, p13, p14]), p1, p3)
    ensures ContainsInOrder(Concat([p0, p1, p2, p3, p4, p5, p6, p7, p8, p9, p10, p11, p12, p13, p14]), p3, p5)
    ensures ContainsInOrder(Concat([p0, p1, p2, p3, p4, p5, p6, p7, p8, p9, p10, p11, p12, p13, p14]), p5, p7)
    ensures ContainsInOrder(Concat([p0, p1, p2, p3, p4, p5, p6, p7, p8, p9, p10, p11, p12, p13, p14]), p7, p9)
    ensures ContainsInOrder(Concat([p0, p1, p2, p3, p4, p5, p6, p7, p8, p9, p10, p11, p12, p13, p14]), p9, p11)
    ensures ContainsInOrder(Concat([p0, p1, p2, p3, p4, p5, p6, p7, p8, p9, p10, p11, p12, p13, p14]), p11, p13)
  {
    ConcatInOrder([p0, p1, p2, p3, p4, p5, p6, p7, p8, p9, p10, p11, p12, p13, p14], 1, 3, p1, p3);
    ConcatInOrder([p0, p1, p2, p3, p4, p5, p6, p7, p8, p9, p10, p11, p12, p13, p14], 3, 5, p3, p5);
    ConcatInOrder([p0, p1, p2, p3, p4, p5, p6, p7, p8, p9, p10, p11, p12, p13, p14], 5, 7, p5, p7);
    ConcatInOrder([p0, p1, p2, p3, p4, p5, p6, p7, p8, p9, p10, p11, p12, p13, p14], 7, 9, p7, p9);
    ConcatInOrder([p0, p1, p2, p3, p4, p5, p6, p7, p8, p9, p10, p11, p12, p13, p14], 9, 11, p9, p11);
    ConcatInOrder([p0, p1, p2, p3, p4, p5, p6, p7, p8, p9, p10, p11, p12, p13, p14], 11, 13, p11, p13);
  }

  /** `f` of each element, concatenated in order: what a loop appending `f(x)` for each `x` writes. */
  function ConcatMap<T>(xs: seq<T>, f: T -> string): string
  {
    if xs == [] then "" else ConcatMap(xs[..|xs| - 1], f) + f(xs[|xs| - 1])
  }

  lemma {:induction false} ConcatMapAppend<T>(a: seq<T>, b: seq<T>, f: T -> string)
    ensures ConcatMap(a + b, f) == ConcatMap(a, f) + ConcatMap(b, f)
    decreases |b|
  {
    if b == [] {
      assert a + b == a;
    } else {
      var front := b[..|b| - 1];
      ConcatMapAppend(a, front, f);
      assert (a + b)[..|a + b| - 1] == a + front;
    }
  }

  /** The text of every element occurs in the concatenation. */
  lemma {:induction false} ConcatMapContains<T>(xs: seq<T>, f: T -> string, i: nat)
    requires i < |xs|
    ensures Contains(ConcatMap(xs, f), f(xs[i]))
    decreases |xs|
  {
    var front := xs[..|xs| - 1];
    if i == |xs| - 1 {
      ContainsLast(ConcatMap(front, f), f(xs[i]));
    } else {
      assert front[i] == xs[i];
      ConcatMapContains(front, f, i);
      ContainsPrefix(ConcatMap(front, f), f(xs[i]), f(xs[|xs| - 1]));
    }
  }

  /** A loop appending `f(x)` for each `x` of `xs` to a builder that holds `start`. */
  method AppendEach<T>(start: string, xs: seq<T>, f: T -> string) returns (r: string)
    ensures r == start + ConcatMap(xs, f)
  {
    r := start;
    AppendEmpty(start);
    for i := 0 to |xs|
      invariant r == start + ConcatMap(xs[..i], f)
    {
      assert xs[..i + 1][..i] == xs[..i];
      AppendAssociative(start, ConcatMap(xs[..i], f), f(xs[i]));
      r := r + f(xs[i]);
    }
    assert xs[..|xs|] == xs;
  }

  /** A loop appending each part followed by `separator` to a builder that holds `start`. */
  method AppendSeparated(start: string, parts: seq<string>, separator: string) returns (r: string)
    ensures r == start + Separated(parts, separator)
  {
    r := start;
    AppendEmpty(start);
    for i := 0 to |parts|
      invariant r == start + Separated(parts[..i], separator)
    {
      assert parts[..i + 1][..i] == parts[..i];
      AppendAssociative(start, Separated(parts[..i], separator), parts[i] + separator);
      r := r + (parts[i] + separator);
    }
    assert parts[..|parts|] == parts;
  }

  /** The text of an element after the first part of a concatenation occurs in the whole. */
  lemma ConcatMapContainsAfter<T>(front: string, xs: seq<T>, f: T -> string, i: nat)
    requires i < |xs|
    ensures Contains(front + ConcatMap(xs, f), f(xs[i]))
  {
    ConcatMapContains(xs, f, i);
    ContainsSuffix(front, ConcatMap(xs, f), f(xs[i]));
  }

  lemma ConcatMapNothingAfter<T>(front: string, f: T -> string)
    ensures front + ConcatMap([], f) == front
  {
  }
}
