/** Text matching for the `contains` / `mode: "insensitive"` filters, and the ascending order on text
    used by `orderBy: { brand: "asc" }` with `distinct`. */
module Text {

  /** ASCII upper-case letters folded to lower case; every other character is kept. */
  function Lower(c: char): char {
    if 'A' <= c <= 'Z' then (c as int + 32) as char else c
  }

  function LowerText(s: string): (r: string)
    ensures |r| == |s|
    ensures forall i :: 0 <= i < |s| ==> r[i] == Lower(s[i])
  {
    if s == [] then [] else [Lower(s[0])] + LowerText(s[1..])
  }

  /** `needle` occurs in `hay` as a contiguous block. */
  predicate Occurs(needle: string, hay: string) {
    exists i | 0 <= i <= |hay| :: needle <= hay[i..]
  }

  /** `hay` contains `needle`, ignoring case: Prisma's `{ contains: needle, mode: "insensitive" }`. */
  predicate ContainsInsensitive(hay: string, needle: string) {
    Occurs(LowerText(needle), LowerText(hay))
  }

  /** An exact match is also a case-insensitive substring match. */
  lemma ContainsItself(s: string)
    ensures ContainsInsensitive(s, s)
  {
    var l := LowerText(s);
    assert l <= l[0..];
  }

  /** Every text contains the empty text: an empty `contains` filter keeps every row. */
  lemma ContainsEmpty(s: string)
    ensures ContainsInsensitive(s, "")
  {
    var l := LowerText(s);
    assert LowerText("") <= l[0..];
  }

  /** Lexicographic order on character codes. */
  predicate Less(a: string, b: string) {
    if a == [] then b != []
    else if b == [] then false
    else if a[0] < b[0] then true
    else if a[0] == b[0] then Less(a[1..], b[1..])
    else false
  }

  lemma {:induction false} LessIrreflexive(a: string)
    ensures !Less(a, a)
  {
    if a != [] {
      LessIrreflexive(a[1..]);
    }
  }

  lemma {:induction false} LessTransitive(a: string, b: string, c: string)
    requires Less(a, b) && Less(b, c)
    ensures Less(a, c)
  {
    if a != [] && b != [] && c != [] && a[0] == b[0] == c[0] {
      LessTransitive(a[1..], b[1..], c[1..]);
    }
  }

  lemma {:induction false} LessTotal(a: string, b: string)
    requires a != b
    ensures Less(a, b) || Less(b, a)
  {
    if a != [] && b != [] && a[0] == b[0] {
      assert a == [a[0]] + a[1..] && b == [b[0]] + b[1..];
      LessTotal(a[1..], b[1..]);
    }
  }

  lemma LessAsymmetric(a: string, b: string)
    requires Less(a, b)
    ensures !Less(b, a)
  {
    if Less(b, a) {
      LessTransitive(a, b, a);
      LessIrreflexive(a);
    }
  }

  /** Strictly ascending, hence without repetitions. */
  predicate StrictlyAscending(s: seq<string>) {
    forall i, j :: 0 <= i < j < |s| ==> Less(s[i], s[j])
  }

  /** Adds `x` to an ascending sequence at its place, unless it is already there. */
  function Insert(s: seq<string>, x: string): (r: seq<string>)
    requires StrictlyAscending(s)
    ensures StrictlyAscending(r)
    ensures forall y :: y in r <==> y in s || y == x
  {
    if s == [] then [x]
    else if x == s[0] then s
    else if Less(x, s[0]) then
      assert forall j :: 0 < j < |s| ==> Less(x, s[j]) by {
        forall j | 0 < j < |s| ensures Less(x, s[j]) { LessTransitive(x, s[0], s[j]); }
      }
      [x] + s
    else
      LessTotal(x, s[0]);
      var t := Insert(s[1..], x);
      assert forall y :: y in t ==> Less(s[0], y) by {
        forall y | y in t ensures Less(s[0], y) {
          if y != x { var j :| 0 <= j < |s[1..]| && s[1..][j] == y; assert s[j + 1] == y; }
        }
      }
      [s[0]] + t
  }

  /** Each text of `xs` exactly once, ascending: the store's `distinct` with an ascending `orderBy`. */
  function AscendingDistinct(xs: seq<string>): (r: seq<string>)
    ensures StrictlyAscending(r)
    ensures forall y :: y in r <==> y in xs
  {
    if xs == [] then []
    else
      var r := Insert(AscendingDistinct(xs[..|xs| - 1]), xs[|xs| - 1]);
      assert forall y :: y in xs <==> y in xs[..|xs| - 1] || y == xs[|xs| - 1] by {
        assert xs == xs[..|xs| - 1] + [xs[|xs| - 1]];
      }
      r
  }

  /** Two strictly ascending sequences with the same elements are equal: the distinct, ordered
      list of texts does not depend on the order in which the rows were read. */
  lemma {:induction false} AscendingUnique(s: seq<string>, t: seq<string>)
    requires StrictlyAscending(s) && StrictlyAscending(t)
    requires forall y :: y in s <==> y in t
    ensures s == t
  {
    if s != [] {
      assert s[0] in s;
    }
    if t != [] {
      assert t[0] in t;
    }
    if s != [] && t != [] {
      assert s[0] in t by { assert s[0] in s; }
      assert t[0] in s by { assert t[0] in t; }
      if s[0] != t[0] {
        var j :| 0 <= j < |t| && t[j] == s[0];
        var k :| 0 <= k < |s| && s[k] == t[0];
        assert j > 0 && k > 0;
        LessTransitive(s[0], s[k], t[j]);
        LessIrreflexive(s[0]);
      }
      forall y ensures y in s[1..] <==> y in t[1..] {
        if y in s[1..] {
          var j :| 0 <= j < |s[1..]| && s[1..][j] == y;
          assert Less(s[0], s[j + 1]);
          LessIrreflexive(y);
          assert y in s && y in t;
          var k :| 0 <= k < |t| && t[k] == y;
          assert k != 0;
          assert t[1..][k - 1] == y;
        }
        if y in t[1..] {
          var j :| 0 <= j < |t[1..]| && t[1..][j] == y;
          assert Less(t[0], t[j + 1]);
          LessIrreflexive(y);
          assert y in t && y in s;
          var k :| 0 <= k < |s| && s[k] == y;
          assert k != 0;
          assert s[1..][k - 1] == y;
        }
      }
      AscendingUnique(s[1..], t[1..]);
      assert s == [s[0]] + s[1..] && t == [t[0]] + t[1..];
    }
  }
}
