/**
 * Character-level helpers: ASCII lower-casing (how Node keys header names
 * and how the proxy compares the request method) and the comma join that
 * JavaScript's `Array.prototype.join(',')` performs, with its inverse.
 */
module Strings {

  /** Lower-cases one ASCII letter; every other character is kept. */
  function LowerChar(c: char): char
  {
    if 'A' <= c <= 'Z' then (c as int + 32) as char else c
  }

  /** `s` holds no upper-case ASCII letter. */
  predicate IsLower(s: string)
  {
    forall i :: 0 <= i < |s| ==> !('A' <= s[i] <= 'Z')
  }

  /** `String.prototype.toLowerCase` restricted to ASCII. */
  function Lower(s: string): (r: string)
    ensures IsLower(r)
  {
    seq(|s|, i requires 0 <= i < |s| => LowerChar(s[i]))
  }

  /** Two strings are equal up to ASCII case, compared character by character. */
  predicate SameIgnoringCase(a: string, b: string)
  {
    |a| == |b| && forall i :: 0 <= i < |a| ==> LowerChar(a[i]) == LowerChar(b[i])
  }

  /** Comparing the lower-cased forms is exactly the case-insensitive comparison. */
  lemma LowerEqualIff(a: string, b: string)
    ensures Lower(a) == Lower(b) <==> SameIgnoringCase(a, b)
  {
    if Lower(a) == Lower(b) {
      assert |a| == |Lower(a)| == |Lower(b)| == |b|;
      forall i | 0 <= i < |a| ensures LowerChar(a[i]) == LowerChar(b[i]) {
        assert Lower(a)[i] == Lower(b)[i];
      }
    }
    if SameIgnoringCase(a, b) {
      assert forall i :: 0 <= i < |a| ==> Lower(a)[i] == Lower(b)[i];
    }
  }

  /** `parts.join(',')`: the parts in order, with one comma between neighbours. */
  function JoinComma(parts: seq<string>): (r: string)
    ensures |parts| == 1 ==> r == parts[0]
  {
    if |parts| == 0 then ""
    else if |parts| == 1 then parts[0]
    else parts[0] + "," + JoinComma(parts[1..])
  }

  /** Splits at every comma; the inverse of `JoinComma` on comma-free parts. */
  function SplitComma(s: string): (r: seq<string>)
    ensures |r| >= 1
  {
    if s == [] then [""]
    else if s[0] == ',' then [""] + SplitComma(s[1..])
    else
      var rest := SplitComma(s[1..]);
      [[s[0]] + rest[0]] + rest[1..]
  }

  /** The joined string is empty exactly when there is nothing to join or a single empty part. */
  lemma JoinEmptyIff(parts: seq<string>)
    ensures JoinComma(parts) == "" <==> (parts == [] || parts == [""])
  {
  }

  /** Joining a concatenation of two non-empty lists puts one comma between the two joins. */
  lemma {:induction false} JoinAppend(a: seq<string>, b: seq<string>)
    requires a != [] && b != []
    ensures JoinComma(a + b) == JoinComma(a) + "," + JoinComma(b)
  {
    if |a| == 1 {
      assert (a + b)[1..] == b;
    } else {
      assert (a + b)[1..] == a[1..] + b;
      JoinAppend(a[1..], b);
    }
  }

  /** A comma-free string splits into itself. */
  lemma {:induction false} SplitCommaFree(p: string)
    requires ',' !in p
    ensures SplitComma(p) == [p]
  {
    if p != [] {
      SplitCommaFree(p[1..]);
      assert [p[0]] + p[1..] == p;
    }
  }

  /** Splitting `p + "," + s` for a comma-free `p` yields `p` followed by the parts of `s`. */
  lemma {:induction false} SplitAfterPart(p: string, s: string)
    requires ',' !in p
    ensures SplitComma(p + "," + s) == [p] + SplitComma(s)
  {
    if p == [] {
      assert p + "," + s == [','] + s;
      assert (p + "," + s)[1..] == s;
    } else {
      assert (p + "," + s)[1..] == p[1..] + "," + s;
      SplitAfterPart(p[1..], s);
      assert [p[0]] + p[1..] == p;
    }
  }

  /** Round trip: splitting the comma join of non-empty, comma-free parts gives the parts back. */
  lemma {:induction false} SplitJoin(parts: seq<string>)
    requires parts != []
    requires forall i :: 0 <= i < |parts| ==> ',' !in parts[i]
    ensures SplitComma(JoinComma(parts)) == parts
  {
    if |parts| == 1 {
      SplitCommaFree(parts[0]);
    } else {
      SplitJoin(parts[1..]);
      SplitAfterPart(parts[0], JoinComma(parts[1..]));
      assert [parts[0]] + parts[1..] == parts;
    }
  }
}
