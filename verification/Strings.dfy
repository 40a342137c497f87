/** Text helpers shared by the modules: Go's white space, trimming, and the
    byte-wise order of strings (which, on UTF-8, is the order of code points). */
module Strings {

  /** unicode.IsSpace. */
  predicate IsSpace(c: char) {
    || '\t' <= c <= '\r' || c == ' ' || c == '\U{0085}' || c == '\U{00A0}' || c == '\U{1680}'
    || '\U{2000}' <= c <= '\U{200A}' || c == '\U{2028}' || c == '\U{2029}'
    || c == '\U{202F}' || c == '\U{205F}' || c == '\U{3000}'
  }

  predicate Blank(s: string) {
    forall i :: 0 <= i < |s| ==> IsSpace(s[i])
  }

  function TrimLeft(s: string): string {
    if s != "" && IsSpace(s[0]) then TrimLeft(s[1..]) else s
  }

  function TrimRight(s: string): string {
    if s != "" && IsSpace(s[|s| - 1]) then TrimRight(s[..|s| - 1]) else s
  }

  function TrimSpace(s: string): string {
    TrimRight(TrimLeft(s))
  }

  lemma {:induction false} TrimLeftBlank(s: string)
    ensures TrimLeft(s) == "" <==> Blank(s)
  {
    if s != "" && IsSpace(s[0]) {
      TrimLeftBlank(s[1..]);
      assert s == [s[0]] + s[1..];
    }
  }

  lemma {:induction false} TrimRightBlank(s: string)
    ensures TrimRight(s) == "" <==> Blank(s)
  {
    if s != "" && IsSpace(s[|s| - 1]) {
      TrimRightBlank(s[..|s| - 1]);
      assert s == s[..|s| - 1] + [s[|s| - 1]];
    }
  }

  /** A string trims to nothing exactly when it is all white space. */
  lemma TrimSpaceBlank(s: string)
    ensures TrimSpace(s) == "" <==> Blank(s)
  {
    TrimLeftBlank(s);
    TrimRightBlank(TrimLeft(s));
    if TrimLeft(s) != "" {
      TrimLeftHead(s);
    }
  }

  lemma {:induction false} TrimLeftHead(s: string)
    requires TrimLeft(s) != ""
    ensures !IsSpace(TrimLeft(s)[0])
  {
    if IsSpace(s[0]) {
      TrimLeftHead(s[1..]);
    }
  }

  lemma {:induction false} TrimRightLast(s: string)
    requires TrimRight(s) != ""
    ensures TrimRight(s) <= s && !IsSpace(TrimRight(s)[|TrimRight(s)| - 1])
  {
    if IsSpace(s[|s| - 1]) {
      TrimRightLast(s[..|s| - 1]);
    }
  }

  lemma TrimSpaceIdempotent(s: string)
    ensures TrimSpace(TrimSpace(s)) == TrimSpace(s)
  {
    if TrimSpace(s) != "" {
      TrimRightLast(TrimLeft(s));
      TrimLeftHead(s);
      TrimSpaceFixed(TrimSpace(s));
    }
  }

  lemma TrimSpaceFixed(s: string)
    requires s != "" && !IsSpace(s[0]) && !IsSpace(s[|s| - 1])
    ensures TrimSpace(s) == s
  {
  }

  /** Strict lexicographic order. */
  predicate Less(a: string, b: string) {
    b != "" && (a == "" || a[0] < b[0] || (a[0] == b[0] && Less(a[1..], b[1..])))
  }

  predicate Leq(a: string, b: string) {
    a == b || Less(a, b)
  }

  lemma {:induction false} LessTransitive(a: string, b: string, c: string)
    requires Less(a, b) && Less(b, c)
    ensures Less(a, c)
  {
    if a != "" && a[0] == b[0] && b[0] == c[0] {
      LessTransitive(a[1..], b[1..], c[1..]);
    }
  }

  lemma {:induction false} LessTrichotomy(a: string, b: string)
    ensures a == b || Less(a, b) || Less(b, a)
    ensures !(Less(a, b) && Less(b, a)) && (a == b ==> !Less(a, b))
  {
    if a != "" && b != "" {
      LessTrichotomy(a[1..], b[1..]);
      assert a == [a[0]] + a[1..] && b == [b[0]] + b[1..];
    }
  }

  // ----- the same, said of the text ---------------------------------------------------

  /** The 25 characters of white space. */
  lemma SpacesAre(c: char)
    ensures IsSpace(c) <==> c in {
              '\t', '\n', '\U{000B}', '\U{000C}', '\r', ' ', '\U{0085}', '\U{00A0}', '\U{1680}', '\U{2000}',
              '\U{2001}', '\U{2002}', '\U{2003}', '\U{2004}', '\U{2005}', '\U{2006}', '\U{2007}', '\U{2008}',
              '\U{2009}', '\U{200A}', '\U{2028}', '\U{2029}', '\U{202F}', '\U{205F}', '\U{3000}'}
  {
  }

  lemma {:induction false} TrimLeftMeans(s: string) returns (lead: string)
    ensures s == lead + TrimLeft(s) && Blank(lead)
  {
    if s != "" && IsSpace(s[0]) {
      var rest := TrimLeftMeans(s[1..]);
      lead := [s[0]] + rest;
      assert s == [s[0]] + (rest + TrimLeft(s[1..]));
    } else {
      lead := "";
    }
  }

  lemma {:induction false} TrimRightMeans(s: string) returns (tail: string)
    ensures s == TrimRight(s) + tail && Blank(tail)
  {
    if s != "" && IsSpace(s[|s| - 1]) {
      var front := TrimRightMeans(s[..|s| - 1]);
      tail := front + [s[|s| - 1]];
      assert s == (TrimRight(s[..|s| - 1]) + front) + [s[|s| - 1]];
    } else {
      tail := "";
      assert s == s + "";
    }
  }

  /** Trimming takes white space off both ends, and all of it. */
  lemma TrimSpaceMeans(s: string) returns (lead: string, tail: string)
    ensures s == lead + TrimSpace(s) + tail && Blank(lead) && Blank(tail)
    ensures TrimSpace(s) != "" ==> !IsSpace(TrimSpace(s)[0]) && !IsSpace(TrimSpace(s)[|TrimSpace(s)| - 1])
  {
    lead := TrimLeftMeans(s);
    tail := TrimRightMeans(TrimLeft(s));
    assert s == lead + (TrimSpace(s) + tail);
    if TrimSpace(s) != "" {
      TrimRightLast(TrimLeft(s));
      TrimLeftHead(s);
    }
  }

  /** The strings agree up to k, where a ends or has the smaller character. */
  predicate FirstLess(a: string, b: string, k: nat) {
    k <= |a| && k < |b| && a[..k] == b[..k] && (k == |a| || a[k] < b[k])
  }

  /** The order is the dictionary's. */
  lemma {:induction false} LessMeans(a: string, b: string)
    ensures Less(a, b) <==> exists k: nat :: FirstLess(a, b, k)
  {
    if a == "" || b == "" {
      assert b != "" ==> FirstLess(a, b, 0);
    } else {
      LessMeans(a[1..], b[1..]);
      if a[0] < b[0] {
        assert FirstLess(a, b, 0);
      } else if a[0] == b[0] && Less(a, b) {
        var k: nat :| FirstLess(a[1..], b[1..], k);
        assert a[..k + 1] == [a[0]] + a[1..][..k] && b[..k + 1] == [b[0]] + b[1..][..k];
        assert FirstLess(a, b, k + 1);
      }
      if k: nat :| FirstLess(a, b, k) {
        if k > 0 {
          assert a[..k][0] == a[0] && b[..k][0] == b[0];
          assert a[1..][..k - 1] == a[..k][1..] && b[1..][..k - 1] == b[..k][1..];
          assert FirstLess(a[1..], b[1..], k - 1);
        }
      }
    }
  }
}
