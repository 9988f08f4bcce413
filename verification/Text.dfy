/** The string operations of Python that the modelled code relies on. */
module Text {

  /** The ASCII white space that `bytes.fromhex` skips. */
  predicate IsAsciiSpace(c: char) {
    c == ' ' || '\t' <= c <= '\r'
  }

  /** The white space that `str.strip` takes off: the code points for which `str.isspace` holds. */
  predicate IsSpace(c: char) {
    var n := c as int;
    || 0x09 <= n <= 0x0D || 0x1C <= n <= 0x20 || n == 0x85 || n == 0xA0 || n == 0x1680
    || 0x2000 <= n <= 0x200A || n == 0x2028 || n == 0x2029 || n == 0x202F || n == 0x205F || n == 0x3000
  }

  predicate AllSpace(s: string) {
    forall i :: 0 <= i < |s| ==> IsSpace(s[i])
  }

  function LStrip(s: string): (r: string)
    ensures r == "" || !IsSpace(r[0])
    ensures |r| <= |s|
  {
    if s != "" && IsSpace(s[0]) then LStrip(s[1..]) else s
  }

  function RStrip(s: string): (r: string)
    ensures r == "" || !IsSpace(r[|r| - 1])
    ensures r <= s
  {
    if s != "" && IsSpace(s[|s| - 1]) then RStrip(s[..|s| - 1]) else s
  }

  function Strip(s: string): (r: string)
    ensures Stripped(r)
  {
    RStrip(LStrip(s))
  }

  predicate Stripped(s: string) {
    s == "" || (!IsSpace(s[0]) && !IsSpace(s[|s| - 1]))
  }

  lemma StripKeepsStripped(s: string)
    requires Stripped(s)
    ensures Strip(s) == s
  {
  }

  lemma {:induction false} LStripExactly(s: string) returns (i: nat)
    ensures i <= |s| && AllSpace(s[..i]) && LStrip(s) == s[i..]
  {
    i := 0;
    if s != "" && IsSpace(s[0]) {
      i := LStripExactly(s[1..]);
      assert s[..i + 1] == [s[0]] + s[1..][..i];
      i := i + 1;
    }
  }

  lemma {:induction false} RStripExactly(s: string)
    ensures AllSpace(s[|RStrip(s)|..])
  {
    if s != "" && IsSpace(s[|s| - 1]) {
      var front := s[..|s| - 1];
      RStripExactly(front);
      assert s[|RStrip(s)|..] == front[|RStrip(s)|..] + [s[|s| - 1]];
    }
  }

  /** Stripping takes white space off both ends, all of it and nothing else. */
  lemma StripExactly(s: string) returns (before: string, after: string)
    ensures s == before + Strip(s) + after && AllSpace(before) && AllSpace(after) && Stripped(Strip(s))
  {
    var i := LStripExactly(s);
    RStripExactly(LStrip(s));
    before, after := s[..i], LStrip(s)[|Strip(s)|..];
    assert LStrip(s) == Strip(s) + after;
  }

  /** `s.replace(pat, "")`: left to right, without overlaps. */
  function RemoveAll(s: string, pat: string): string
    requires pat != ""
    decreases |s|
  {
    if |s| < |pat| then s
    else if pat <= s then RemoveAll(s[|pat|..], pat)
    else [s[0]] + RemoveAll(s[1..], pat)
  }

  lemma {:induction false} RemoveAllAbsent(s: string, pat: string, c: char)
    requires c in pat && c !in s
    ensures RemoveAll(s, pat) == s
  {
    if |s| >= |pat| {
      assert !(pat <= s);
      RemoveAllAbsent(s[1..], pat, c);
    }
  }

  // --- The order of `sorted` on strings: code point by code point ---

  predicate LexLeq(a: string, b: string) {
    a == "" || (b != "" && (a[0] < b[0] || (a[0] == b[0] && LexLeq(a[1..], b[1..]))))
  }

  lemma {:induction false} LexTotal(a: string, b: string)
    ensures LexLeq(a, b) || LexLeq(b, a)
  {
    if a != "" && b != "" { LexTotal(a[1..], b[1..]); }
  }

  lemma {:induction false} LexAntisymmetric(a: string, b: string)
    requires LexLeq(a, b) && LexLeq(b, a)
    ensures a == b
  {
    if a != "" && b != "" {
      LexAntisymmetric(a[1..], b[1..]);
      assert a == [a[0]] + a[1..] && b == [b[0]] + b[1..];
    }
  }

  lemma {:induction false} LexTransitive(a: string, b: string, c: string)
    requires LexLeq(a, b) && LexLeq(b, c)
    ensures LexLeq(a, c)
  {
    if a != "" && a[0] == b[0] == c[0] { LexTransitive(a[1..], b[1..], c[1..]); }
  }

  predicate StrictlySorted(xs: seq<string>) {
    forall i, j :: 0 <= i < j < |xs| ==> LexLeq(xs[i], xs[j]) && xs[i] != xs[j]
  }

  /** The least element of a finite set in the order of `sorted`. */
  method Least(s: set<string>) returns (m: string)
    requires s != {}
    ensures m in s && forall x :: x in s ==> LexLeq(m, x)
  {
    m :| m in s;
    LexTotal(m, m);
    var rest := s - {m};
    while rest != {}
      invariant rest <= s && m in s
      invariant forall x :: x in s - rest ==> LexLeq(m, x)
      decreases rest
    {
      var y :| y in rest;
      LexTotal(m, y);
      if !LexLeq(m, y) {
        forall x | x in s - rest ensures LexLeq(y, x) { LexTransitive(y, m, x); }
        m := y;
      }
      LexTotal(y, y);
      rest := rest - {y};
    }
  }

  /** `sorted(s)` of a set: strictly increasing, with exactly the elements of the set. */
  method SortedList(s: set<string>) returns (r: seq<string>)
    ensures StrictlySorted(r)
    ensures forall x :: x in r <==> x in s
  {
    r := [];
    var rest := s;
    while rest != {}
      invariant rest <= s
      invariant StrictlySorted(r)
      invariant forall x :: x in r <==> x in s && x !in rest
      invariant forall x, y :: x in r && y in rest ==> LexLeq(x, y)
      decreases rest
    {
      var m := Least(rest);
      r := r + [m];
      rest := rest - {m};
    }
  }

  /** So a sorted list is determined by its elements. */
  lemma {:induction false} SortedListUnique(a: seq<string>, b: seq<string>)
    requires StrictlySorted(a) && StrictlySorted(b)
    requires forall x :: x in a <==> x in b
    ensures a == b
  {
    HeadMember(b);
    if a != [] {
      assert a[0] in b && b[0] in a;
      HeadLeast(a, b[0]);
      HeadLeast(b, a[0]);
      LexAntisymmetric(a[0], b[0]);
      forall x ensures x in a[1..] <==> x in b[1..] {
        TailMembers(a, x);
        TailMembers(b, x);
      }
      SortedListUnique(a[1..], b[1..]);
      assert a == [a[0]] + a[1..] && b == [b[0]] + b[1..];
    }
  }

  lemma HeadMember(a: seq<string>)
    ensures a != [] ==> a[0] in a
  {
  }

  lemma HeadLeast(a: seq<string>, x: string)
    requires a != [] && StrictlySorted(a) && x in a
    ensures LexLeq(a[0], x)
  {
    LexTotal(x, x);
  }

  lemma TailMembers(a: seq<string>, x: string)
    requires a != [] && StrictlySorted(a)
    ensures x in a[1..] <==> x in a && x != a[0]
  {
  }
}
