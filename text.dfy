/** String rules the assistant relies on: Python's whitespace set and the
    `strip` family, ASCII case folding, substring search and deletion of a
    substring (`str.replace(p, "")`). */
module Text {

  /** The characters Python's `str.strip()` removes when given no argument
      (exactly those for which `str.isspace()` holds). */
  const Whitespace: set<char> := {
    ' ', '\t', '\n', '\U{B}', '\U{C}', '\r',
    '\U{1C}', '\U{1D}', '\U{1E}', '\U{1F}', '\U{85}', '\U{A0}', '\U{1680}',
    '\U{2000}', '\U{2001}', '\U{2002}', '\U{2003}', '\U{2004}', '\U{2005}',
    '\U{2006}', '\U{2007}', '\U{2008}', '\U{2009}', '\U{200A}',
    '\U{2028}', '\U{2029}', '\U{202F}', '\U{205F}', '\U{3000}'
  }

  predicate IsSpace(c: char) {
    c in Whitespace
  }

  /** Every character of `s` is one of `cs`. */
  predicate AllIn(s: string, cs: set<char>) {
    forall i :: 0 <= i < |s| ==> s[i] in cs
  }

  /** Neither end of `s` is whitespace. */
  predicate Trimmed(s: string) {
    s == [] || (!IsSpace(s[0]) && !IsSpace(s[|s| - 1]))
  }

  /** The number of leading characters of `s` that belong to `cs`. */
  function LeadingCount(s: string, cs: set<char>): (n: nat)
    ensures n <= |s|
    ensures AllIn(s[..n], cs)
    ensures n == |s| || s[n] !in cs
    decreases |s|
  {
    if |s| > 0 && s[0] in cs then 1 + LeadingCount(s[1..], cs) else 0
  }

  /** Python's `s.lstrip(cs)`: drops the longest prefix made of characters of `cs`. */
  function TrimStart(s: string, cs: set<char>): (r: string)
    ensures r == [] || r[0] !in cs
  {
    s[LeadingCount(s, cs)..]
  }

  /** Python's `s.rstrip(cs)`: drops the longest suffix made of characters of `cs`. */
  function TrimEnd(s: string, cs: set<char>): (r: string)
    ensures |r| <= |s| && r == s[..|r|]
    ensures AllIn(s[|r|..], cs)
    ensures r == [] || r[|r| - 1] !in cs
    decreases |s|
  {
    if |s| > 0 && s[|s| - 1] in cs then TrimEnd(s[..|s| - 1], cs) else s
  }

  /** `r` is `s` with `s[..i]` and everything after `r` being whitespace. */
  ghost predicate PaddedAt(s: string, r: string, i: int) {
    0 <= i <= |s| - |r| && r == s[i..i + |r|]
    && AllIn(s[..i], Whitespace) && AllIn(s[i + |r|..], Whitespace)
  }

  /** Python's `s.strip()`: `s` minus its leading and trailing whitespace. */
  function Strip(s: string): (r: string)
    ensures exists i :: PaddedAt(s, r, i)
    ensures Trimmed(r)
  {
    var t := TrimStart(s, Whitespace);
    var r := TrimEnd(t, Whitespace);
    var i := |s| - |t|;
    assert s[i..i + |r|] == r;
    assert s[i + |r|..] == t[|r|..];
    assert PaddedAt(s, r, i);
    r
  }

  lemma {:induction false} TrimStartSkips(a: string, rest: string, cs: set<char>)
    requires AllIn(a, cs)
    ensures TrimStart(a + rest, cs) == TrimStart(rest, cs)
    decreases |a|
  {
    if a != [] {
      var s := a + rest;
      assert s[0] in cs;
      assert s[1..] == a[1..] + rest;
      TrimStartSkips(a[1..], rest, cs);
    } else {
      assert a + rest == rest;
    }
  }

  lemma {:induction false} TrimEndSkips(rest: string, c: string, cs: set<char>)
    requires AllIn(c, cs)
    ensures TrimEnd(rest + c, cs) == TrimEnd(rest, cs)
    decreases |c|
  {
    if c != [] {
      assert (rest + c)[..|rest + c| - 1] == rest + c[..|c| - 1];
      TrimEndSkips(rest, c[..|c| - 1], cs);
    } else {
      assert rest + c == rest;
    }
  }

  /** Stripping undoes exactly the whitespace padding put around a trimmed string. */
  lemma StripPadded(a: string, b: string, c: string)
    requires AllIn(a, Whitespace) && AllIn(c, Whitespace) && Trimmed(b)
    ensures Strip(a + b + c) == b
  {
    TrimStartSkips(a, b + c, Whitespace);
    assert a + b + c == a + (b + c);
    if b == [] {
      assert b + c == c && c + [] == c;
      TrimStartSkips(c, [], Whitespace);
    } else {
      TrimEndSkips(b, c, Whitespace);
    }
  }

  /** A string strips to nothing exactly when it is all whitespace. */
  lemma StripEmptyIff(s: string)
    ensures Strip(s) == [] <==> AllIn(s, Whitespace)
  {
    if Strip(s) == [] {
      var i :| PaddedAt(s, [], i);
      assert s == s[..i] + s[i..];
    }
    if AllIn(s, Whitespace) {
      StripPadded(s, [], []);
      assert s + [] + [] == s;
    }
  }

  lemma StripIdempotent(s: string)
    ensures Strip(Strip(s)) == Strip(s)
  {
    var r := Strip(s);
    StripPadded([], r, []);
    assert [] + r + [] == r;
  }

  /** Stripping only removes characters, so it cannot introduce one. */
  lemma StripDropsNoCharacter(s: string, c: char)
    requires c !in s
    ensures c !in Strip(s)
  {
    var r := Strip(s);
    var i :| PaddedAt(s, r, i);
    forall k | 0 <= k < |r| ensures r[k] != c {
      assert r[k] == s[i + k];
    }
  }

  /** The middle piece of a string holds no character more often than the string. */
  lemma PieceShrinks(a: string, r: string, b: string)
    ensures multiset(r) <= multiset(a + r + b)
    ensures forall d :: d !in a && d !in b ==> multiset(r)[d] == multiset(a + r + b)[d]
  {
    assert multiset(a + r + b) == multiset(a) + multiset(r) + multiset(b);
  }

  /** `t` is what `TrimEnd` keeps, followed by the part it removed. */
  lemma TrimEndPiece(t: string, cs: set<char>) returns (b: string)
    ensures t == TrimEnd(t, cs) + b && AllIn(b, cs)
  {
    var r := TrimEnd(t, cs);
    b := t[|r|..];
    assert t == t[..|r|] + b;
  }

  /** `s` is the part `TrimStart` removed, followed by what it keeps. */
  lemma TrimStartPiece(s: string, cs: set<char>) returns (a: string)
    ensures s == a + TrimStart(s, cs) && AllIn(a, cs)
  {
    var n := LeadingCount(s, cs);
    a := s[..n];
    assert s == a + s[n..];
  }

  /** `s` is what trimming both ends by `cs` keeps, with the parts it removed around it. */
  lemma TrimPieces(s: string, cs: set<char>) returns (a: string, b: string)
    ensures s == a + TrimEnd(TrimStart(s, cs), cs) + b
    ensures AllIn(a, cs) && AllIn(b, cs)
  {
    a := TrimStartPiece(s, cs);
    b := TrimEndPiece(TrimStart(s, cs), cs);
  }

  /** `s` is what `Strip` keeps, with the padding it removed around it. */
  lemma StripPieces(s: string) returns (a: string, b: string)
    ensures s == a + Strip(s) + b
    ensures AllIn(a, Whitespace) && AllIn(b, Whitespace)
  {
    a, b := TrimPieces(s, Whitespace);
  }

  /** Stripping only takes characters away. */
  lemma StripShrinks(s: string)
    ensures multiset(Strip(s)) <= multiset(s)
  {
    var a, b := StripPieces(s);
    PieceShrinks(a, Strip(s), b);
  }

  /** Stripping keeps every character that is not whitespace, as often as it occurred. */
  lemma StripKeepsOthers(s: string, d: char)
    requires d !in Whitespace
    ensures multiset(Strip(s))[d] == multiset(s)[d]
  {
    var a, b := StripPieces(s);
    PieceShrinks(a, Strip(s), b);
    assert d !in a && d !in b;
  }

  /** ASCII case folding: `A`..`Z` become `a`..`z`, everything else is kept. */
  function LowerChar(c: char): char {
    if 'A' <= c <= 'Z' then (c as int + 32) as char else c
  }

  function Lower(s: string): string {
    seq(|s|, i requires 0 <= i < |s| => LowerChar(s[i]))
  }

  lemma LowerAppend(a: string, b: string)
    ensures Lower(a + b) == Lower(a) + Lower(b)
  {
  }

  /** Folding case neither creates nor removes whitespace. */
  lemma LowerCharSpace(c: char)
    ensures IsSpace(LowerChar(c)) <==> IsSpace(c)
  {
  }

  lemma LowerTrimmed(s: string)
    ensures Trimmed(Lower(s)) <==> Trimmed(s)
  {
    if s != [] {
      LowerCharSpace(s[0]);
      LowerCharSpace(s[|s| - 1]);
    }
  }

  lemma {:induction false} LowerTrimStart(s: string)
    ensures TrimStart(Lower(s), Whitespace) == Lower(TrimStart(s, Whitespace))
    decreases |s|
  {
    if s != [] {
      LowerCharSpace(s[0]);
      assert Lower(s)[1..] == Lower(s[1..]);
      LowerTrimStart(s[1..]);
    }
  }

  lemma {:induction false} LowerTrimEnd(s: string)
    ensures TrimEnd(Lower(s), Whitespace) == Lower(TrimEnd(s, Whitespace))
    decreases |s|
  {
    if s != [] {
      LowerCharSpace(s[|s| - 1]);
      assert Lower(s)[..|s| - 1] == Lower(s[..|s| - 1]);
      LowerTrimEnd(s[..|s| - 1]);
    }
  }

  /** Folding case and stripping commute, so `s.lower().strip()` is `s.strip().lower()`. */
  lemma LowerStrip(s: string)
    ensures Strip(Lower(s)) == Lower(Strip(s))
  {
    LowerTrimStart(s);
    LowerTrimEnd(TrimStart(s, Whitespace));
  }

  /** Where the stripped text of `s` starts; folding that stretch gives the
      stripped folded text. */
  lemma StripLowerAt(s: string) returns (i: int)
    ensures PaddedAt(s, Strip(s), i)
    ensures Lower(s[i..i + |Strip(s)|]) == Strip(Lower(s))
  {
    i :| PaddedAt(s, Strip(s), i);
    LowerStrip(s);
  }

  /** `p` occurs in `s` starting at index `i`. */
  predicate OccursAt(s: string, p: string, i: int) {
    0 <= i && i + |p| <= |s| && s[i..i + |p|] == p
  }

  /** The first index where `p` occurs in `s`, or -1: how `p in s` is decided. */
  function Find(s: string, p: string): (i: int)
    ensures i == -1 || OccursAt(s, p, i)
    ensures forall j :: 0 <= j && (i == -1 || j < i) ==> !OccursAt(s, p, j)
    decreases |s|
  {
    if |s| < |p| then -1
    else if s[..|p|] == p then 0
    else
      var k := Find(s[1..], p);
      OccursShift(s, p);
      if k == -1 then -1 else k + 1
  }

  /** Occurrences in `s[1..]` are those in `s`, one position earlier. */
  lemma OccursShift(s: string, p: string)
    requires |s| > 0
    ensures forall j :: 1 <= j ==> (OccursAt(s, p, j) <==> OccursAt(s[1..], p, j - 1))
  {
    forall j | 1 <= j ensures OccursAt(s, p, j) <==> OccursAt(s[1..], p, j - 1) {
      if j + |p| <= |s| {
        assert s[1..][j - 1..j - 1 + |p|] == s[j..j + |p|];
      }
    }
  }

  /** `Find` returns the first occurrence. */
  lemma FindFirst(s: string, p: string, i: int)
    requires OccursAt(s, p, i)
    requires forall j :: 0 <= j < i ==> !OccursAt(s, p, j)
    ensures Find(s, p) == i
  {
  }

  /** Python's `p in s`. */
  predicate Contains(s: string, p: string) {
    Find(s, p) >= 0
  }

  lemma ContainsWitness(s: string, p: string, i: int)
    requires OccursAt(s, p, i)
    ensures Contains(s, p)
  {
  }

  /** Python's `s.replace(p, "")`: every occurrence of `p`, found left to right
      without overlap, is deleted. */
  function RemoveAll(s: string, p: string): (r: string)
    requires |p| > 0
    ensures p[0] !in s ==> r == s
    ensures |p| == 1 ==> p[0] !in r
    decreases |s|
  {
    if |s| < |p| then
      s
    else if s[..|p|] == p then
      RemoveAll(s[|p|..], p)
    else
      assert s == [s[0]] + s[1..];
      [s[0]] + RemoveAll(s[1..], p)
  }

  /** Deletion only takes characters away. */
  lemma {:induction false} RemoveAllShrinks(s: string, p: string)
    requires |p| > 0
    ensures multiset(RemoveAll(s, p)) <= multiset(s)
    decreases |s|
  {
    if |s| >= |p| {
      if s[..|p|] == p {
        assert s == s[..|p|] + s[|p|..];
        RemoveAllShrinks(s[|p|..], p);
      } else {
        assert s == [s[0]] + s[1..];
        RemoveAllShrinks(s[1..], p);
      }
    }
  }

  /** Deletion keeps every character that is not part of the pattern, as often
      as it occurred. */
  lemma {:induction false} RemoveAllKeepsOthers(s: string, p: string, d: char)
    requires |p| > 0 && d !in p
    ensures multiset(RemoveAll(s, p))[d] == multiset(s)[d]
    decreases |s|
  {
    if |s| >= |p| {
      if s[..|p|] == p {
        assert s == p + s[|p|..];
        assert multiset(p)[d] == 0;
        RemoveAllKeepsOthers(s[|p|..], p, d);
      } else {
        assert s == [s[0]] + s[1..];
        RemoveAllKeepsOthers(s[1..], p, d);
      }
    }
  }

  /** A character that cannot start an occurrence is kept. */
  lemma RemoveAllKeepsHead(c: char, b: string, p: string)
    requires |p| > 0 && c != p[0]
    ensures RemoveAll([c] + b, p) == [c] + RemoveAll(b, p)
  {
    var s := [c] + b;
    assert s[1..] == b;
    if |s| >= |p| {
      assert s[..|p|][0] == c;
    }
  }

  /** Deletion passes over a stretch that cannot start an occurrence. */
  lemma {:induction false} RemoveAllSkips(a: string, b: string, p: string)
    requires |p| > 0 && p[0] !in a
    ensures RemoveAll(a + b, p) == a + RemoveAll(b, p)
    decreases |a|
  {
    if a == [] {
      assert a + b == b;
    } else {
      assert a + b == [a[0]] + (a[1..] + b);
      RemoveAllKeepsHead(a[0], a[1..] + b, p);
      RemoveAllSkips(a[1..], b, p);
      assert a == [a[0]] + a[1..];
    }
  }

  /** Deletion leaves a string in which `p` never occurs unchanged. */
  lemma {:induction false} RemoveAllAbsent(s: string, p: string)
    requires |p| > 0
    requires forall j :: 0 <= j ==> !OccursAt(s, p, j)
    ensures RemoveAll(s, p) == s
    decreases |s|
  {
    if |s| >= |p| {
      assert !OccursAt(s, p, 0);
      forall j | 0 <= j ensures !OccursAt(s[1..], p, j) {
        if OccursAt(s[1..], p, j) {
          assert s[1..][j..j + |p|] == s[j + 1..j + 1 + |p|];
          assert OccursAt(s, p, j + 1);
        }
      }
      RemoveAllAbsent(s[1..], p);
      assert s == [s[0]] + s[1..];
    }
  }

  /** An occurrence inside the left part of a concatenation. */
  lemma OccursInLeft(a: string, b: string, p: string, j: int)
    requires 0 <= j && j + |p| <= |a|
    ensures OccursAt(a + b, p, j) <==> OccursAt(a, p, j)
  {
    assert (a + b)[j..j + |p|] == a[j..j + |p|];
  }

  /** An occurrence inside the right part of a concatenation. */
  lemma OccursInRight(a: string, b: string, p: string, j: int)
    requires |a| <= j
    ensures OccursAt(a + b, p, j) <==> OccursAt(b, p, j - |a|)
  {
    if j + |p| <= |a + b| {
      assert (a + b)[j..j + |p|] == b[j - |a|..j - |a| + |p|];
    }
  }

  /** A pattern whose first two characters never appear side by side in `s`
      does not occur in `s`. */
  lemma NoPairNoOccurrence(s: string, p: string)
    requires |p| >= 2
    requires forall j :: 0 <= j < |s| - 1 ==> !(s[j] == p[0] && s[j + 1] == p[1])
    ensures !Contains(s, p)
  {
    forall j | 0 <= j ensures !OccursAt(s, p, j) {
      if j + |p| <= |s| {
        assert s[j..j + |p|][0] == s[j] && s[j..j + |p|][1] == s[j + 1];
      }
    }
  }
}
