/** The row-limit guard of `run_sql`: a statement that does not mention
    "limit" in any letter case loses its trailing spaces and semicolons and
    gets " LIMIT <n>;" appended. */
module LimitGuard {
  import opened Text

  /** The default of `run_sql`'s `default_limit` parameter. */
  const DefaultLimit: int := 20
  const Keyword: string := "limit"
  /** The characters `query.rstrip(" ;")` removes. */
  const TrailingJunk: set<char> := {' ', ';'}

  predicate IsDigit(c: char) {
    '0' <= c <= '9'
  }

  predicate AllDigits(s: string) {
    forall i :: 0 <= i < |s| ==> IsDigit(s[i])
  }

  function DigitChar(d: nat): (c: char)
    requires d < 10
    ensures IsDigit(c)
  {
    ('0' as int + d) as char
  }

  /** The decimal digits of `n`, without leading zeros. */
  function Digits(n: nat): (s: string)
    ensures |s| > 0 && AllDigits(s)
    ensures s[0] == '0' ==> s == "0"
    decreases n
  {
    if n < 10 then [DigitChar(n)] else Digits(n / 10) + [DigitChar(n % 10)]
  }

  /** The number a string of decimal digits denotes. */
  function DigitsValue(s: string): nat
    requires AllDigits(s)
  {
    if s == [] then 0 else DigitsValue(s[..|s| - 1]) * 10 + (s[|s| - 1] as int - '0' as int)
  }

  lemma {:induction false} DigitsRoundTrip(n: nat)
    ensures DigitsValue(Digits(n)) == n
    decreases n
  {
    if n >= 10 {
      var s := Digits(n);
      assert s[..|s| - 1] == Digits(n / 10);
      DigitsRoundTrip(n / 10);
    }
  }

  /** Python's `f"{n}"` for an `int`: a minus sign for negative numbers, then the digits. */
  function Decimal(n: int): (s: string)
    ensures |s| > 0
    ensures forall i :: 0 <= i < |s| ==> s[i] == '-' || IsDigit(s[i])
    ensures (s[0] == '-') == (n < 0)
  {
    if n < 0 then "-" + Digits(-n) else Digits(n)
  }

  /** Reads back what `Decimal` writes. */
  function DecimalValue(s: string): int
    requires |s| > 0
    requires if s[0] == '-' then AllDigits(s[1..]) else AllDigits(s)
  {
    if s[0] == '-' then -(DigitsValue(s[1..]) as int) else DigitsValue(s)
  }

  lemma DecimalRoundTrip(n: int)
    ensures var s := Decimal(n);
      (if s[0] == '-' then AllDigits(s[1..]) else AllDigits(s)) && DecimalValue(s) == n
  {
    if n < 0 {
      assert Decimal(n)[1..] == Digits(-n);
      DigitsRoundTrip(-n);
    } else {
      DigitsRoundTrip(n);
    }
  }

  /** The clause appended to a statement without a limit. */
  function LimitClause(limit: int): string {
    " LIMIT " + Decimal(limit) + ";"
  }

  /** `"limit" in query.lower()`. */
  predicate MentionsLimit(query: string) {
    Contains(Lower(query), Keyword)
  }

  /** The statement `run_sql` executes, and reports as executed, for `query`. */
  function Guard(query: string, limit: int): string {
    if MentionsLimit(query) then query
    else TrimEnd(query, TrailingJunk) + LimitClause(limit)
  }

  /** `k` is where `query.rstrip(" ;")` cuts `query`. */
  predicate CutAt(query: string, k: int) {
    0 <= k <= |query| && AllIn(query[k..], TrailingJunk)
    && (k == 0 || query[k - 1] !in TrailingJunk)
  }

  /** A statement that already mentions a limit is executed as it is. */
  lemma GuardKeepsLimited(query: string, limit: int)
    requires MentionsLimit(query)
    ensures Guard(query, limit) == query
  {
  }

  /** A statement without one keeps all but its trailing spaces and semicolons,
      and ends with exactly one clause that names `limit`. */
  lemma GuardAppendsClause(query: string, limit: int)
    requires !MentionsLimit(query)
    ensures exists k :: CutAt(query, k) && Guard(query, limit) == query[..k] + LimitClause(limit)
  {
    var kept := TrimEnd(query, TrailingJunk);
    assert CutAt(query, |kept|);
  }

  lemma LowerDecimal(n: int)
    ensures Lower(Decimal(n)) == Decimal(n)
  {
  }

  lemma LowerClause(limit: int)
    ensures Lower(LimitClause(limit)) == " limit " + Decimal(limit) + ";"
  {
    LowerAppend(" LIMIT " + Decimal(limit), ";");
    LowerAppend(" LIMIT ", Decimal(limit));
    LowerDecimal(limit);
  }

  /** "limit" occurs in `p + s` only one character into `s`, when it occurs
      nowhere in `p` followed by anything else and `s` is " limit..." with no
      further "l". */
  lemma OnlyClauseOccurrence(p: string, s: string, rest: string)
    requires !Contains(p + rest, Keyword)
    requires |s| >= 6 && s[0] == ' ' && s[1..6] == Keyword && 'l' !in s[2..]
    ensures forall j :: 0 <= j ==> (OccursAt(p + s, Keyword, j) <==> j == |p| + 1)
  {
    forall j | 0 <= j ensures OccursAt(p + s, Keyword, j) <==> j == |p| + 1 {
      if j + 5 <= |p| {
        OccursInLeft(p, s, Keyword, j);
        OccursInLeft(p, rest, Keyword, j);
      } else if j <= |p| {
        if j + 5 <= |p + s| {
          assert (p + s)[j..j + 5][|p| - j] == s[0];
        }
      } else {
        OccursInRight(p, s, Keyword, j);
        if j >= |p| + 2 && j + 5 <= |p + s| {
          assert s[j - |p|] == s[2..][j - |p| - 2];
          assert s[j - |p|..j - |p| + 5][0] == s[j - |p|];
        }
      }
    }
  }

  /** The folded clause is " limit", then no further "l". */
  lemma FoldedClauseShape(limit: int)
    ensures var s := Lower(LimitClause(limit));
      |s| >= 6 && s[0] == ' ' && s[1..6] == Keyword && 'l' !in s[2..]
  {
    LowerClause(limit);
    var s := Lower(LimitClause(limit));
    assert s[1..6] == Keyword;
    assert s[2..] == "imit " + Decimal(limit) + ";";
  }

  /** Folding the guarded statement folds its two parts. */
  lemma FoldedGuard(query: string, limit: int)
    requires !MentionsLimit(query)
    ensures var kept := TrimEnd(query, TrailingJunk);
      Lower(Guard(query, limit)) == Lower(kept) + Lower(LimitClause(limit))
      && !Contains(Lower(kept) + Lower(query[|kept|..]), Keyword)
  {
    var kept := TrimEnd(query, TrailingJunk);
    var tail := query[|kept|..];
    assert query == kept + tail;
    LowerAppend(kept, tail);
    LowerAppend(kept, LimitClause(limit));
  }

  /** In the lower-cased guarded statement, "limit" occurs exactly once: at the
      appended clause. */
  lemma GuardSingleLimit(query: string, limit: int)
    requires !MentionsLimit(query)
    ensures var r := Guard(query, limit); var k := |r| - |LimitClause(limit)|;
      forall j :: 0 <= j ==> (OccursAt(Lower(r), Keyword, j) <==> j == k + 1)
  {
    var kept := TrimEnd(query, TrailingJunk);
    FoldedGuard(query, limit);
    FoldedClauseShape(limit);
    OnlyClauseOccurrence(Lower(kept), Lower(LimitClause(limit)), Lower(query[|kept|..]));
  }

  /** Whatever the guard returns mentions a limit. */
  lemma GuardMentionsLimit(query: string, limit: int)
    ensures MentionsLimit(Guard(query, limit))
  {
    if !MentionsLimit(query) {
      GuardSingleLimit(query, limit);
      var r := Guard(query, limit);
      ContainsWitness(Lower(r), Keyword, |r| - |LimitClause(limit)| + 1);
    }
  }

  /** Guarding twice is guarding once. */
  lemma GuardIdempotent(query: string, limit: int)
    ensures Guard(Guard(query, limit), limit) == Guard(query, limit)
  {
    GuardMentionsLimit(query, limit);
  }

  /** A statement without a limit, as a model might write it. */
  const SampleStatement: string := "SELECT * FROM trafico_amg_clean"

  /** In the folded sample statement no "l" is followed by an "i". */
  lemma SampleHasNoLi()
    ensures forall j :: 0 <= j < |SampleStatement| - 1 ==>
      !(Lower(SampleStatement)[j] == 'l' && Lower(SampleStatement)[j + 1] == 'i')
  {
  }

  lemma SampleHasNoLimit()
    ensures !MentionsLimit(SampleStatement)
  {
    SampleHasNoLi();
    NoPairNoOccurrence(Lower(SampleStatement), Keyword);
  }

  /** The sample statement has no trailing space or semicolon to drop. */
  lemma SampleKeptWhole()
    ensures TrimEnd(SampleStatement, TrailingJunk) == SampleStatement
  {
    assert SampleStatement[|SampleStatement| - 1] == 'n';
  }

  lemma DefaultClause()
    ensures LimitClause(DefaultLimit) == " LIMIT 20;"
  {
    assert Digits(20) == "20";
  }

  /** With the default limit, the bare sample statement gets " LIMIT 20;". */
  lemma GuardDefaultExample()
    ensures Guard(SampleStatement, DefaultLimit) == SampleStatement + " LIMIT 20;"
  {
    SampleHasNoLimit();
    SampleKeptWhole();
    DefaultClause();
  }
}
