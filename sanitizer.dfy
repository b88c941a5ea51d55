/** The clean-up `nl_to_sql` applies to the language model's completion
    before the text is treated as SQL: trim, delete the "```sql" fence
    opener, then every "```", then every single backtick, and trim again. */
module Sanitizer {
  import opened Text

  const Backtick: char := '`'
  const FenceOpener: string := "```sql"
  const Fence: string := "```"

  /** The cleaned statement for the raw completion `raw`. */
  function Sanitize(raw: string): (sql: string)
    ensures Backtick !in sql
    ensures Trimmed(sql)
  {
    var t0 := Strip(raw);
    var t1 := RemoveAll(t0, FenceOpener);
    var t2 := RemoveAll(t1, Fence);
    var t3 := RemoveAll(t2, [Backtick]);
    Strip(t3)
  }

  /** Text without backticks is only trimmed. */
  lemma SanitizeCleanText(raw: string)
    requires Backtick !in raw
    ensures Sanitize(raw) == Strip(raw)
  {
    var t0 := Strip(raw);
    StripDropsNoCharacter(raw, Backtick);
    assert FenceOpener[0] == Backtick && Fence[0] == Backtick;
    StripIdempotent(raw);
  }

  /** A statement without backticks and without surrounding whitespace is kept as it is. */
  lemma SanitizeKeepsClean(sql: string)
    requires Backtick !in sql && Trimmed(sql)
    ensures Sanitize(sql) == sql
  {
    SanitizeCleanText(sql);
    StripPadded([], sql, []);
    assert [] + sql + [] == sql;
  }

  /** Cleaning a cleaned statement changes nothing. */
  lemma SanitizeIdempotent(raw: string)
    ensures Sanitize(Sanitize(raw)) == Sanitize(raw)
  {
    SanitizeKeepsClean(Sanitize(raw));
  }

  /** Cleaning only deletes characters: none is added or repeated. */
  lemma SanitizeOnlyDeletes(raw: string)
    ensures multiset(Sanitize(raw)) <= multiset(raw)
  {
    var t0 := Strip(raw);
    var t1 := RemoveAll(t0, FenceOpener);
    var t2 := RemoveAll(t1, Fence);
    var t3 := RemoveAll(t2, [Backtick]);
    StripShrinks(raw);
    RemoveAllShrinks(t0, FenceOpener);
    RemoveAllShrinks(t1, Fence);
    RemoveAllShrinks(t2, [Backtick]);
    StripShrinks(t3);
  }

  /** Only whitespace and the characters of "```sql" can be deleted: every other
      character is kept as often as it occurs. */
  lemma SanitizeKeepsOthers(raw: string, d: char)
    requires d !in Whitespace && d !in FenceOpener
    ensures multiset(Sanitize(raw))[d] == multiset(raw)[d]
  {
    var t0 := Strip(raw);
    var t1 := RemoveAll(t0, FenceOpener);
    var t2 := RemoveAll(t1, Fence);
    var t3 := RemoveAll(t2, [Backtick]);
    assert Fence == FenceOpener[..3] && Backtick == FenceOpener[0];
    StripKeepsOthers(raw, d);
    RemoveAllKeepsOthers(t0, FenceOpener, d);
    RemoveAllKeepsOthers(t1, Fence, d);
    RemoveAllKeepsOthers(t2, [Backtick], d);
    StripKeepsOthers(t3, d);
  }

  lemma StripFence(inner: string, open: string)
    requires open == FenceOpener || open == Fence
    ensures Strip(open + inner + Fence) == open + inner + Fence
  {
    var raw := open + inner + Fence;
    assert raw[0] == Backtick && raw[|raw| - 1] == Backtick;
    StripPadded([], raw, []);
    assert [] + raw + [] == raw;
  }

  lemma RemoveOpener(query: string)
    requires Backtick !in query
    ensures RemoveAll(FenceOpener + query + Fence, FenceOpener) == query + Fence
  {
    var raw := FenceOpener + query + Fence;
    assert raw[..|FenceOpener|] == FenceOpener;
    assert raw[|FenceOpener|..] == query + Fence;
    RemoveAllSkips(query, Fence, FenceOpener);
  }

  lemma RemoveClosingFence(query: string)
    requires Backtick !in query
    ensures RemoveAll(query + Fence, Fence) == query
  {
    RemoveAllSkips(query, Fence, Fence);
    assert Fence[..|Fence|] == Fence && Fence[|Fence|..] == [];
    assert RemoveAll(Fence, Fence) == [];
    assert query + [] == query;
  }

  lemma FencedStages(query: string)
    requires Backtick !in query
    ensures RemoveAll(RemoveAll(RemoveAll(Strip(FenceOpener + query + Fence), FenceOpener), Fence), [Backtick]) == query
  {
    var raw := FenceOpener + query + Fence;
    var t0 := Strip(raw);
    StripFence(query, FenceOpener);
    var t1 := RemoveAll(t0, FenceOpener);
    RemoveOpener(query);
    var t2 := RemoveAll(t1, Fence);
    RemoveClosingFence(query);
  }

  /** A statement between the "```sql" opener and the closing fence comes out
      exactly, only trimmed. */
  lemma SanitizeFenced(query: string)
    requires Backtick !in query
    ensures Sanitize(FenceOpener + query + Fence) == Strip(query)
  {
    FencedStages(query);
    SanitizeStages(FenceOpener + query + Fence);
  }

  /** The four stages of `Sanitize`, one after the other. */
  lemma SanitizeStages(raw: string)
    ensures Sanitize(raw) == Strip(RemoveAll(RemoveAll(RemoveAll(Strip(raw), FenceOpener), Fence), [Backtick]))
  {
  }

  lemma RemoveBareFences(text: string)
    requires Backtick !in text
    ensures RemoveAll(Fence + text + Fence, Fence) == text
  {
    var raw := Fence + text + Fence;
    assert raw[..|Fence|] == Fence;
    assert raw[|Fence|..] == text + Fence;
    RemoveClosingFence(text);
  }

  lemma BareFenceStages(text: string)
    requires Backtick !in text
    requires |text| < 3 || text[..3] != "sql"
    ensures RemoveAll(RemoveAll(RemoveAll(Strip(Fence + text + Fence), FenceOpener), Fence), [Backtick]) == text
  {
    var raw := Fence + text + Fence;
    OpenerAbsent(text);
    RemoveAllAbsent(raw, FenceOpener);
    RemoveBareFences(text);
    StripFence(text, Fence);
  }

  /** The opener is matched case-sensitively: behind a bare fence whose text does
      not start with "sql" (an upper-case "SQL" tag, say) the text is kept whole,
      tag included. */
  lemma SanitizeBareFence(text: string)
    requires Backtick !in text
    requires |text| < 3 || text[..3] != "sql"
    ensures Sanitize(Fence + text + Fence) == Strip(text)
  {
    BareFenceStages(text);
    SanitizeStages(Fence + text + Fence);
  }

  /** With a bare fence in front, the opener can only occur if the text starts with "sql". */
  lemma OpenerAbsent(text: string)
    requires Backtick !in text
    requires |text| < 3 || text[..3] != "sql"
    ensures forall j :: 0 <= j ==> !OccursAt(Fence + text + Fence, FenceOpener, j)
  {
    var raw := Fence + text + Fence;
    forall j | 0 <= j && j + 6 <= |raw| ensures !OccursAt(raw, FenceOpener, j) {
      var w := raw[j..j + 6];
      if j == 0 && |text| >= 3 {
        assert w[3..] == text[..3];
      } else if j == 0 {
        assert w[3 + |text|] == Backtick != FenceOpener[3 + |text|];
      } else if j < 3 {
        assert w[3 - j] == text[0] != FenceOpener[3 - j];
      } else {
        assert w[0] == text[j - 3] != FenceOpener[0];
      }
    }
  }

  const SampleQuery := "SELECT id FROM trafico_amg_clean"

  lemma SampleBodyClean()
    ensures Backtick !in "\n" + SampleQuery + "\n"
  {
  }

  lemma SampleBodyStrips()
    ensures Strip("\n" + SampleQuery + "\n") == SampleQuery
  {
    StripPadded("\n", SampleQuery, "\n");
  }

  /** The completion "```sql\nSELECT id FROM trafico_amg_clean\n```", a
      fenced statement on its own line, loses its fence and the newlines. */
  lemma SanitizeFencedExample()
    ensures Sanitize(FenceOpener + ("\n" + SampleQuery + "\n") + Fence) == SampleQuery
  {
    SampleBodyClean();
    SanitizeFenced("\n" + SampleQuery + "\n");
    SampleBodyStrips();
  }
}
