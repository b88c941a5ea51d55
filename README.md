# Traffic question assistant (agent_trafico.py), modelled in Dafny

`agent_trafico.py` is a command-line assistant for the `trafico_amg_clean`
table of a PostgreSQL database. It hands each question to a language model,
cleans the SQL text the model returns (`nl_to_sql`), executes it with a row
limit guard (`run_sql`), and prints the result set (`ask`). A read loop sends
each input line to one of three places: it ends the session, it skips a
blank line, or it asks the line as a question.

The model keeps the parts of that program that are decided by the code
itself and leaves out the ones decided by outside services:

- `text.dfy` (module `Text`) holds the Python string operations the program
  relies on:
  - `str.strip()` over Python's whitespace set;
  - `str.rstrip(chars)`;
  - ASCII `str.lower()`;
  - `p in s`, defined through a search for the first occurrence;
  - `s.replace(p, "")`.
- `sanitizer.dfy` (module `Sanitizer`) is the clean-up in `nl_to_sql`:
  - strip;
  - delete "```sql", then "```", then "`";
  - strip again.
- `limit_guard.dfy` (module `LimitGuard`) is the guard in `run_sql`. When
  "limit" does not occur in the lower-cased statement, it drops trailing
  spaces and semicolons and appends ` LIMIT <n>;`. The default `n` is 20.
- `executor.dfy` (module `Executor`) is `run_sql` itself:
  - a `Connection` class records the statements sent and whether it is
    still open;
  - the database's reply is a parameter;
  - the connection is closed on every path.
- `result_printer.dfy` (module `ResultPrinter`) is how `ask` prints a result
  set. Printing is modelled as the sequence of strings handed to `print`, one
  element per call.
- `assistant.dfy` (module `Assistant`) is `ask`. The model's completion and
  the database's reply are its inputs, and it returns a report of what
  `ask` shows.
- `cli.dfy` (module `Cli`) holds two things:
  - the line classifier: the exit words first, then blank lines, then
    questions;
  - the `while True` loop over the input lines, which stops at the first
    exit line.

## Model

| member | source | states |
|---|---|---|
| Text.Strip | agent_trafico.py:90 | `strip()` takes off only a whitespace prefix and a whitespace suffix, and leaves neither end as whitespace |
| Text.StripPadded | agent_trafico.py:96 | stripping a trimmed string padded by any whitespace gives back exactly that string |
| Text.StripEmptyIff | agent_trafico.py:165 | `s.strip() == ""` holds exactly when every character of `s` is whitespace |
| Text.StripIdempotent | agent_trafico.py:96 | stripping twice is stripping once |
| Text.TrimStart | agent_trafico.py:90 | `lstrip(cs)`: what remains does not start with a character of `cs`; `Text.LeadingCount` states that the part dropped is the longest prefix made of `cs` |
| Text.LeadingCount | agent_trafico.py:90 | the length of the longest prefix made of `cs`: that prefix is all `cs`, and the next character, if any, is not |
| Text.StripShrinks | agent_trafico.py:90 | stripping only takes characters away, as a multiset |
| Text.StripKeepsOthers | agent_trafico.py:90 | stripping keeps every non-whitespace character as often as it occurred |
| Text.StripDropsNoCharacter | agent_trafico.py:96 | stripping cannot bring in a character that was absent |
| Text.LowerStrip | agent_trafico.py:161 | `s.lower().strip()` equals `s.strip().lower()` |
| Text.StripLowerAt | agent_trafico.py:161 | the stripped folded line is the fold of a whitespace-padded stretch of the line |
| Text.LowerTrimmed | agent_trafico.py:161 | case folding keeps a string trimmed or untrimmed |
| Text.Lower | agent_trafico.py:111 | no contract of its own: ASCII `lower()`, folding each character with `LowerChar`; `Text.LowerAppend`, `Text.LowerStrip` and `Text.LowerTrimmed` state how it meets concatenation and stripping |
| Text.Contains | agent_trafico.py:111 | no contract of its own: `p in s`, true exactly when `Text.Find` finds an occurrence; `Text.Find` and `Text.ContainsWitness` give both directions |
| Text.ContainsWitness | agent_trafico.py:111 | any occurrence of the pattern makes `p in s` true |
| Text.Find | agent_trafico.py:111 | the result is -1 or an index where the pattern occurs, and no occurrence comes before it |
| Text.FindFirst | agent_trafico.py:111 | an occurrence with no earlier one is what the search returns |
| Text.TrimEnd | agent_trafico.py:112 | `rstrip(cs)` keeps a prefix; the part it removes is made of `cs`, and what remains does not end in `cs` |
| Text.RemoveAll | agent_trafico.py:93-95 | `replace(p, "")` changes no string in which `p`'s first character is absent; with a one-character `p`, that character is gone from the result |
| Text.RemoveAllShrinks | agent_trafico.py:93-95 | deletion only removes characters, as a multiset |
| Text.RemoveAllKeepsOthers | agent_trafico.py:93-95 | deletion keeps every character that is not in the pattern, as often as it occurred |
| Text.RemoveAllSkips | agent_trafico.py:93-95 | deletion passes without change over a stretch that cannot start an occurrence |
| Text.RemoveAllAbsent | agent_trafico.py:93-95 | deletion leaves a string in which the pattern never occurs unchanged |
| Sanitizer.Sanitize | agent_trafico.py:90-98 | the cleaned statement has no backtick and does not start or end with whitespace |
| Sanitizer.SanitizeOnlyDeletes | agent_trafico.py:90-96 | cleaning only takes characters away, as a multiset, for every completion |
| Sanitizer.SanitizeKeepsOthers | agent_trafico.py:90-96 | a character that is neither whitespace nor one of the characters of "```sql" keeps its count, for every completion |
| Sanitizer.SanitizeCleanText | agent_trafico.py:90-98 | a completion without backticks is only stripped |
| Sanitizer.SanitizeKeepsClean | agent_trafico.py:90-98 | a trimmed statement without backticks is returned unchanged |
| Sanitizer.SanitizeIdempotent | agent_trafico.py:90-98 | cleaning a cleaned statement changes nothing |
| Sanitizer.SanitizeFenced | agent_trafico.py:90-98 | a backtick-free statement between "```sql" and "```" comes out whole, only stripped |
| Sanitizer.SanitizeBareFence | agent_trafico.py:93-94 | behind a bare "```" whose text does not start with lower-case "sql", the whole text is kept, tag included |
| Sanitizer.SanitizeFencedExample | agent_trafico.py:90-98 | "```sql\nSELECT id FROM trafico_amg_clean\n```" cleans to "SELECT id FROM trafico_amg_clean" |
| LimitGuard.DigitsRoundTrip | agent_trafico.py:112 | the decimal digits written for a natural number read back as that number |
| LimitGuard.DecimalRoundTrip | agent_trafico.py:112 | `f"{n}"` for any int reads back as `n`, with a minus sign exactly for negative `n` |
| LimitGuard.Decimal | agent_trafico.py:112 | `f"{n}"` is non-empty and made of digits and a minus sign, which comes first exactly for negative `n`; `LimitGuard.DecimalRoundTrip` reads it back |
| LimitGuard.LimitClause | agent_trafico.py:112 | no contract of its own: " LIMIT " followed by `f"{n}"` and ";"; `LimitGuard.FoldedClauseShape` gives its folded form and `LimitGuard.DefaultClause` its value for 20 |
| LimitGuard.FoldedClauseShape | agent_trafico.py:112 | the folded clause starts with " limit" and has no other "l" |
| LimitGuard.DefaultClause | agent_trafico.py:103-112 | with the default limit, the clause is " LIMIT 20;" |
| LimitGuard.Guard | agent_trafico.py:111-112 | no contract of its own: the statement `run_sql` executes; `LimitGuard.GuardKeepsLimited` and `LimitGuard.GuardAppendsClause` give its two branches, and `LimitGuard.GuardMentionsLimit`, `LimitGuard.GuardSingleLimit` and `LimitGuard.GuardIdempotent` what it guarantees |
| LimitGuard.GuardKeepsLimited | agent_trafico.py:111 | a statement that mentions "limit" in any case is executed as it is |
| LimitGuard.GuardAppendsClause | agent_trafico.py:111-112 | any other statement keeps everything up to the point where `rstrip(" ;")` cuts it, followed by " LIMIT n;" |
| LimitGuard.GuardSingleLimit | agent_trafico.py:111-112 | in the folded guarded statement, "limit" occurs exactly once, inside the appended clause |
| LimitGuard.GuardMentionsLimit | agent_trafico.py:111-112 | every guarded statement mentions "limit" |
| LimitGuard.GuardIdempotent | agent_trafico.py:111-112 | guarding a guarded statement changes nothing |
| LimitGuard.SampleHasNoLimit | agent_trafico.py:111 | "SELECT * FROM trafico_amg_clean" does not mention a limit |
| LimitGuard.GuardDefaultExample | agent_trafico.py:103-112 | with the default of 20, the sample statement "SELECT * FROM trafico_amg_clean" gets " LIMIT 20;" appended |
| Executor.Connection.constructor | agent_trafico.py:105 | a new connection is open and has sent nothing |
| Executor.Connection.Execute | agent_trafico.py:114-115 | executing appends the statement to what the connection has sent and returns the database's reply |
| Executor.Connection.Close | agent_trafico.py:120 | closing leaves the connection closed and its history unchanged |
| Executor.RunSql | agent_trafico.py:103-120 | a refused connection fails with nothing sent; otherwise exactly the guarded statement is sent, the connection ends closed, and the rows and the guarded statement are returned, or the database error is |
| ResultPrinter.Join | agent_trafico.py:146-149 | no contract of its own: `sep.join(cells)`; `ResultPrinter.CellsJoin` reads a joined row back into its cells and `ResultPrinter.JoinAmbiguous` shows where that fails |
| ResultPrinter.ResultLines | agent_trafico.py:142-149 | no contract of its own: what `ask` prints for a result set; `ResultPrinter.ResultLinesShape` gives its shape and `ResultPrinter.FormatResults` computes it with the printing loop |
| ResultPrinter.Repeat | agent_trafico.py:147 | `c * n` has length `n` and holds only `c` |
| ResultPrinter.RowLines | agent_trafico.py:148-149 | one line per row, in row order, each being its cells joined with the column separator |
| ResultPrinter.ResultLinesShape | agent_trafico.py:142-149 | with no rows, only "(Sin resultados)" is printed; otherwise the header, the 80-dash rule, and then row `i` on line `i + 2`, two lines more than rows |
| ResultPrinter.FormatResults | agent_trafico.py:142-149 | the printing loop produces exactly the result lines |
| ResultPrinter.CellsJoin | agent_trafico.py:149 | a printed row splits back into its cells when no cell holds a vertical bar |
| ResultPrinter.JoinAmbiguous | agent_trafico.py:149 | a cell that holds the column separator prints like two cells |
| Cli.Classify | agent_trafico.py:161-168 | no contract of its own: the exit test first, then the blank test, otherwise a question; `Cli.ClassifyExitIff`, `Cli.ClassifySkipIff` and `Cli.ClassifyAskIff` characterise each outcome |
| Cli.Questions | agent_trafico.py:158-168 | no contract of its own: the lines handed to `ask`; `Cli.QuestionsBeforeExit`, `Cli.QuestionsIgnoreAfterExit` and `Cli.QuestionsAppend` state what it collects, and `Cli.RunSession` computes it with the loop |
| Cli.ClassifyExit | agent_trafico.py:161-163 | an exit word in any case, with any whitespace around it, ends the session |
| Cli.ClassifyExitIff | agent_trafico.py:161-163 | a line ends the session exactly when it is an exit word, in any case, padded by whitespace |
| Cli.ClassifySkipIff | agent_trafico.py:165-166 | a line is skipped exactly when it is whitespace only |
| Cli.ClassifyAskIff | agent_trafico.py:168 | every line that is neither of those is asked |
| Cli.AskLines | agent_trafico.py:168 | the question lines are exactly the input lines that classify as a question: each one returned is such a line, and every such line is returned |
| Cli.AskLinesAppend | agent_trafico.py:168 | the question lines of two stretches of input are those of the first followed by those of the second, which fixes their order and count |
| Cli.FirstExit | agent_trafico.py:161-163 | the first exit line: no earlier line exits |
| Cli.QuestionsBeforeExit | agent_trafico.py:158-168 | the questions asked are the question lines before the first exit line |
| Cli.QuestionsIgnoreAfterExit | agent_trafico.py:163 | lines after an exit line are never asked |
| Cli.QuestionsAppend | agent_trafico.py:158-168 | without an exit line, later input only adds its own questions |
| Cli.RunSession | agent_trafico.py:158-168 | the loop asks exactly the questions of its input and stops by exiting exactly when some line is an exit line |
| Assistant.ExecutedStatement | agent_trafico.py:129-133 | the statement executed for a completion always mentions a limit, and it is the cleaned completion itself when that already mentions one |
| Assistant.Ask | agent_trafico.py:125-149 | the cleaned statement is always reported. A failure of `run_sql` is reported with its message. Otherwise the executed statement and the result lines are reported, and the connection ends closed after sending exactly the guarded statement |
| Assistant.PipelineExample | agent_trafico.py:129-133 | the completion "SELECT * FROM trafico_amg_clean" runs with " LIMIT 20;" appended |

## Left out

- The call to the language model (`client.responses.create`, lines 82-88) is
  not modelled. Its text, `response.output[0].content[0].text`, is the
  `completion` parameter, and the system prompt is not modelled.
- The environment and the connection settings (`load_dotenv`, `os.getenv`,
  `get_connection`'s parameters) are not modelled.
- A failure of the model call is not modelled. It happens outside `ask`'s
  `try`, so it would end the program.
- The psycopg2 cursor is not modelled. What the database does with the one
  statement is the `Answer` parameter: rows with column names, a database
  error, or a refused connection. `get_connection` raising inside `ask`'s
  `try` is the refused connection.
- The cells of a row are strings: `str(x)` of each database value is not
  modelled.
- The banner, the emoji headings, the echo of the question, the farewell
  "Saliendo..." and the rule of 100 "=" after each answer are not modelled,
  because they carry no decision; the farewell's decision is `Cli.RunSession`'s
  `exited` flag. What `ask` reports is modelled: the generated SQL, the executed
  SQL, the error message and the result lines.
- ResultPrinter.ResultLinesShape counts `print` calls, not console lines. A
  cell or column name that holds a newline shows as more lines than
  `|rows| + 2` on the console.
- `input()` is the list of lines read. An `EOFError` at the end of input is
  modelled as the loop ending without an exit line, whereas Python raises.
- `Text.Lower` folds only `A`..`Z`. Python's `str.lower()` folds all of
  Unicode, so the model differs from it on non-ASCII letters.
- Concurrency, and the interleaving of printing with the database call, are
  not modelled.
- Text.RemoveAll: its contract states only the two facts the sanitizer
  needs. The lemmas beside it state that deletion removes characters only,
  keeps every character outside the pattern, and passes over stretches
  without an occurrence. No lemma states that each occurrence is found
  leftmost first and without overlap, or that the kept characters keep
  their order; that is stated only by its body.
