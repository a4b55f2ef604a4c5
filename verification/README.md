# Zone-file synchronisation, modelled in Dafny

`synchronize.py` keeps the DNS records of one zone at a hosting provider in
line with a small text zone file. This project models its two core
routines:

- `parse(buffer)`: splits the file into lines and drops comments (from `#`
  on), surrounding whitespace and blank lines. Every other line must be
  exactly `name type content`, separated by single spaces. The type must be
  `CNAME` or `A`, the name `@` or ASCII letters and digits, the content
  non-empty. The routine yields the records in file order, or raises at the
  first line that breaks these rules.
- `apply(zone_name, parsed_zone, cloudflare, live)`:
  - lists the live records;
  - computes the records to add (declared, not live) and to remove (live,
    not declared);
  - prints a `-` line for each removal, then a `+` line for each addition;
  - when live, deletes each removed record by the id remembered for its name
    and creates each added record with the automatic ttl.

Modules:

- `Wrappers`: `Option` and `Result`.
- `PyText`: the Python 2 string operations the parser uses: `str.split` with
  one separator, `split(sep)[0]`, `str.strip()` and the ASCII whitespace set.
- `ZoneFile`: the records, the three field rules (`re.match` of an anchored
  pattern, with `$` also matching before a final newline), one line of the
  parse loop (`ParseLine`), the whole loop (`Collect` over the per-line
  `Outcomes`), and `Parse`. It also holds the round trip through the
  file's own text form (`Render`, `Unparse`).
- `Reconcile`: the snapshot of the live zone, the add/remove plan, and a run
  of `apply` as a trace of printed lines and provider calls.
  - The provider is reduced to the listing it returns. Its calls (`LoadAll`,
    `Delete`, `Create`) are recorded in the trace, not performed.
  - Python iterates a set in an unspecified order. `ApplyWith` therefore
    takes the two iteration orders as arguments and requires that they
    enumerate the two plan sets. `Apply` picks some such orders.

Because `parse` is a generator, its error surfaces inside `apply` at
`set(parsed_zone)`, after the zone has been listed. A failed parse therefore
yields a run whose trace holds only the listing call, and which carries the
error.

## Model

| member | source | states |
|---|---|---|
| PyText.Split | synchronize.py:30 | `str.split(sep)` gives at least one piece, no piece holds the separator, and joining the pieces with it restores the string |
| PyText.SplitAround | synchronize.py:30 | splitting around one separator concatenates the splits of the two sides |
| PyText.SplitJoin | synchronize.py:35 | separator-free pieces joined with the separator split back into the same pieces |
| PyText.AdjacentSeparatorsGiveEmptyPiece | synchronize.py:35 | two separators in a row produce an empty piece |
| PyText.LastPieceNonEmpty | synchronize.py:35 | a string that does not end in the separator has a non-empty last piece |
| PyText.PiecesAvoid | synchronize.py:35 | a character absent from the string is absent from every piece |
| PyText.LastPieceIsSuffix | synchronize.py:35 | the last piece is a suffix of the string |
| PyText.BeforeFirst | synchronize.py:31 | `split("#")[0]` is a prefix without `#`, followed in the input by `#` unless it is the whole input |
| PyText.BeforeFirstSeparator | synchronize.py:31 | the text before the first separator is exactly the separator-free part in front of it |
| PyText.LeadingSpaces | synchronize.py:31 | counts the whitespace run at the start of a string and stops at the first non-space |
| PyText.TrailingStart | synchronize.py:31 | finds where the trailing whitespace run begins, with no whitespace just before it |
| PyText.Strip | synchronize.py:31 | `strip()` keeps the characters after the leading whitespace, stops at trailing whitespace, leaves no whitespace at either end, and is empty exactly when the input is all whitespace |
| PyText.StripIdempotent | synchronize.py:31 | stripping twice is stripping once |
| ZoneFile.Matches | synchronize.py:43-44 | `re.match` of an anchored rule: the value is in the rule's language, or is such a value followed by one final newline |
| ZoneFile.MatchesWithoutNewline | synchronize.py:38-40 | a value with no newline matches an anchored rule only if it matches the rule outright |
| ZoneFile.FirstMismatch | synchronize.py:37-46 | names a rule the record breaks, and names none exactly when all three field rules hold |
| ZoneFile.CleanLine | synchronize.py:31-33 | the cleaned line has no `#`, and is blank exactly when everything before the first `#` is whitespace |
| ZoneFile.ParseLine | synchronize.py:30-48 | one iteration of the loop of `parse`: nothing, a record, or the error the line raises; what it yields is stated by `ParseLineFacts` |
| ZoneFile.ParseLineFacts | synchronize.py:30-48 | one line yields nothing exactly when it is blank once cleaned; a record yielded matches every rule, writes back as the cleaned line and, for a newline-free line, is declarable; an unpacking error carries a field count other than three; a mismatch names the cleaned line, a field value and a rule that value fails |
| ZoneFile.ParsedIsDeclarable | synchronize.py:35-48 | the fields of a newline-free line that pass the three rules form a declarable record |
| ZoneFile.NoNewlineInCleanLine | synchronize.py:31 | cutting the comment and stripping introduce no newline |
| ZoneFile.Collect | synchronize.py:30-48 | the loop of `parse` over the outcomes of its lines; what it returns is stated by `CollectSucceeds`, `CollectFirstError` and `CollectDeclared` |
| ZoneFile.CollectSucceeds | synchronize.py:30-48 | the loop of `parse` finishes exactly when no line raises |
| ZoneFile.CollectFirstError | synchronize.py:30-48 | a failing loop raises the error of the first line that raises, after only successful lines |
| ZoneFile.CollectDeclared | synchronize.py:48 | a finished loop yields the declared records, in order |
| ZoneFile.DeclaredFrom | synchronize.py:48 | every yielded record is the record of some line |
| ZoneFile.ParseLines | synchronize.py:30-48 | the loop of `parse` over the lines of the file; what it returns is stated by the `ParseLines` lemmas below |
| ZoneFile.ParseLinesSucceeds | synchronize.py:30-48 | parsing the lines succeeds exactly when every line parses |
| ZoneFile.ParseLinesFirstError | synchronize.py:30-46 | a failed parse reports the error of the first failing line |
| ZoneFile.ParseLinesInOrder | synchronize.py:30-48 | a successful parse yields one record per non-blank line, in file order, and each record writes back as its cleaned line |
| ZoneFile.DeclaredStatements | synchronize.py:30-48 | the records of lines that all parse correspond one to one, in order, to the non-blank cleaned lines |
| ZoneFile.ParseLinesDeclarable | synchronize.py:30-48 | newline-free lines only yield declarable records |
| ZoneFile.Parse | synchronize.py:13-48 | every record `parse` yields is declarable: a `CNAME` or `A` type, an `@` or alphanumeric name, and content with no space, `#` or newline that does not end in whitespace |
| ZoneFile.CommentIgnored | synchronize.py:31 | text after a `#` never changes what a line yields |
| ZoneFile.RenderParses | synchronize.py:30-48 | the line `name type content` of a declarable record parses back to that record |
| ZoneFile.ParseUnparse | synchronize.py:13-48 | a file of declarable records, one per line, parses back to exactly those records in order |
| ZoneFile.ParseLinesSkip | synchronize.py:32-33 | a blank or comment-only line adds nothing |
| ZoneFile.ParseLinesCons | synchronize.py:48 | a line that yields a record puts it in front of what the rest yields |
| ZoneFile.ContentRuleNeverFails | synchronize.py:35-40 | once a newline-free line splits into three fields its content matches `^.+$` |
| ZoneFile.DoubledSpaceRejected | synchronize.py:35 | a cleaned line with two consecutive spaces always raises |
| ZoneFile.TwoRecordsThenComment | synchronize.py:30-48 | two record lines, then a comment-only line and a blank line, each ending in a newline, parse to the two records |
| ZoneFile.ScenarioTwoRecords | synchronize.py:30-48 | the file `a CNAME example.com`, `b A 1.2.3.4`, `# comment` and a blank line parses to those two records |
| ZoneFile.CommentThenTwoRecords | synchronize.py:30-48 | a comment-only line followed by two record lines, the last without a newline, parses to the two records |
| ZoneFile.ScenarioDocumented | synchronize.py:14-27 | the documented example, `# a comment`, `a CNAME example.com`, `b A example.com`, parses to `("a", "CNAME", "example.com")` and `("b", "A", "example.com")` |
| ZoneFile.ScenarioTwoFields | synchronize.py:35 | the line `a CNAME` raises an unpacking error for two fields |
| ZoneFile.ScenarioBadName | synchronize.py:39-46 | the line `bad! A example.com` raises a mismatch on the name `bad!` |
| Reconcile.Text | synchronize.py:71-78 | a printed line is `- ` or `+ ` followed by the record written as its zone-file line |
| Reconcile.ProjectionsAppend | synchronize.py:70-94 | the printed lines and the calls of a trace split over concatenation |
| Reconcile.LiveName | synchronize.py:60 | a listed record at the zone apex is named `@`, any other by its display name |
| Reconcile.LastIndex | synchronize.py:59-62 | finds the last listed record with a given live name, or none |
| Reconcile.TakeSnapshot | synchronize.py:57-62 | the present set is the live name, type and content of every listed record; every present name has an id, namely that of the last listed record with that name |
| Reconcile.ToSet | synchronize.py:65 | `set(parsed_zone)`: the declared records, without order or repetition |
| Reconcile.Diff | synchronize.py:65-67 | additions and removals are disjoint; removals are live; additions are not live; removing and then adding turns the live set into the declared one; the plan is empty exactly when the two sets agree |
| Reconcile.PlanFor | synchronize.py:64-67 | the plan is the `Diff` of the declared set against the live set |
| Reconcile.PlanForContents | synchronize.py:57-67 | a record is added exactly when it is declared and no listed record equals it, and removed exactly when some listed record equals it and it is not declared |
| Reconcile.EnumerationLength | synchronize.py:70-77 | an iteration order of a set visits each element once, so it is as long as the set |
| Reconcile.RemovalSteps | synchronize.py:70-74 | the removal loop prints one `-` line per record in order and, only when live, deletes each by the id of its name |
| Reconcile.RemovalStepsShape | synchronize.py:70-74 | in the removal loop's events each record's `-` line is directly followed, when live, by its delete, and nothing else occurs |
| Reconcile.AdditionSteps | synchronize.py:77-94 | the addition loop prints one `+` line per record in order and, only when live, creates each with the automatic ttl and no optional attribute |
| Reconcile.AdditionStepsShape | synchronize.py:77-94 | in the addition loop's events each record's `+` line is directly followed, when live, by its create, and nothing else occurs |
| Reconcile.RemovalsHaveIds | synchronize.py:62-74 | every record to remove has an id stored under its name, so the lookup at the delete never fails |
| Reconcile.Steps | synchronize.py:69-94 | both loops print every removal before every addition, and call the provider only when live, all deletes before all creates |
| Reconcile.StepsShape | synchronize.py:69-94 | the removal loop's events open the trace of both loops and the addition loop's events follow directly after them |
| Reconcile.ParsedRun | synchronize.py:56-94 | a run whose file parsed lists the zone, then runs both loops with their shapes, and raises nothing |
| Reconcile.ApplyWith | synchronize.py:50-94 | a run lists the zone first; a parse error stops it right after the listing; otherwise each `-` line is directly followed, when live, by its delete, all removals come before the first `+` line, each `+` line is directly followed, when live, by its create, and a dry run calls nothing but the listing |
| Reconcile.Enumerate | synchronize.py:70-77 | produces an iteration order of a set |
| Reconcile.Apply | synchronize.py:50-94 | `apply` behaves as `ApplyWith` for some iteration orders of the two plan sets, and stops after the listing on a parse error |
| Reconcile.InSyncIsQuiet | synchronize.py:65-94 | when the file declares exactly the live records, a run only lists the zone |
| Reconcile.DryRunMatchesLive | synchronize.py:69-94 | a dry run prints what a live run prints and calls nothing but the listing |
| Reconcile.LiveRunCalls | synchronize.py:59-94 | a live run lists, then deletes one record per removal by the id of the last listed record of that name, then creates one record per addition with ttl 1 and all optional attributes empty |
| Reconcile.SharedNameSharesId | synchronize.py:62-74 | two distinct removals with the same name are deleted with the same id, since the id map is keyed by name alone |
| Reconcile.UndeclarableTypesRemoved | synchronize.py:38-67 | every live record whose type is neither `CNAME` nor `A` is scheduled for removal |
| Reconcile.RerunPlansNothing | synchronize.py:65-67 | once the plan has been carried out, planning again gives nothing to add or remove |
| Reconcile.ContentChangeIsRemoveAndAdd | synchronize.py:65-67 | a record whose content changed is removed with the old content and added with the new |

## Left out

- `main` (lines 96-121) is not modelled: argument parsing, environment variables, reading the file and building the client are I/O. Its `try` around `parse(...)` catches nothing, because `parse` is a generator whose `ValueError` surfaces later, inside `apply`. The model shows that error as the `failure` of the run.
- The provider client (`pyflare`) is foreign code. `rec_load_all` becomes the `listing` parameter; `rec_delete` and `rec_new` become `Delete` and `Create` entries of the trace. Failures of the provider, which would cut a run short, are not modelled.
- The exact text of the error messages is not modelled. A printed line is kept as `Removed(record)` or `Added(record)`; `Reconcile.Text` gives the string `print` writes for it, without the newline.
- ZoneFile.FirstMismatch: it checks type, then name, then content. The source checks them in the iteration order of a Python 2 dict, which is unspecified. So `ParseLineFacts` promises only that the reported field fails its rule, not which failing field is reported.
- ZoneFile.ParseLineFacts: the unpacking error carries only the field count. The source raises the tuple-unpacking `ValueError` of line 35, which does not include the line. This follows the code; a reading in which every error names its line would be wrong for this case.
- Strings are sequences of characters. The Python 2 byte strings, and any encoding, are not modelled.
- The generator's laziness is not modelled: `Parse` returns all records or the first error. Nothing in `apply` consumes the records before `set(parsed_zone)` takes them all.
