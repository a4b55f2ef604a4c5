/**
 * The zone-file grammar of `parse` in synchronize.py: one record per line,
 * `<name> <type> <content>`, with `#` comments and blank lines ignored.
 */
module ZoneFile {
  import opened Wrappers
  import opened PyText

  /** One DNS record, compared as a whole `(name, type, content)` triple. */
  datatype Record = Record(name: string, rtype: string, content: string)

  /** The three patterns a declared line's fields are checked against. */
  datatype Rule =
    | TypeRule     // ^(CNAME|A)$ on the type
    | NameRule     // ^(@|[a-zA-Z0-9]+)$ on the name
    | ContentRule  // ^.+$ on the content

  /** The two ways `parse` raises `ValueError`. */
  datatype ParseError =
      /** Unpacking the fields of a line failed; `found` is how many there were. */
    | Unpack(found: nat)
      /** A field does not match its rule; `line` is the stripped line. */
    | Mismatch(line: string, value: string, rule: Rule)

  predicate IsAsciiAlnum(c: char) {
    ('a' <= c <= 'z') || ('A' <= c <= 'Z') || ('0' <= c <= '9')
  }

  /** The language of a rule's pattern without its anchors. */
  predicate Core(rule: Rule, v: string) {
    match rule
    case TypeRule => v == "CNAME" || v == "A"
    case NameRule => v == "@" || (|v| > 0 && forall k :: 0 <= k < |v| ==> IsAsciiAlnum(v[k]))
    case ContentRule => |v| > 0 && '\n' !in v   // `.` does not match a newline
  }

  /**
   * `re.match("^...$", v)`: the anchored pattern matches the whole value, or
   * the whole value but a final newline, which `$` also accepts.
   */
  predicate Matches(rule: Rule, v: string) {
    Core(rule, v) || (|v| > 0 && v[|v| - 1] == '\n' && Core(rule, v[..|v| - 1]))
  }

  /** Without newlines the anchors add nothing. */
  lemma MatchesWithoutNewline(rule: Rule, v: string)
    requires '\n' !in v
    ensures Matches(rule, v) <==> Core(rule, v)
  {
  }

  /** The field of a record that a rule is checked against. */
  function FieldOf(r: Record, rule: Rule): string {
    match rule
    case TypeRule => r.rtype
    case NameRule => r.name
    case ContentRule => r.content
  }

  /**
   * A rule that `r` breaks, if any. The source checks the three rules in
   * the iteration order of a Python 2 dict, which is unspecified; this
   * model tries them in the order they are written.
   */
  function FirstMismatch(r: Record): (m: Option<Rule>)
    ensures m.Some? ==> !Matches(m.value, FieldOf(r, m.value))
    ensures m.None? <==> (forall rule :: Matches(rule, FieldOf(r, rule)))
  {
    if !Matches(TypeRule, r.rtype) then Some(TypeRule)
    else if !Matches(NameRule, r.name) then Some(NameRule)
    else if !Matches(ContentRule, r.content) then Some(ContentRule)
    else None
  }

  /** A line with its comment cut off and its surrounding whitespace stripped. */
  function CleanLine(raw: string): (line: string)
    ensures '#' !in line
    ensures line == [] <==> forall k :: 0 <= k < |BeforeFirst(raw, '#')| ==> IsSpace(raw[k])
  {
    Strip(BeforeFirst(raw, '#'))
  }

  /** The three-field join spelled out. */
  lemma JoinThree(a: string, b: string, c: string, sep: char)
    ensures Join([a, b, c], sep) == a + [sep] + (b + [sep] + c)
  {
    assert [a, b, c][1..] == [b, c];
    assert [b, c][1..] == [c];
    assert Join([c], sep) == c;
    assert Join([b, c], sep) == b + [sep] + c;
  }

  /** A record written back as a zone-file line. */
  function Render(r: Record): string {
    Join([r.name, r.rtype, r.content], ' ')
  }

  /**
   * The records a zone file can declare: a supported type, a well-formed
   * name, and content that is non-empty, free of the separators ` `, `#`
   * and newline, and does not end in whitespace.
   */
  predicate Declarable(r: Record) {
    && Core(TypeRule, r.rtype)
    && Core(NameRule, r.name)
    && |r.content| > 0
    && ' ' !in r.content && '#' !in r.content && '\n' !in r.content
    && !IsSpace(r.content[|r.content| - 1])
  }

  /**
   * One iteration of the loop in `parse`: nothing for a blank or
   * comment-only line, the record of a well-formed line, or the error the
   * line raises.
   */
  function ParseLine(raw: string): Result<Option<Record>, ParseError> {
    var line := CleanLine(raw);
    if line == [] then Success(None)
    else
      var fields := Split(line, ' ');
      if |fields| != 3 then Failure(Unpack(|fields|))
      else
        var rec := Record(fields[0], fields[1], fields[2]);
        match FirstMismatch(rec)
        case Some(rule) => Failure(Mismatch(line, FieldOf(rec, rule), rule))
        case None => Success(Some(rec))
  }

  /**
   * What one line yields: nothing exactly when it is blank once cleaned; a
   * record whose fields all match their rules and that writes back as the
   * cleaned line; an unpacking error for a field count other than three; or
   * the value of a field that fails its rule.
   */
  lemma ParseLineFacts(raw: string)
    ensures ParseLine(raw) == Success(None) <==> CleanLine(raw) == []
    ensures ParseLine(raw).Success? && ParseLine(raw).value.Some? ==>
      var rec := ParseLine(raw).value.value;
      && Render(rec) == CleanLine(raw)
      && (forall rule :: Matches(rule, FieldOf(rec, rule)))
      && ('\n' !in raw ==> Declarable(rec))
    ensures ParseLine(raw).Failure? && ParseLine(raw).error.Unpack? ==>
      CleanLine(raw) != [] && ParseLine(raw).error.found == |Split(CleanLine(raw), ' ')| != 3
    ensures ParseLine(raw).Failure? && ParseLine(raw).error.Mismatch? ==>
      var e := ParseLine(raw).error;
      var fields := Split(CleanLine(raw), ' ');
      && e.line == CleanLine(raw) && |fields| == 3
      && e.value == FieldOf(Record(fields[0], fields[1], fields[2]), e.rule)
      && !Matches(e.rule, e.value)
  {
    var line := CleanLine(raw);
    if line != [] {
      var fields := Split(line, ' ');
      if |fields| == 3 {
        var rec := Record(fields[0], fields[1], fields[2]);
        if FirstMismatch(rec).None? {
          assert Render(rec) == line by { assert [rec.name, rec.rtype, rec.content] == fields; }
          if '\n' !in raw {
            ParsedIsDeclarable(raw, line, fields);
          }
        }
      }
    }
  }

  /** The fields of a stripped, comment-free, newline-free line are declarable once they match. */
  lemma ParsedIsDeclarable(raw: string, line: string, fields: seq<string>)
    requires '\n' !in raw && line == CleanLine(raw) && line != []
    requires fields == Split(line, ' ') && |fields| == 3
    requires Matches(TypeRule, fields[1]) && Matches(NameRule, fields[0]) && Matches(ContentRule, fields[2])
    ensures Declarable(Record(fields[0], fields[1], fields[2]))
  {
    NoNewlineInCleanLine(raw);
    PiecesAvoid(line, ' ', '\n');
    ParsedContent(line, fields);
    MatchesWithoutNewline(TypeRule, fields[1]);
    MatchesWithoutNewline(NameRule, fields[0]);
  }

  /** The last field of a stripped, comment-free line is a suffix of it: no `#`, no trailing space. */
  lemma ParsedContent(line: string, fields: seq<string>)
    requires line != [] && '#' !in line && !IsSpace(line[|line| - 1])
    requires fields == Split(line, ' ') && |fields| == 3 && |fields[2]| > 0
    ensures '#' !in fields[2] && !IsSpace(fields[2][|fields[2]| - 1])
  {
    var content := fields[2];
    LastPieceIsSuffix(line, ' ');
    assert content == line[|line| - |content|..];
    forall k | 0 <= k < |content| ensures content[k] != '#' {
      assert content[k] == line[|line| - |content| + k];
    }
    assert content[|content| - 1] == line[|line| - 1];
  }

  /** Stripping and cutting a comment introduce no newline. */
  lemma NoNewlineInCleanLine(raw: string)
    requires '\n' !in raw
    ensures '\n' !in CleanLine(raw)
  {
    var cut := BeforeFirst(raw, '#');
    var lead := LeadingSpaces(cut);
    var line := Strip(cut);
    assert line == CleanLine(raw);
    forall k | 0 <= k < |line| ensures line[k] != '\n' {
      var j := lead + k;
      assert line[k] == cut[j];
      assert cut[j] == raw[j];
      assert raw[j] in raw;
    }
  }

  /** The lines of a zone file that declare something: cleaned, blank ones dropped. */
  function Statements(lines: seq<string>): seq<string>
    decreases |lines|
  {
    if |lines| == 0 then []
    else if CleanLine(lines[0]) == [] then Statements(lines[1..])
    else [CleanLine(lines[0])] + Statements(lines[1..])
  }

  /** What one line yields to the loop of `parse`. */
  type Outcome = Result<Option<Record>, ParseError>

  /**
   * The loop of `parse` over what its lines yield, run to completion: the
   * records in order, or the error of the first line that raises.
   */
  function Collect(outcomes: seq<Outcome>): Result<seq<Record>, ParseError>
    decreases |outcomes|
  {
    if |outcomes| == 0 then Success([])
    else
      match outcomes[0]
      case Failure(e) => Failure(e)
      case Success(None) => Collect(outcomes[1..])
      case Success(Some(rec)) =>
        match Collect(outcomes[1..])
        case Failure(e) => Failure(e)
        case Success(recs) => Success([rec] + recs)
  }

  /** The records among the outcomes, in order. */
  function Declared(outcomes: seq<Outcome>): seq<Record>
    decreases |outcomes|
  {
    if |outcomes| == 0 then []
    else if outcomes[0].Success? && outcomes[0].value.Some? then [outcomes[0].value.value] + Declared(outcomes[1..])
    else Declared(outcomes[1..])
  }

  /** The loop finishes exactly when no outcome is an error. */
  lemma {:induction false} CollectSucceeds(outcomes: seq<Outcome>)
    ensures Collect(outcomes).Success? <==> forall i :: 0 <= i < |outcomes| ==> outcomes[i].Success?
    decreases |outcomes|
  {
    if |outcomes| > 0 {
      var rest := outcomes[1..];
      CollectSucceeds(rest);
      assert forall i :: 1 <= i < |outcomes| ==> rest[i - 1] == outcomes[i];
    }
  }

  /** A finished loop yields the declared records. */
  lemma {:induction false} CollectDeclared(outcomes: seq<Outcome>)
    requires Collect(outcomes).Success?
    ensures Collect(outcomes).value == Declared(outcomes)
    decreases |outcomes|
  {
    if |outcomes| > 0 {
      CollectDeclared(outcomes[1..]);
    }
  }

  /** A failing loop raises the error of the first outcome that is one. */
  lemma {:induction false} CollectFirstError(outcomes: seq<Outcome>)
    requires Collect(outcomes).Failure?
    ensures exists i :: 0 <= i < |outcomes| && outcomes[i] == Failure(Collect(outcomes).error)
                        && forall j :: 0 <= j < i ==> outcomes[j].Success?
    decreases |outcomes|
  {
    var rest := outcomes[1..];
    if outcomes[0].Success? {
      assert Collect(rest).Failure? && Collect(rest).error == Collect(outcomes).error;
      CollectFirstError(rest);
      var i :| 0 <= i < |rest| && rest[i] == Failure(Collect(rest).error)
               && forall j :: 0 <= j < i ==> rest[j].Success?;
      assert outcomes[i + 1] == rest[i];
      forall j | 0 <= j < i + 1 ensures outcomes[j].Success? {
        if j > 0 { assert outcomes[j] == rest[j - 1]; }
      }
    }
  }

  /** Every declared record is the record of some outcome. */
  lemma {:induction false} DeclaredFrom(outcomes: seq<Outcome>, i: nat)
    requires i < |Declared(outcomes)|
    ensures exists k :: 0 <= k < |outcomes| && outcomes[k] == Success(Some(Declared(outcomes)[i]))
    decreases |outcomes|
  {
    var rest := outcomes[1..];
    if outcomes[0].Success? && outcomes[0].value.Some? {
      if i > 0 {
        DeclaredFrom(rest, i - 1);
        var k :| 0 <= k < |rest| && rest[k] == Success(Some(Declared(rest)[i - 1]));
        assert outcomes[k + 1] == rest[k];
      }
    } else {
      DeclaredFrom(rest, i);
      var k :| 0 <= k < |rest| && rest[k] == Success(Some(Declared(rest)[i]));
      assert outcomes[k + 1] == rest[k];
    }
  }

  /** What each line yields, in order. */
  function Outcomes(step: string -> Outcome, lines: seq<string>): seq<Outcome> {
    seq(|lines|, i requires 0 <= i < |lines| => step(lines[i]))
  }

  /** The loop of `parse` over a file's lines. */
  function ParseLines(lines: seq<string>): Result<seq<Record>, ParseError> {
    Collect(Outcomes(ParseLine, lines))
  }

  /** The outcomes of a line in front of others. */
  lemma OutcomesCons(step: string -> Outcome, line: string, lines: seq<string>)
    ensures Outcomes(step, [line] + lines) == [step(line)] + Outcomes(step, lines)
  {
    var o := Outcomes(step, [line] + lines);
    assert forall i :: 1 <= i < |o| ==> ([line] + lines)[i] == lines[i - 1];
  }

  /** Parsing succeeds exactly when no line raises. */
  lemma ParseLinesSucceeds(lines: seq<string>)
    ensures ParseLines(lines).Success? <==> forall i :: 0 <= i < |lines| ==> ParseLine(lines[i]).Success?
  {
    var o := Outcomes(ParseLine, lines);
    assert |o| == |lines| && forall i :: 0 <= i < |lines| ==> o[i] == ParseLine(lines[i]);
    CollectSucceeds(o);
  }

  /** A failed parse reports the error of the first line that raises. */
  lemma ParseLinesFirstError(lines: seq<string>)
    requires ParseLines(lines).Failure?
    ensures exists i :: 0 <= i < |lines| && ParseLine(lines[i]) == Failure(ParseLines(lines).error)
                        && forall j :: 0 <= j < i ==> ParseLine(lines[j]).Success?
  {
    var o := Outcomes(ParseLine, lines);
    assert |o| == |lines| && forall i :: 0 <= i < |lines| ==> o[i] == ParseLine(lines[i]);
    CollectFirstError(o);
    var i :| 0 <= i < |o| && o[i] == Failure(Collect(o).error) && forall j :: 0 <= j < i ==> o[j].Success?;
    assert ParseLine(lines[i]) == Failure(ParseLines(lines).error);
  }

  /**
   * A successful parse yields one record per declaring line, in input
   * order, and each record written back is that line.
   */
  lemma ParseLinesInOrder(lines: seq<string>)
    requires ParseLines(lines).Success?
    ensures var recs := ParseLines(lines).value;
      && |recs| == |Statements(lines)|
      && forall i :: 0 <= i < |recs| ==> Render(recs[i]) == Statements(lines)[i]
  {
    CollectDeclared(Outcomes(ParseLine, lines));
    CollectSucceeds(Outcomes(ParseLine, lines));
    DeclaredStatements(lines);
  }

  /** The declared records of lines that all parse write back as the statements. */
  lemma {:induction false} DeclaredStatements(lines: seq<string>)
    requires forall i :: 0 <= i < |lines| ==> Outcomes(ParseLine, lines)[i].Success?
    ensures var recs := Declared(Outcomes(ParseLine, lines));
      && |recs| == |Statements(lines)|
      && forall i :: 0 <= i < |recs| ==> Render(recs[i]) == Statements(lines)[i]
    decreases |lines|
  {
    if |lines| > 0 {
      var rest := lines[1..];
      OutcomesTail(ParseLine, lines);
      DeclaredStatements(rest);
      ParseLineFacts(lines[0]);
      var recs := Declared(Outcomes(ParseLine, rest));
      var st := Statements(rest);
      if CleanLine(lines[0]) == [] {
        assert Declared(Outcomes(ParseLine, lines)) == recs;
        assert Statements(lines) == st;
      } else {
        var rec := ParseLine(lines[0]).value.value;
        assert Declared(Outcomes(ParseLine, lines)) == [rec] + recs;
        assert Statements(lines) == [CleanLine(lines[0])] + st;
      }
    }
  }

  /** Dropping the first line drops its outcome. */
  lemma OutcomesTail(step: string -> Outcome, lines: seq<string>)
    requires |lines| > 0
    ensures Outcomes(step, lines)[0] == step(lines[0])
    ensures Outcomes(step, lines)[1..] == Outcomes(step, lines[1..])
  {
    var rest := lines[1..];
    assert forall i :: 0 <= i < |rest| ==> rest[i] == lines[i + 1];
  }

  /** Newline-free lines parse to declarable records only. */
  lemma ParseLinesDeclarable(lines: seq<string>)
    requires ParseLines(lines).Success?
    requires forall i :: 0 <= i < |lines| ==> '\n' !in lines[i]
    ensures forall i :: 0 <= i < |ParseLines(lines).value| ==> Declarable(ParseLines(lines).value[i])
  {
    var o := Outcomes(ParseLine, lines);
    CollectDeclared(o);
    forall i | 0 <= i < |Declared(o)| ensures Declarable(Declared(o)[i]) {
      DeclaredFrom(o, i);
      var k :| 0 <= k < |o| && o[k] == Success(Some(Declared(o)[i]));
      ParseLineFacts(lines[k]);
    }
  }

  /**
   * `parse(buffer)`: the records the generator yields, in order, or the
   * error it raises. Every record it yields is declarable.
   */
  function Parse(buffer: string): (r: Result<seq<Record>, ParseError>)
    ensures r.Success? ==> forall i :: 0 <= i < |r.value| ==> Declarable(r.value[i])
  {
    var lines := Split(buffer, '\n');
    assert ParseLines(lines).Success? ==>
      forall i :: 0 <= i < |ParseLines(lines).value| ==> Declarable(ParseLines(lines).value[i]) by {
      if ParseLines(lines).Success? { ParseLinesDeclarable(lines); }
    }
    ParseLines(lines)
  }

  /** A comment-free string is its own comment cut. */
  lemma BeforeCommentWhole(s: string)
    requires '#' !in s
    ensures BeforeFirst(s, '#') == s
  {
  }

  /** Text from the first `#` on is dropped before the line is split. */
  lemma CommentIgnored(code: string, comment: string)
    requires '#' !in code
    ensures ParseLine(code + "#" + comment) == ParseLine(code)
  {
    BeforeFirstSeparator(code, comment, '#');
    BeforeCommentWhole(code);
    assert CleanLine(code + "#" + comment) == CleanLine(code);
  }

  /** Neither a comment marker nor a newline can occur in a declarable record's line. */
  lemma RenderAvoids(r: Record, c: char)
    requires Declarable(r) && (c == '#' || c == '\n')
    ensures c !in Render(r)
  {
    assert c !in r.name by {
      if r.name != "@" {
        forall k | 0 <= k < |r.name| ensures r.name[k] != c { assert IsAsciiAlnum(r.name[k]); }
      }
    }
    var parts := [r.name, r.rtype, r.content];
    assert forall i :: 0 <= i < |parts| ==> c !in parts[i];
    JoinAvoids(parts, ' ', c);
  }

  /** A declarable record's line is already clean. */
  lemma RenderIsClean(r: Record)
    requires Declarable(r)
    ensures CleanLine(Render(r)) == Render(r)
  {
    var s := Render(r);
    RenderAvoids(r, '#');
    BeforeCommentWhole(s);
    RenderEnds(r);
    StripTrimmed(s);
  }

  /** A declarable record's line starts with its name and ends with its content. */
  lemma RenderEnds(r: Record)
    requires Declarable(r)
    ensures |Render(r)| > 0 && !IsSpace(Render(r)[0]) && !IsSpace(Render(r)[|Render(r)| - 1])
  {
    var s := Render(r);
    JoinThree(r.name, r.rtype, r.content, ' ');
    assert s[0] == r.name[0];
    if r.name != "@" { assert IsAsciiAlnum(r.name[0]); }
    assert s[|s| - 1] == r.content[|r.content| - 1];
  }

  /** A declarable record's line splits into its three fields. */
  lemma RenderSplits(r: Record)
    requires Declarable(r)
    ensures Split(Render(r), ' ') == [r.name, r.rtype, r.content]
  {
    assert ' ' !in r.name by {
      if r.name != "@" {
        forall k | 0 <= k < |r.name| ensures r.name[k] != ' ' { assert IsAsciiAlnum(r.name[k]); }
      }
    }
    var parts := [r.name, r.rtype, r.content];
    assert forall i :: 0 <= i < |parts| ==> ' ' !in parts[i];
    SplitJoin(parts, ' ');
  }

  /** A declarable record written back as a line parses to itself. */
  lemma RenderParses(r: Record)
    requires Declarable(r)
    ensures ParseLine(Render(r)) == Success(Some(r))
  {
    RenderIsClean(r);
    RenderSplits(r);
    RenderAvoids(r, '\n');
    MatchesWithoutNewline(ContentRule, r.content);
  }

  /** A zone file of the given records, one newline-terminated line each. */
  function Unparse(recs: seq<Record>): string
    decreases |recs|
  {
    if |recs| == 0 then [] else Render(recs[0]) + "\n" + Unparse(recs[1..])
  }

  /** Writing declarable records out and parsing them back gives them back. */
  lemma ParseUnparse(recs: seq<Record>)
    requires forall i :: 0 <= i < |recs| ==> Declarable(recs[i])
    ensures Parse(Unparse(recs)) == Success(recs)
  {
    ParseLinesUnparse(recs);
  }

  /** `ParseUnparse` at the level of the split lines. */
  lemma {:induction false} ParseLinesUnparse(recs: seq<Record>)
    requires forall i :: 0 <= i < |recs| ==> Declarable(recs[i])
    ensures ParseLines(Split(Unparse(recs), '\n')) == Success(recs)
    decreases |recs|
  {
    if |recs| == 0 {
      EmptyFileParses();
    } else {
      var rest := recs[1..];
      assert forall i :: 0 <= i < |rest| ==> Declarable(rest[i]) by {
        forall i | 0 <= i < |rest| ensures Declarable(rest[i]) {
          assert rest[i] == recs[i + 1];
        }
      }
      ParseLinesUnparse(rest);
      UnparseStep(recs[0], rest);
      assert [recs[0]] + rest == recs;
    }
  }

  /** Writing one more declarable record in front keeps the round trip. */
  lemma UnparseStep(r: Record, recs: seq<Record>)
    requires Declarable(r)
    requires ParseLines(Split(Unparse(recs), '\n')) == Success(recs)
    ensures ParseLines(Split(Unparse([r] + recs), '\n')) == Success([r] + recs)
  {
    var text := Unparse(recs);
    assert ([r] + recs)[1..] == recs;
    assert Unparse([r] + recs) == Render(r) + "\n" + text;
    UnparseSplit(r, text);
    RecordLineCons(r, Split(text, '\n'), recs);
  }

  /** The empty file declares nothing. */
  lemma EmptyFileParses()
    ensures ParseLines(Split("", '\n')) == Success([])
  {
    assert Split("", '\n') == [""];
    assert CleanLine("") == [];
    OutcomesTail(ParseLine, [""]);
    var o := Outcomes(ParseLine, [""]);
    assert |o| == 1;
    assert o[0] == Success(None);
    assert |o[1..]| == 0;
    assert Collect(o[1..]) == Success([]);
    assert Collect(o) == Success([]);
  }

  /** A line that declares a record puts it in front of the rest. */
  lemma ParseLinesCons(line: string, lines: seq<string>)
    requires ParseLine(line).Success? && ParseLine(line).value.Some?
    requires ParseLines(lines).Success?
    ensures ParseLines([line] + lines) == Success([ParseLine(line).value.value] + ParseLines(lines).value)
  {
    OutcomesCons(ParseLine, line, lines);
    assert ([ParseLine(line)] + Outcomes(ParseLine, lines))[1..] == Outcomes(ParseLine, lines);
  }

  /** The first line of an unparsed file is the first record's line. */
  lemma UnparseSplit(r: Record, text: string)
    requires Declarable(r)
    ensures Split(Render(r) + "\n" + text, '\n') == [Render(r)] + Split(text, '\n')
  {
    RenderAvoids(r, '\n');
    SplitAround(Render(r), text, '\n');
    SplitFree(Render(r), '\n');
  }

  /**
   * Once a line of a zone file splits into three fields its content is
   * never empty, so the content rule cannot be the one that fails.
   */
  lemma ContentRuleNeverFails(raw: string)
    requires '\n' !in raw && CleanLine(raw) != []
    requires |Split(CleanLine(raw), ' ')| == 3
    ensures Matches(ContentRule, Split(CleanLine(raw), ' ')[2])
  {
    var line := CleanLine(raw);
    LastPieceNonEmpty(line, ' ');
    NoNewlineInCleanLine(raw);
    PiecesAvoid(line, ' ', '\n');
  }

  /** Two spaces in a row leave an empty field, so the line is rejected. */
  lemma DoubledSpaceRejected(raw: string, i: nat)
    requires i + 1 < |CleanLine(raw)| && CleanLine(raw)[i] == ' ' && CleanLine(raw)[i + 1] == ' '
    ensures ParseLine(raw).Failure?
  {
    var line := CleanLine(raw);
    var fields := Split(line, ' ');
    AdjacentSeparatorsGiveEmptyPiece(line, i, ' ');
    if |fields| == 3 {
      EmptyFieldMismatch(fields);
    }
  }

  /** No rule accepts an empty field. */
  lemma EmptyFieldMismatch(fields: seq<string>)
    requires |fields| == 3 && "" in fields
    ensures FirstMismatch(Record(fields[0], fields[1], fields[2])).Some?
  {
    assert fields[0] == "" || fields[1] == "" || fields[2] == "";
  }

  /** A blank or comment-only line adds nothing to what follows it. */
  lemma ParseLinesSkip(line: string, lines: seq<string>)
    requires CleanLine(line) == []
    ensures ParseLines([line] + lines) == ParseLines(lines)
  {
    OutcomesCons(ParseLine, line, lines);
    assert ([ParseLine(line)] + Outcomes(ParseLine, lines))[1..] == Outcomes(ParseLine, lines);
  }

  /** A comment-free line without surrounding whitespace is its own clean line. */
  lemma CleanLineKeeps(line: string)
    requires '#' !in line
    requires line == [] || (!IsSpace(line[0]) && !IsSpace(line[|line| - 1]))
    ensures CleanLine(line) == line
  {
    BeforeCommentWhole(line);
    StripTrimmed(line);
  }

  /** Splitting a line made of three separator-free fields. */
  lemma SplitThree(a: string, b: string, c: string)
    requires ' ' !in a && ' ' !in b && ' ' !in c
    ensures Split(a + " " + b + " " + c, ' ') == [a, b, c]
  {
    JoinThree(a, b, c, ' ');
    assert a + " " + b + " " + c == a + [' '] + (b + [' '] + c);
    SplitJoin([a, b, c], ' ');
  }

  /**
   * Two record lines, then a comment-only line and a blank line, each
   * ending in a newline, parse to the two records.
   */
  lemma TwoRecordsThenComment(a: Record, b: Record, comment: string)
    requires Declarable(a) && Declarable(b) && '\n' !in comment
    ensures Parse(Render(a) + "\n" + (Render(b) + "\n" + ("#" + comment + "\n" + ("" + "\n" + ""))))
      == Success([a, b])
  {
    TwoRecordsThenCommentLines(a, b, comment);
    TwoRecordsThenCommentParse(a, b, comment);
  }

  lemma TwoRecordsThenCommentLines(a: Record, b: Record, comment: string)
    requires Declarable(a) && Declarable(b) && '\n' !in comment
    ensures Split(Render(a) + "\n" + (Render(b) + "\n" + ("#" + comment + "\n" + ("" + "\n" + ""))), '\n')
      == [Render(a)] + ([Render(b)] + (["#" + comment] + ([""] + [""])))
  {
    var tail := "#" + comment + "\n" + ("" + "\n" + "");
    RenderAvoids(a, '\n');
    RenderAvoids(b, '\n');
    SplitAround(Render(a), Render(b) + "\n" + tail, '\n');
    SplitAround(Render(b), tail, '\n');
    SplitAround("#" + comment, "" + "\n" + "", '\n');
    SplitAround("", "", '\n');
    SplitFree(Render(a), '\n');
    SplitFree(Render(b), '\n');
    SplitFree("#" + comment, '\n');
  }

  lemma TwoRecordsThenCommentParse(a: Record, b: Record, comment: string)
    requires Declarable(a) && Declarable(b)
    ensures ParseLines([Render(a)] + ([Render(b)] + (["#" + comment] + ([""] + [""])))) == Success([a, b])
  {
    var rest := ["#" + comment] + ([""] + [""]);
    CommentThenBlanks(comment);
    var one := [Render(b)] + rest;
    RecordLineCons(b, rest, []);
    assert [b] + [] == [b];
    assert ParseLines(one) == Success([b]);
    RecordLineCons(a, one, [b]);
    assert [a] + [b] == [a, b];
  }

  /** A record's own line puts that record in front of what follows. */
  lemma RecordLineCons(r: Record, lines: seq<string>, recs: seq<Record>)
    requires Declarable(r) && ParseLines(lines) == Success(recs)
    ensures ParseLines([Render(r)] + lines) == Success([r] + recs)
  {
    RenderParses(r);
    ParseLinesCons(Render(r), lines);
  }

  /** A comment-only line, a blank line and the empty text after a final newline declare nothing. */
  lemma CommentThenBlanks(comment: string)
    ensures ParseLines(["#" + comment] + ([""] + [""])) == Success([])
  {
    CommentOnlyLine(comment);
    assert CleanLine("") == [];
    var none: seq<string> := [];
    assert |Outcomes(ParseLine, none)| == 0;
    assert ParseLines(none) == Success([]);
    ParseLinesSkip("", none);
    assert [""] + none == [""];
    ParseLinesSkip("", [""]);
    ParseLinesSkip("#" + comment, ["", ""]);
    assert [""] + [""] == ["", ""];
  }

  /** A line that starts with `#` is blank once cleaned. */
  lemma CommentOnlyLine(comment: string)
    ensures CleanLine("#" + comment) == []
  {
    BeforeFirstSeparator("", comment, '#');
    assert "#" + comment == "" + ['#'] + comment;
  }

  /** The file `a CNAME example.com`, `b A 1.2.3.4`, `# comment` and a blank line. */
  lemma ScenarioTwoRecords()
    ensures Parse("a CNAME example.com\nb A 1.2.3.4\n# comment\n\n")
      == Success([Record("a", "CNAME", "example.com"), Record("b", "A", "1.2.3.4")])
  {
    var ra := Record("a", "CNAME", "example.com");
    var rb := Record("b", "A", "1.2.3.4");
    ScenarioDeclarable();
    TwoRecordsThenComment(ra, rb, " comment");
    ScenarioLayout(ra, rb);
  }

  /** The scenario file is the two records' lines, a comment and a blank line. */
  lemma ScenarioLayout(ra: Record, rb: Record)
    requires ra == Record("a", "CNAME", "example.com") && rb == Record("b", "A", "1.2.3.4")
    ensures "a CNAME example.com\nb A 1.2.3.4\n# comment\n\n"
      == Render(ra) + "\n" + (Render(rb) + "\n" + ("#" + " comment" + "\n" + ("" + "\n" + "")))
  {
    RenderLiteral("a", "CNAME", "example.com", "a CNAME example.com");
    RenderLiteral("b", "A", "1.2.3.4", "b A 1.2.3.4");
    ScenarioText();
  }

  lemma ScenarioDeclarable()
    ensures Declarable(Record("a", "CNAME", "example.com"))
    ensures Declarable(Record("b", "A", "1.2.3.4"))
  {
    LiteralDeclarable("a", "CNAME", "example.com");
    LiteralDeclarable("b", "A", "1.2.3.4");
  }

  /** A record with a one-letter name and dotted alphanumeric content is declarable. */
  lemma LiteralDeclarable(name: string, rtype: string, content: string)
    requires |name| == 1 && IsAsciiAlnum(name[0]) && (rtype == "CNAME" || rtype == "A")
    requires |content| > 0 && IsAsciiAlnum(content[|content| - 1])
    requires forall k :: 0 <= k < |content| ==> IsAsciiAlnum(content[k]) || content[k] == '.'
    ensures Declarable(Record(name, rtype, content))
  {
  }

  /** The two-record scenario file spelled as its lines and separators. */
  lemma ScenarioText()
    ensures "a CNAME example.com\nb A 1.2.3.4\n# comment\n\n"
      == "a CNAME example.com" + "\n" + ("b A 1.2.3.4" + "\n" + ("#" + " comment" + "\n" + ("" + "\n" + "")))
  {
  }

  /** A record's line spelled as a literal. */
  lemma RenderLiteral(name: string, rtype: string, content: string, line: string)
    requires line == name + " " + rtype + " " + content
    ensures Render(Record(name, rtype, content)) == line
  {
    JoinThree(name, rtype, content, ' ');
  }

  /**
   * A comment-only line followed by two record lines, the last without a
   * final newline, parses to the two records.
   */
  lemma CommentThenTwoRecords(comment: string, a: Record, b: Record)
    requires Declarable(a) && Declarable(b) && '\n' !in comment
    ensures Parse("#" + comment + "\n" + (Render(a) + "\n" + Render(b))) == Success([a, b])
  {
    CommentThenTwoRecordsLines(comment, a, b);
    CommentThenTwoRecordsParse(comment, a, b);
  }

  lemma CommentThenTwoRecordsLines(comment: string, a: Record, b: Record)
    requires Declarable(a) && Declarable(b) && '\n' !in comment
    ensures Split("#" + comment + "\n" + (Render(a) + "\n" + Render(b)), '\n')
      == ["#" + comment] + ([Render(a)] + [Render(b)])
  {
    RenderAvoids(a, '\n');
    RenderAvoids(b, '\n');
    SplitAround("#" + comment, Render(a) + "\n" + Render(b), '\n');
    SplitAround(Render(a), Render(b), '\n');
    SplitFree("#" + comment, '\n');
    SplitFree(Render(a), '\n');
    SplitFree(Render(b), '\n');
  }

  lemma CommentThenTwoRecordsParse(comment: string, a: Record, b: Record)
    requires Declarable(a) && Declarable(b)
    ensures ParseLines(["#" + comment] + ([Render(a)] + [Render(b)])) == Success([a, b])
  {
    var none: seq<string> := [];
    assert |Outcomes(ParseLine, none)| == 0;
    assert ParseLines(none) == Success([]);
    RecordLineCons(b, none, []);
    assert [Render(b)] + none == [Render(b)] && [b] + [] == [b];
    var two := [Render(a)] + [Render(b)];
    RecordLineCons(a, [Render(b)], [b]);
    assert [a] + [b] == [a, b];
    assert ParseLines(two) == Success([a, b]);
    CommentOnlyLine(comment);
    ParseLinesSkip("#" + comment, two);
  }

  /**
   * The example of `parse`'s own documentation: `# a comment`,
   * `a CNAME example.com`, `b A example.com`.
   */
  lemma ScenarioDocumented()
    ensures Parse("# a comment\na CNAME example.com\nb A example.com")
      == Success([Record("a", "CNAME", "example.com"), Record("b", "A", "example.com")])
  {
    var ra := Record("a", "CNAME", "example.com");
    var rb := Record("b", "A", "example.com");
    DocumentedDeclarable();
    CommentThenTwoRecords(" a comment", ra, rb);
    DocumentedLayout(ra, rb);
  }

  lemma DocumentedDeclarable()
    ensures Declarable(Record("a", "CNAME", "example.com"))
    ensures Declarable(Record("b", "A", "example.com"))
  {
    LiteralDeclarable("a", "CNAME", "example.com");
    LiteralDeclarable("b", "A", "example.com");
  }

  /** The documented file is a comment line and the two records' lines. */
  lemma DocumentedLayout(ra: Record, rb: Record)
    requires ra == Record("a", "CNAME", "example.com") && rb == Record("b", "A", "example.com")
    ensures "# a comment\na CNAME example.com\nb A example.com"
      == "#" + " a comment" + "\n" + (Render(ra) + "\n" + Render(rb))
  {
    RenderLiteral("a", "CNAME", "example.com", "a CNAME example.com");
    RenderLiteral("b", "A", "example.com", "b A example.com");
    DocumentedText();
  }

  lemma DocumentedText()
    ensures "# a comment\na CNAME example.com\nb A example.com"
      == "#" + " a comment" + "\n" + ("a CNAME example.com" + "\n" + "b A example.com")
  {
    DocumentedHeader();
    DocumentedBody();
    DocumentedJoin();
  }

  lemma DocumentedHeader()
    ensures "#" + " a comment" + "\n" == "# a comment\n"
  {
  }

  lemma DocumentedBody()
    ensures "a CNAME example.com" + "\n" + "b A example.com" == "a CNAME example.com\nb A example.com"
  {
  }

  lemma DocumentedJoin()
    ensures "# a comment\n" + "a CNAME example.com\nb A example.com"
      == "# a comment\na CNAME example.com\nb A example.com"
  {
  }

  /** A line with two fields is an unpacking error. */
  lemma ScenarioTwoFields()
    ensures ParseLine("a CNAME") == Failure(Unpack(2))
  {
    CleanLineKeeps("a CNAME");
    TwoFieldsSplit();
  }

  lemma TwoFieldsSplit()
    ensures Split("a CNAME", ' ') == ["a", "CNAME"]
  {
    assert "a CNAME" == "a" + [' '] + "CNAME";
    SplitAround("a", "CNAME", ' ');
    SplitFree("a", ' ');
    SplitFree("CNAME", ' ');
  }

  /** A name with a character outside `[a-zA-Z0-9]` fails the name rule. */
  lemma ScenarioBadName()
    ensures ParseLine("bad! A example.com") == Failure(Mismatch("bad! A example.com", "bad!", NameRule))
  {
    var line := "bad! A example.com";
    CleanLineKeeps(line);
    BadNameSplit();
    BadNameRules();
    MismatchedLine(line, Record("bad!", "A", "example.com"), NameRule);
  }

  /** A clean line whose three fields break a rule raises that rule's mismatch. */
  lemma MismatchedLine(line: string, rec: Record, rule: Rule)
    requires line != [] && CleanLine(line) == line
    requires Split(line, ' ') == [rec.name, rec.rtype, rec.content]
    requires FirstMismatch(rec) == Some(rule)
    ensures ParseLine(line) == Failure(Mismatch(line, FieldOf(rec, rule), rule))
  {
  }

  lemma BadNameRules()
    ensures FirstMismatch(Record("bad!", "A", "example.com")) == Some(NameRule)
  {
    assert !IsAsciiAlnum("bad!"[3]);
    assert Matches(TypeRule, "A");
    assert !Matches(NameRule, "bad!");
  }

  lemma BadNameSplit()
    ensures Split("bad! A example.com", ' ') == ["bad!", "A", "example.com"]
  {
    BadNameText();
    SplitThree("bad!", "A", "example.com");
  }

  lemma BadNameText()
    ensures "bad! A example.com" == "bad!" + " " + "A" + " " + "example.com"
  {
  }
}
