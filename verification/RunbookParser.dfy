/** The runbook compiler's Markdown parser (services/operator/internal/compiler/parser.go):
    a one-pass state machine over lines. */
module RunbookParser {
  import opened Text

  datatype RunbookScope = RunbookScope(namespaces: seq<string>, resources: seq<string>)

  datatype DiagnosisEntry = DiagnosisEntry(name: string, command: string)

  datatype ParsedStep = ParsedStep(name: string, action: string, target: string, risk: string, autoApprove: bool)

  datatype ParsedRunbook = ParsedRunbook(
    title: string,
    scope: RunbookScope,
    severity: seq<string>,
    allowedTools: seq<string>,
    forbidden: seq<string>,
    diagnosis: seq<DiagnosisEntry>,
    remediation: seq<ParsedStep>,
    rollback: seq<ParsedStep>)

  datatype ParseError = InvalidSyntax | MissingRollback

  /** The parser's local variables between two lines. */
  datatype Cursor = Cursor(section: string, sub: string, inCode: bool, code: string, rb: ParsedRunbook)

  const FENCE := "```"

  predicate IsFence(line: string) { FENCE <= Trim(line) }

  function NewStep(name: string): ParsedStep { ParsedStep(name, "", "", "", false) }

  function EmptyRunbook(title: string): ParsedRunbook {
    ParsedRunbook(title, RunbookScope([], []), [], [], [], [], [], [])
  }

  function TrimEach(parts: seq<string>): seq<string> { SeqMap(Trim, parts) }

  function ParseScopeLine(line: string, scope: RunbookScope): RunbookScope {
    var s1 :=
      if "- Namespaces:" <= line
      then scope.(namespaces := scope.namespaces + TrimEach(Split(line[|"- Namespaces:"|..], ',')))
      else scope;
    if "- Resources:" <= line
    then s1.(resources := s1.resources + TrimEach(Split(line[|"- Resources:"|..], ',')))
    else s1
  }

  function SetField(step: ParsedStep, key: string, val: string): ParsedStep {
    match key
    case "action" => step.(action := val)
    case "target" => step.(target := val)
    case "risk" => step.(risk := val)
    case "autoapprove" => step.(autoApprove := Lower(val) == "true")
    case _ => step
  }

  /** Merges one "- Key: Value" line into a step; a line without a colon or with an unknown key changes nothing. */
  function MergeStep(step: ParsedStep, line: string): ParsedStep {
    match Cut(if "- " <= line then line[2..] else line, ':')
    case None => step
    case Some((rawKey, rawVal)) =>
      SetField(step, Trim(Lower(rawKey)), Trim(rawVal))
  }

  function FindStepIndex(steps: seq<ParsedStep>, name: string): (idx: int)
    ensures -1 <= idx < |steps|
    ensures idx >= 0 ==> steps[idx].name == name
    ensures forall j :: 0 <= j < (if idx < 0 then |steps| else idx) ==> steps[j].name != name
  {
    if steps == [] then -1
    else if steps[0].name == name then 0
    else
      var i := FindStepIndex(steps[1..], name);
      if i < 0 then -1 else i + 1
  }

  /** What a bullet does to the step list of its section. */
  function MergeBullet(steps: seq<ParsedStep>, sub: string, line: string): seq<ParsedStep> {
    if "- " <= line && sub != "" then
      var idx := FindStepIndex(steps, sub);
      if idx >= 0 then steps[idx := MergeStep(steps[idx], line)]
      else steps + [MergeStep(NewStep(sub), line)]
    else steps
  }

  /** A content line: neither fence, fenced text nor heading. */
  function Content(section: string, sub: string, trimmed: string, rb: ParsedRunbook): ParsedRunbook {
    if section == "scope" then rb.(scope := ParseScopeLine(trimmed, rb.scope))
    else if section == "severity" then
      if trimmed != "" then rb.(severity := rb.severity + TrimEach(Split(trimmed, ','))) else rb
    else if section == "allowed tools" then
      if "- " <= trimmed then rb.(allowedTools := rb.allowedTools + [trimmed[2..]]) else rb
    else if section == "forbidden tools" then
      if "- " <= trimmed then rb.(forbidden := rb.forbidden + [trimmed[2..]]) else rb
    else if section == "remediation" then rb.(remediation := MergeBullet(rb.remediation, sub, trimmed))
    else if section == "rollback" then rb.(rollback := MergeBullet(rb.rollback, sub, trimmed))
    else rb
  }

  function Step(c: Cursor, line: string): Cursor {
    var trimmed := Trim(line);
    if FENCE <= trimmed then
      if c.inCode then
        var rb :=
          if c.section == "diagnosis" && c.sub != ""
          then c.rb.(diagnosis := c.rb.diagnosis + [DiagnosisEntry(c.sub, Trim(c.code))])
          else c.rb;
        Cursor(c.section, c.sub, false, "", rb)
      else c.(inCode := true)
    else if c.inCode then c.(code := c.code + line + "\n")
    else if "## " <= trimmed then c.(section := Lower(trimmed[3..]), sub := "")
    else if "### " <= trimmed then c.(sub := trimmed[4..])
    else c.(rb := Content(c.section, c.sub, trimmed, c.rb))
  }

  function Run(c: Cursor, lines: seq<string>): Cursor
    decreases |lines|
  {
    if lines == [] then c else Run(Step(c, lines[0]), lines[1..])
  }

  function Start(title: string): Cursor { Cursor("", "", false, "", EmptyRunbook(title)) }

  function Finish(rb: ParsedRunbook): Result<ParsedRunbook, ParseError> {
    if rb.rollback == [] then Err(MissingRollback) else Ok(rb)
  }

  function ParseLines(lines: seq<string>): Result<ParsedRunbook, ParseError>
    requires |lines| >= 1
  {
    if "# " <= lines[0] then Finish(Run(Start(lines[0][2..]), lines[1..]).rb) else Err(InvalidSyntax)
  }

  /** The specification of ParseMarkdown; the theorems about the parser are about this function. */
  function Parse(text: string): Result<ParsedRunbook, ParseError> {
    ParseLines(Split(text, '\n'))
  }

  method ParseMarkdown(text: string) returns (r: Result<ParsedRunbook, ParseError>)
    ensures r == Parse(text)
  {
    var lines := Split(text, '\n');
    if !("# " <= lines[0]) {
      return Err(InvalidSyntax);
    }
    var rb := EmptyRunbook(lines[0][2..]);
    var currentSection, currentSubsection := "", "";
    var inCodeBlock := false;
    var codeBlockContent := "";
    var i := 1;
    while i < |lines|
      invariant 1 <= i <= |lines|
      invariant Run(Cursor(currentSection, currentSubsection, inCodeBlock, codeBlockContent, rb), lines[i..])
             == Run(Start(lines[0][2..]), lines[1..])
    {
      var line := lines[i];
      assert lines[i..][0] == line && lines[i..][1..] == lines[i + 1..];
      i := i + 1;
      var trimmed := Trim(line);
      if FENCE <= trimmed {
        if inCodeBlock {
          if currentSection == "diagnosis" && currentSubsection != "" {
            rb := rb.(diagnosis := rb.diagnosis + [DiagnosisEntry(currentSubsection, Trim(codeBlockContent))]);
          }
          codeBlockContent := "";
          inCodeBlock := false;
        } else {
          inCodeBlock := true;
        }
        continue;
      }
      if inCodeBlock {
        codeBlockContent := codeBlockContent + line + "\n";
        continue;
      }
      if "## " <= trimmed {
        currentSection := Lower(trimmed[3..]);
        currentSubsection := "";
        continue;
      }
      if "### " <= trimmed {
        currentSubsection := trimmed[4..];
        continue;
      }
      match currentSection {
        case "scope" =>
          rb := rb.(scope := ParseScopeLine(trimmed, rb.scope));
        case "severity" =>
          if trimmed != "" {
            rb := rb.(severity := rb.severity + TrimEach(Split(trimmed, ',')));
          }
        case "allowed tools" =>
          if "- " <= trimmed {
            rb := rb.(allowedTools := rb.allowedTools + [trimmed[2..]]);
          }
        case "forbidden tools" =>
          if "- " <= trimmed {
            rb := rb.(forbidden := rb.forbidden + [trimmed[2..]]);
          }
        case "remediation" =>
          if "- " <= trimmed && currentSubsection != "" {
            var idx := FindStepIndex(rb.remediation, currentSubsection);
            if idx >= 0 {
              rb := rb.(remediation := rb.remediation[idx := MergeStep(rb.remediation[idx], trimmed)]);
            } else {
              rb := rb.(remediation := rb.remediation + [MergeStep(NewStep(currentSubsection), trimmed)]);
            }
          }
        case "rollback" =>
          if "- " <= trimmed && currentSubsection != "" {
            var idx := FindStepIndex(rb.rollback, currentSubsection);
            if idx >= 0 {
              rb := rb.(rollback := rb.rollback[idx := MergeStep(rb.rollback[idx], trimmed)]);
            } else {
              rb := rb.(rollback := rb.rollback + [MergeStep(NewStep(currentSubsection), trimmed)]);
            }
          }
        case _ =>
      }
    }
    if rb.rollback == [] {
      return Err(MissingRollback);
    }
    return Ok(rb);
  }

  lemma {:induction false} RunConcat(c: Cursor, a: seq<string>, b: seq<string>)
    ensures Run(c, a + b) == Run(Run(c, a), b)
    decreases |a|
  {
    if a == [] {
      assert a + b == b;
    } else {
      assert (a + b)[1..] == a[1..] + b;
      RunConcat(Step(c, a[0]), a[1..], b);
    }
  }
}
