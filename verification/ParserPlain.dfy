/** What the runbook parser (services/operator/internal/compiler/parser.go) makes of texts written out line by line. */
module ParserPlain {
  import opened Text
  import opened RunbookParser
  import opened NormalForm

  // ---------------------------------------------------------------- one line

  lemma OneStepRun(c: Cursor, line: string, rest: seq<string>)
    ensures Run(c, [line] + rest) == Run(Step(c, line), rest)
  {
    assert ([line] + rest)[1..] == rest;
  }

  lemma FenceOpens(c: Cursor, line: string)
    requires !c.inCode && "```" <= Trim(line)
    ensures Step(c, line) == c.(inCode := true)
  {}

  lemma FenceCloses(sub: string, rb: ParsedRunbook, code: string, line: string)
    requires sub != "" && "```" <= Trim(line)
    ensures Step(Cursor("diagnosis", sub, true, code, rb), line)
         == CursorAt("diagnosis", sub, rb.(diagnosis := rb.diagnosis + [DiagnosisEntry(sub, Trim(code))]))
  {}

  lemma {:induction false} FencedRun(c: Cursor, lines: seq<string>, rest: seq<string>)
    requires c.inCode && forall l <- lines :: !("```" <= Trim(l))
    ensures Run(c, lines + rest) == Run(c.(code := c.code + Lines(lines)), rest)
  {
    forall l | l in lines ensures !IsFence(l) {}
    FencedLines(c, lines);
    RunConcat(c, lines, rest);
  }

  lemma SectionRun(c: Cursor, title: string, rest: seq<string>)
    requires Outside(c) && Clean(title) && title != ""
    ensures Run(c, ["## " + title] + rest) == Run(CursorAt(Lower(title), "", c.rb), rest)
  {
    SectionLine(c, title);
    RunConcat(c, ["## " + title], rest);
  }

  lemma SubsectionRun(c: Cursor, name: string, rest: seq<string>)
    requires Outside(c) && LineRest(name)
    ensures Run(c, ["### " + name] + rest) == Run(CursorAt(c.section, name, c.rb), rest)
  {
    SubsectionLine(c, name);
    RunConcat(c, ["### " + name], rest);
  }

  // ---------------------------------------------------------------- a bullet

  /** The step that one "- key:value" line makes: keys in any case and spacing, values trimmed. */
  function StepOf(name: string, key: string, val: string): ParsedStep {
    var k, v := Trim(Lower(key)), Trim(val);
    ParsedStep(name, if k == "action" then v else "", if k == "target" then v else "", if k == "risk" then v else "",
               k == "autoapprove" && Lower(v) == "true")
  }

  lemma BulletMerges(name: string, key: string, val: string)
    requires ':' !in key
    ensures MergeStep(NewStep(name), "- " + key + ":" + val) == StepOf(name, key, val)
  {
    hide Trim, Lower, Cut;
    var line := "- " + key + ":" + val;
    assert line[2..] == key + [':'] + val;
    CutAtFirst(key, ':', val);
    FalseIsNotTrue();
  }

  lemma FalseIsNotTrue()
    ensures Lower("") != "true"
  {}

  lemma RollbackBullet(undo: string, rb: ParsedRunbook, key: string, val: string)
    requires undo != "" && rb.rollback == [] && ':' !in key
    requires Trimmed("- " + key + ":" + val)
    ensures Run(CursorAt("rollback", undo, rb), ["- " + key + ":" + val])
         == CursorAt("rollback", undo, rb.(rollback := [StepOf(undo, key, val)]))
  {
    hide MergeStep, StepOf;
    var line := "- " + key + ":" + val;
    BulletMerges(undo, key, val);
    TrimOfTrimmed(line);
    assert line[0] == '-' && line[..2] == "- ";
    OneStepRun(CursorAt("rollback", undo, rb), line, []);
    assert [line] + [] == [line];
    assert [] + [MergeStep(NewStep(undo), line)] == [StepOf(undo, key, val)];
  }

  /** The last lines of a text that has a rollback. */
  function RollbackLines(undo: string, key: string, val: string): seq<string> {
    ["## Rollback", "### " + undo, "- " + key + ":" + val]
  }

  lemma RollbackRun(c: Cursor, undo: string, key: string, val: string)
    requires Outside(c) && c.rb.rollback == [] && LineRest(undo) && ':' !in key && Trimmed("- " + key + ":" + val)
    ensures Run(c, RollbackLines(undo, key, val)).rb == c.rb.(rollback := [StepOf(undo, key, val)])
  {
    hide Run, StepOf, Trimmed;
    var line := "- " + key + ":" + val;
    assert "## " + "Rollback" == "## Rollback";
    assert RollbackLines(undo, key, val) == ["## " + "Rollback"] + (["### " + undo] + [line]);
    RollbackTitle();
    SectionRun(c, "Rollback", ["### " + undo] + [line]);
    var c1 := CursorAt("rollback", "", c.rb);
    SubsectionRun(c1, undo, [line]);
    RollbackBullet(undo, c.rb, key, val);
  }

  lemma RollbackTitle()
    ensures Lower("Rollback") == "rollback" && Clean("Rollback")
  {}

  lemma DiagnosisTitle()
    ensures Lower("Diagnosis") == "diagnosis" && Clean("Diagnosis") && "## " + "Diagnosis" == "## Diagnosis"
  {}

  // ---------------------------------------------------------------- a fenced block

  /** A white-space character at the end does not change the trimmed text. */
  lemma TrimDropsLast(s: string, c: char)
    requires IsSpace(c)
    ensures Trim(s + [c]) == Trim(s)
  {
    var t := s + [c];
    TrimLeftAppends(s, c);
    if TrimLeft(s) != "" {
      assert TrimLeft(t)[..|TrimLeft(t)| - 1] == TrimLeft(s);
    }
  }

  lemma {:induction false} TrimLeftAppends(s: string, c: char)
    requires IsSpace(c)
    ensures TrimLeft(s + [c]) == if TrimLeft(s) == "" then "" else TrimLeft(s) + [c]
  {
    if s == "" {
      assert [c][1..] == "";
      assert s + [c] == [c] && TrimLeft([c]) == TrimLeft([c][1..]);
    } else if IsSpace(s[0]) {
      assert (s + [c])[1..] == s[1..] + [c];
      TrimLeftAppends(s[1..], c);
    }
  }

  lemma TrimOfLines(body: seq<string>)
    ensures Trim(Lines(body)) == Trim(Join(body, '\n'))
  {
    hide Trim;
    if body != [] {
      LinesIsJoin(body);
      assert Join(body, '\n') + "\n" == Join(body, '\n') + ['\n'];
      TrimDropsLast(Join(body, '\n'), '\n');
    }
  }

  /** A fenced block under a subheading of the diagnosis, whatever its lines say, is one entry. */
  lemma BlockRun(c: Cursor, name: string, open: string, body: seq<string>, close: string, rest: seq<string>)
    requires Outside(c) && LineRest(name)
    requires "```" <= Trim(open) && "```" <= Trim(close) && forall l <- body :: !("```" <= Trim(l))
    ensures Run(c, ["## Diagnosis"] + (["### " + name] + ([open] + (body + ([close] + rest)))))
         == Run(CursorAt("diagnosis", name,
                  c.rb.(diagnosis := c.rb.diagnosis + [DiagnosisEntry(name, Trim(Join(body, '\n')))])), rest)
  {
    hide Run, Step, Trim;
    DiagnosisTitle();
    var l3 := body + ([close] + rest);
    var l2 := [open] + l3;
    SectionRun(c, "Diagnosis", ["### " + name] + l2);
    var c1 := CursorAt("diagnosis", "", c.rb);
    SubsectionRun(c1, name, l2);
    var c2 := CursorAt("diagnosis", name, c.rb);
    OneStepRun(c2, open, l3);
    FenceOpens(c2, open);
    FencedRun(c2.(inCode := true), body, [close] + rest);
    assert "" + Lines(body) == Lines(body);
    OneStepRun(Cursor("diagnosis", name, true, Lines(body), c.rb), close, rest);
    FenceCloses(name, c.rb, Lines(body), close);
    TrimOfLines(body);
  }

  lemma ActionBullet(undo: string, action: string)
    requires LineRest(action) && LeftTrimmed(action)
    ensures StepOf(undo, "Action", " " + action) == ParsedStep(undo, action, "", "", false)
    ensures ':' !in "Action" && Trimmed("- " + "Action" + ":" + (" " + action))
  {
    var line := "- " + "Action" + ":" + (" " + action);
    assert line[|line| - 1] == action[|action| - 1] && line[0] == '-';
    assert Lower("Action") == "action";
    TrimOfTrimmed("action");
    assert (" " + action)[1..] == action && TrimLeft(" " + action) == TrimLeft(action);
    TrimOfTrimmed(action);
  }

  /** A text with one fenced block under a diagnosis subheading and a rollback has exactly one diagnosis entry: the
      subheading and the trimmed text of the block. Headings, bullets and anything else inside the block count for
      nothing, and the rest of the runbook is what the other lines say. */
  lemma BlockIsOneEntry(title: string, name: string, open: string, body: seq<string>, close: string, undo: string,
                        action: string)
    requires OneLine([title, open, close] + body)
    requires LineRest(name) && LineRest(undo) && LineRest(action) && LeftTrimmed(action)
    requires "```" <= Trim(open) && "```" <= Trim(close) && forall l <- body :: !("```" <= Trim(l))
    ensures Parse(Join(["# " + title, "## Diagnosis", "### " + name, open] + body
                       + [close, "## Rollback", "### " + undo, "- Action: " + action], '\n'))
         == Ok(ParsedRunbook(title, RunbookScope([], []), [], [], [],
                             [DiagnosisEntry(name, Trim(Join(body, '\n')))], [],
                             [ParsedStep(undo, action, "", "", false)]))
  {
    hide Run, Step, Trim, StepOf, Join, Split, Trimmed;
    var lines := ["# " + title, "## Diagnosis", "### " + name, open] + body
                 + [close, "## Rollback", "### " + undo, "- Action: " + action];
    var tail := RollbackLines(undo, "Action", " " + action);
    assert "- " + "Action" + ":" + (" " + action) == "- Action: " + action;
    assert lines[1..] == ["## Diagnosis"] + (["### " + name] + ([open] + (body + ([close] + tail))));
    BlockLinesOk(title, name, open, body, close, undo, action);
    SplitJoin(lines, '\n');
    var c := Start(title);
    BlockRun(c, name, open, body, close, tail);
    ActionBullet(undo, action);
    var entry := DiagnosisEntry(name, Trim(Join(body, '\n')));
    assert [] + [entry] == [entry];
    RollbackRun(CursorAt("diagnosis", name, c.rb.(diagnosis := [entry])), undo, "Action", " " + action);
    TitleRest(title);
  }

  lemma TitleRest(title: string)
    ensures "# " <= "# " + title && ("# " + title)[2..] == title
  {}

  lemma BlockLinesOk(title: string, name: string, open: string, body: seq<string>, close: string, undo: string,
                     action: string)
    requires OneLine([title, open, close] + body) && LineRest(name) && LineRest(undo) && LineRest(action)
    ensures var lines := ["# " + title, "## Diagnosis", "### " + name, open] + body
                         + [close, "## Rollback", "### " + undo, "- Action: " + action];
      forall l <- lines :: '\n' !in l
  {
    var all := [title, open, close] + body;
    assert all[0] == title && all[1] == open && all[2] == close;
    assert forall l <- body :: l in all;
  }

  // ---------------------------------------------------------------- one field

  /** What one line under a rollback subheading says: the text up to the first colon, lower-cased and trimmed, names
      the field, and the rest of the line, trimmed, is its value; other names are ignored. */
  lemma OneField(title: string, undo: string, key: string, val: string)
    requires '\n' !in title && LineRest(undo) && ':' !in key && Clean("- " + key + ":" + val)
    ensures var k, v := Trim(Lower(key)), Trim(val);
      Parse(Join(["# " + title, "## Rollback", "### " + undo, "- " + key + ":" + val], '\n'))
      == Ok(ParsedRunbook(title, RunbookScope([], []), [], [], [], [], [],
              [ParsedStep(undo, if k == "action" then v else "", if k == "target" then v else "",
                          if k == "risk" then v else "", k == "autoapprove" && Lower(v) == "true")]))
  {
    hide Run, Step, Trim, Join, Split, Lower;
    var line := "- " + key + ":" + val;
    var lines := ["# " + title, "## Rollback", "### " + undo, line];
    assert lines[1..] == RollbackLines(undo, key, val);
    assert forall l <- lines :: '\n' !in l;
    SplitJoin(lines, '\n');
    TitleRest(title);
    RollbackRun(Start(title), undo, key, val);
  }

  // ---------------------------------------------------------------- a whole document

  /** Every section of a runbook, written out. */
  lemma DocumentMeans(title: string, ns: seq<string>, resource: string, severity: seq<string>, tools: seq<string>,
                      banned: string, check: string, command: string, step: ParsedStep, undo: ParsedStep)
    requires |ns| == 2 && |severity| == 2 && |tools| == 2 && step.autoApprove && !undo.autoApprove
    requires '\n' !in title && Item(ns[0]) && Item(ns[1]) && Item(resource)
    requires NormalSeverity(severity) && LineRest(tools[0]) && LineRest(tools[1]) && LineRest(banned)
    requires LineRest(check) && Clean(command) && !("```" <= Trim(command))
    requires LineRest(step.name) && CleanStep(step) && LineRest(undo.name) && CleanStep(undo)
    ensures Parse(Join(["# " + title] + (
        ["## Scope", "- Namespaces:" + ns[0] + "," + ns[1], "- Resources:" + resource] + (
          ["## Severity", severity[0] + "," + severity[1]] + (
            ["## Allowed Tools", "- " + tools[0], "- " + tools[1]] + (
              ["## Forbidden Tools", "- " + banned] + (
                ["## Diagnosis", "### " + check, "```", command, "```"] + (
                  ["## Remediation", "### " + step.name, "- Action:" + step.action, "- Target:" + step.target,
                   "- Risk:" + step.risk, "- AutoApprove:true"] +
                  ["## Rollback", "### " + undo.name, "- Action:" + undo.action, "- Target:" + undo.target,
                   "- Risk:" + undo.risk, "- AutoApprove:false"])))))), '\n'))
      == Ok(ParsedRunbook(title, RunbookScope(ns, [resource]), severity, tools, [banned],
                          [DiagnosisEntry(check, command)], [step], [undo]))
  {
    var rb := ParsedRunbook(title, RunbookScope(ns, [resource]), severity, tools, [banned],
                            [DiagnosisEntry(check, command)], [step], [undo]);
    hide Parse, Join, NormalParts, Trim, Body;
    assert ns == [ns[0], ns[1]] && severity == [severity[0], severity[1]] && tools == [tools[0], tools[1]];
    DocumentNormal(rb);
    RoundTrip(rb);
    DocumentLines(rb);
  }

  lemma DocumentNormal(rb: ParsedRunbook)
    requires |rb.scope.namespaces| == 2 && |rb.scope.resources| == 1 && |rb.allowedTools| == 2 && |rb.forbidden| == 1
    requires |rb.diagnosis| == 1 && |rb.remediation| == 1 && |rb.rollback| == 1
    requires '\n' !in rb.title && Item(rb.scope.namespaces[0]) && Item(rb.scope.namespaces[1])
    requires Item(rb.scope.resources[0])
    requires NormalSeverity(rb.severity) && LineRest(rb.allowedTools[0]) && LineRest(rb.allowedTools[1])
    requires LineRest(rb.forbidden[0]) && LineRest(rb.diagnosis[0].name)
    requires Clean(rb.diagnosis[0].command) && !("```" <= Trim(rb.diagnosis[0].command))
    requires LineRest(rb.remediation[0].name) && CleanStep(rb.remediation[0])
    requires LineRest(rb.rollback[0].name) && CleanStep(rb.rollback[0])
    ensures Normal(rb)
  {
    hide LineRest, CleanStep, Trim, Item, NormalSeverity;
    SplitWithoutSeparator(rb.diagnosis[0].command, '\n');
  }

  lemma ScopeWritten(scope: RunbookScope)
    requires |scope.namespaces| == 2 && |scope.resources| == 1
    ensures Section("Scope", ScopeLines(scope))
         == ["## Scope", "- Namespaces:" + scope.namespaces[0] + "," + scope.namespaces[1],
             "- Resources:" + scope.resources[0]]
  {
    var a, b := scope.namespaces[0], scope.namespaces[1];
    TwoJoined(scope.namespaces);
    assert Join(scope.resources, ',') == scope.resources[0];
    assert "- Namespaces:" + (a + "," + b) == "- Namespaces:" + a + "," + b;
    assert "## " + "Scope" == "## Scope";
  }

  lemma TwoJoined(items: seq<string>)
    requires |items| == 2
    ensures Join(items, ',') == items[0] + "," + items[1]
  {
    assert items[1..] == [items[1]];
  }

  lemma SeverityWritten(items: seq<string>)
    requires |items| == 2
    ensures Section("Severity", ListLine("", items)) == ["## Severity", items[0] + "," + items[1]]
  {
    TwoJoined(items);
    assert "## " + "Severity" == "## Severity" && "" + Join(items, ',') == Join(items, ',');
  }

  lemma ToolsWritten(allowed: seq<string>, forbidden: seq<string>)
    requires |allowed| == 2 && |forbidden| == 1
    ensures Section("Allowed Tools", BulletLines(allowed)) == ["## Allowed Tools", "- " + allowed[0], "- " + allowed[1]]
    ensures Section("Forbidden Tools", BulletLines(forbidden)) == ["## Forbidden Tools", "- " + forbidden[0]]
  {
    assert "## " + "Allowed Tools" == "## Allowed Tools" && "## " + "Forbidden Tools" == "## Forbidden Tools";
    assert allowed[1..][0] == allowed[1] && allowed[1..][1..] == [] && forbidden[1..] == [];
    assert BulletLines(allowed[1..]) == ["- " + allowed[1]] + BulletLines([]);
  }

  lemma DiagnosisWritten(ds: seq<DiagnosisEntry>)
    requires |ds| == 1 && '\n' !in ds[0].command
    ensures Section("Diagnosis", DiagnosisLines(ds))
         == ["## Diagnosis", "### " + ds[0].name, "```", ds[0].command, "```"]
  {
    SplitWithoutSeparator(ds[0].command, '\n');
    assert "## " + "Diagnosis" == "## Diagnosis" && ds[1..] == [];
    assert EntryLines(ds[0]) == ["### " + ds[0].name, "```", ds[0].command, "```"];
  }

  lemma StepWritten(s: ParsedStep)
    ensures OneStep(s) == ["### " + s.name, "- Action:" + s.action, "- Target:" + s.target, "- Risk:" + s.risk,
                           if s.autoApprove then "- AutoApprove:true" else "- AutoApprove:false"]
  {
    assert "- " + "Action" + ":" == "- Action:" && "- " + "Target" + ":" == "- Target:";
    assert "- " + "Risk" + ":" == "- Risk:" && "- " + "AutoApprove" + ":" == "- AutoApprove:";
    assert "- AutoApprove:" + "true" == "- AutoApprove:true" && "- AutoApprove:" + "false" == "- AutoApprove:false";
  }

  lemma StepsWritten(title: string, steps: seq<ParsedStep>)
    requires |steps| == 1
    ensures Section(title, StepLines(steps)) == ["## " + title] + OneStep(steps[0])
  {
    hide OneStep;
    assert steps[1..] == [];
    assert StepLines(steps) == OneStep(steps[0]) + StepLines([]);
  }

  lemma StepSections(rb: ParsedRunbook)
    requires |rb.remediation| == 1 && |rb.rollback| == 1
    ensures Section("Remediation", StepLines(rb.remediation)) == ["## Remediation"] + OneStep(rb.remediation[0])
    ensures Section("Rollback", StepLines(rb.rollback)) == ["## Rollback"] + OneStep(rb.rollback[0])
  {
    hide StepLines, OneStep, Section;
    StepsWritten("Remediation", rb.remediation);
    StepsWritten("Rollback", rb.rollback);
    assert "## " + "Remediation" == "## Remediation" && "## " + "Rollback" == "## Rollback";
  }

  lemma DocumentLines(rb: ParsedRunbook)
    requires |rb.scope.namespaces| == 2 && |rb.scope.resources| == 1 && |rb.severity| == 2
    requires |rb.allowedTools| == 2 && |rb.forbidden| == 1
    requires |rb.diagnosis| == 1 && '\n' !in rb.diagnosis[0].command
    requires |rb.remediation| == 1 && rb.remediation[0].autoApprove
    requires |rb.rollback| == 1 && !rb.rollback[0].autoApprove
    ensures var step, undo := rb.remediation[0], rb.rollback[0];
      Body(rb) ==
        ["## Scope", "- Namespaces:" + rb.scope.namespaces[0] + "," + rb.scope.namespaces[1],
         "- Resources:" + rb.scope.resources[0]] + (
          ["## Severity", rb.severity[0] + "," + rb.severity[1]] + (
            ["## Allowed Tools", "- " + rb.allowedTools[0], "- " + rb.allowedTools[1]] + (
              ["## Forbidden Tools", "- " + rb.forbidden[0]] + (
                ["## Diagnosis", "### " + rb.diagnosis[0].name, "```", rb.diagnosis[0].command, "```"] + (
                  ["## Remediation", "### " + step.name, "- Action:" + step.action, "- Target:" + step.target,
                   "- Risk:" + step.risk, "- AutoApprove:true"] +
                  ["## Rollback", "### " + undo.name, "- Action:" + undo.action, "- Target:" + undo.target,
                   "- Risk:" + undo.risk, "- AutoApprove:false"])))))
  {
    hide Section, ScopeLines, ListLine, BulletLines, DiagnosisLines, StepLines, OneStep;
    ScopeWritten(rb.scope);
    SeverityWritten(rb.severity);
    ToolsWritten(rb.allowedTools, rb.forbidden);
    DiagnosisWritten(rb.diagnosis);
    StepWritten(rb.remediation[0]);
    StepWritten(rb.rollback[0]);
    StepSections(rb);
  }

  // ---------------------------------------------------------------- refused texts

  /** A text is refused as invalid exactly when it does not start with "# ". */
  lemma TitleNeeded(text: string)
    ensures Parse(text) == Err(InvalidSyntax) <==> !("# " <= text)
  {
    hide Run, Split;
    FirstLine(text);
  }

  lemma FirstLine(text: string)
    ensures "# " <= Split(text, '\n')[0] <==> "# " <= text
  {
    if |text| >= 2 {
      assert text[1..][1..] == text[2..];
      assert Split(text[1..], '\n')[0] == if text[1] == '\n' then "" else [text[1]] + Split(text[2..], '\n')[0];
    } else if |text| == 1 {
      assert text[1..] == "";
    }
  }
}
