/** Requirement 1.5: a canonical printer for parsed runbooks, the exact set of runbooks a parse
    can produce, and the round trip between the two. */
module NormalForm {
  import opened Text
  import opened RunbookParser

  // ---------------------------------------------------------------- what a parse can produce

  predicate Clean(s: string) { Trimmed(s) && '\n' !in s }

  predicate Item(s: string) { Clean(s) && ',' !in s }

  /** The rest of a bullet or heading line: inked at the end, though perhaps not at the front. */
  predicate LineRest(s: string) { s != "" && RightTrimmed(s) && '\n' !in s }

  predicate Marker(s: string) { FENCE <= s || "## " <= s || "### " <= s }

  predicate FenceFree(s: string) {
    forall l :: l in Split(s, '\n') ==> !IsFence(l)
  }

  predicate NormalSeverity(s: seq<string>) {
    && (forall x :: x in s ==> Item(x))
    && (s != [] ==> !Marker(s[0]))
    && s != [""]
  }

  predicate CleanStep(s: ParsedStep) { Clean(s.action) && Clean(s.target) && Clean(s.risk) }

  predicate NormalSteps(steps: seq<ParsedStep>) {
    && (forall s :: s in steps ==> LineRest(s.name) && CleanStep(s))
    && (forall i, j :: 0 <= i < j < |steps| ==> steps[i].name != steps[j].name)
  }

  predicate NormalEntry(d: DiagnosisEntry) { LineRest(d.name) && Trimmed(d.command) && FenceFree(d.command) }

  /** Everything a run of the parser establishes, whether or not a rollback section was seen. */
  predicate NormalParts(rb: ParsedRunbook) {
    && '\n' !in rb.title
    && (forall x :: x in rb.scope.namespaces ==> Item(x))
    && (forall x :: x in rb.scope.resources ==> Item(x))
    && NormalSeverity(rb.severity)
    && (forall x :: x in rb.allowedTools ==> LineRest(x))
    && (forall x :: x in rb.forbidden ==> LineRest(x))
    && (forall d :: d in rb.diagnosis ==> NormalEntry(d))
    && NormalSteps(rb.remediation)
    && NormalSteps(rb.rollback)
  }

  predicate Normal(rb: ParsedRunbook) { NormalParts(rb) && rb.rollback != [] }

  // ---------------------------------------------------------------- the printer

  function ListLine(tag: string, items: seq<string>): seq<string> {
    if items == [] then [] else [tag + Join(items, ',')]
  }

  function BulletLines(items: seq<string>): seq<string> {
    if items == [] then [] else ["- " + items[0]] + BulletLines(items[1..])
  }

  function EntryLines(d: DiagnosisEntry): seq<string> {
    ["### " + d.name, FENCE] + Split(d.command, '\n') + [FENCE]
  }

  function DiagnosisLines(ds: seq<DiagnosisEntry>): seq<string> {
    if ds == [] then [] else EntryLines(ds[0]) + DiagnosisLines(ds[1..])
  }

  function Field(tag: string, val: string): string { "- " + tag + ":" + val }

  function BoolText(b: bool): string { if b then "true" else "false" }

  function OneStep(s: ParsedStep): seq<string> {
    ["### " + s.name, Field("Action", s.action), Field("Target", s.target), Field("Risk", s.risk),
     Field("AutoApprove", BoolText(s.autoApprove))]
  }

  function StepLines(steps: seq<ParsedStep>): seq<string> {
    if steps == [] then [] else OneStep(steps[0]) + StepLines(steps[1..])
  }

  function Section(title: string, lines: seq<string>): seq<string> { ["## " + title] + lines }

  function ScopeLines(scope: RunbookScope): seq<string> {
    ListLine("- Namespaces:", scope.namespaces) + ListLine("- Resources:", scope.resources)
  }

  function Body(rb: ParsedRunbook): seq<string> {
    Section("Scope", ScopeLines(rb.scope)) + (
      Section("Severity", ListLine("", rb.severity)) + (
        Section("Allowed Tools", BulletLines(rb.allowedTools)) + (
          Section("Forbidden Tools", BulletLines(rb.forbidden)) + (
            Section("Diagnosis", DiagnosisLines(rb.diagnosis)) + (
              Section("Remediation", StepLines(rb.remediation))
              + Section("Rollback", StepLines(rb.rollback)))))))
  }

  function Render(rb: ParsedRunbook): string { Join(["# " + rb.title] + Body(rb), '\n') }

  // ---------------------------------------------------------------- fences and splitting

  lemma {:induction false} TrimLeftPrefix(a: string, b: string)
    requires a <= b && TrimLeft(a) != ""
    ensures TrimLeft(a) <= TrimLeft(b)
  {
    if IsSpace(a[0]) {
      TrimLeftPrefix(a[1..], b[1..]);
    }
  }

  lemma FenceByLeft(l: string)
    ensures IsFence(l) <==> FENCE <= TrimLeft(l)
  {
    TrimKeepsInkedPrefix(TrimLeft(l), FENCE);
  }

  /** Each piece of a starts the piece of b in its place. */
  predicate PiecesStart(a: seq<string>, b: seq<string>) {
    |a| <= |b| && forall i | 0 <= i < |a| :: a[i] <= b[i]
  }

  lemma PiecesPrepend(c: char, a: seq<string>, b: seq<string>)
    requires a != [] && PiecesStart(a, b)
    ensures PiecesStart(Prepend(c, a), Prepend(c, b)) && PiecesStart([""] + a, [""] + b)
  {}

  lemma FirstPieces(b: seq<string>)
    requires b != []
    ensures PiecesStart([""], b)
  {}

  lemma {:induction false} SplitPrefix(t: string, s: string, sep: char)
    requires t <= s
    ensures PiecesStart(Split(t, sep), Split(s, sep))
  {
    hide PiecesStart, Prepend;
    if t == "" {
      FirstPieces(Split(s, sep));
    } else {
      SplitPrefix(t[1..], s[1..], sep);
      PiecesPrepend(t[0], Split(t[1..], sep), Split(s[1..], sep));
    }
  }

  lemma FenceFreePrefix(t: string, s: string)
    requires t <= s && FenceFree(s)
    ensures FenceFree(t)
  {
    SplitPrefix(t, s, '\n');
    forall l | l in Split(t, '\n') ensures !IsFence(l) {
      var i :| 0 <= i < |Split(t, '\n')| && Split(t, '\n')[i] == l;
      var l' := Split(s, '\n')[i];
      assert l' in Split(s, '\n');
      FenceByLeft(l);
      FenceByLeft(l');
      if IsFence(l) { TrimLeftPrefix(l, l'); }
    }
  }

  lemma {:induction false} FenceFreeTrimLeft(s: string)
    requires FenceFree(s)
    ensures FenceFree(TrimLeft(s))
  {
    if s != "" && IsSpace(s[0]) {
      var all, rest := Split(s, '\n'), Split(s[1..], '\n');
      forall l | l in rest ensures !IsFence(l) {
        var i :| 0 <= i < |rest| && rest[i] == l;
        if s[0] == '\n' {
          assert all[i + 1] == l;
        } else if i == 0 {
          assert all[0][0] == s[0] && all[0][1..] == l;
          FenceByLeft(all[0]);
          FenceByLeft(l);
        } else {
          assert all[i] == l;
        }
      }
      FenceFreeTrimLeft(s[1..]);
    }
  }

  /** Trimming fenced text cannot expose a fence line. */
  lemma FenceFreeTrim(s: string)
    requires FenceFree(s)
    ensures FenceFree(Trim(s))
  {
    FenceFreeTrimLeft(s);
    TrimRightProps(TrimLeft(s));
    FenceFreePrefix(Trim(s), TrimLeft(s));
  }

  // ---------------------------------------------------------------- parse results are normal

  predicate CodeOk(code: string) { FenceFree(code) && (code != "" ==> code[|code| - 1] == '\n') }

  predicate CursorOk(c: Cursor) {
    && (c.sub == "" || LineRest(c.sub))
    && (!c.inCode ==> c.code == "")
    && CodeOk(c.code)
    && NormalParts(c.rb)
  }

  lemma CodeOkAppend(code: string, line: string)
    requires CodeOk(code) && '\n' !in line && !IsFence(line)
    ensures CodeOk(code + line + "\n")
  {
    SplitWithoutSeparator(line, '\n');
    SplitAtSeparator(line, '\n', "");
    assert line + ['\n'] + "" == line + "\n";
    if code == "" {
      assert code + line + "\n" == line + "\n";
    } else {
      var before := code[..|code| - 1];
      assert code == before + ['\n'] + "";
      SplitAtSeparator(before, '\n', "");
      SplitAtSeparator(before, '\n', line + "\n");
      assert code + line + "\n" == before + ['\n'] + (line + "\n");
    }
  }

  lemma TrimEachItems(text: string)
    requires '\n' !in text
    ensures forall x :: x in TrimEach(Split(text, ',')) ==> Item(x)
  {
    SplitPieces(text, ',');
    forall x | x in TrimEach(Split(text, ',')) ensures Item(x) {
      var i :| 0 <= i < |Split(text, ',')| && TrimEach(Split(text, ','))[i] == x;
      assert Split(text, ',')[i] in Split(text, ',');
      TrimProps(Split(text, ',')[i]);
    }
  }

  lemma {:induction false} SeverityLine(trimmed: string)
    requires Clean(trimmed) && trimmed != "" && !Marker(trimmed)
    ensures NormalSeverity(TrimEach(Split(trimmed, ',')))
  {
    TrimEachItems(trimmed);
    SplitPieces(trimmed, ',');
    var first := Split(trimmed, ',')[0];
    TrimRightProps(first);
    assert TrimLeft(first) == first;
    TrimOfTrimmed(trimmed);
  }

  lemma SetFieldClean(step: ParsedStep, key: string, val: string)
    requires CleanStep(step) && Clean(val)
    ensures SetField(step, key, val).name == step.name && CleanStep(SetField(step, key, val))
  {
    SetFieldEach(step, key, val);
  }

  lemma SetFieldEach(step: ParsedStep, key: string, val: string)
    ensures var r := SetField(step, key, val);
      && r.name == step.name && (r.action == val || r.action == step.action)
      && (r.target == val || r.target == step.target) && (r.risk == val || r.risk == step.risk)
  {}

  lemma {:induction false} CutClean(body: string)
    requires '\n' !in body
    ensures Cut(body, ':').Some? ==> Clean(Trim(Cut(body, ':').value.1))
  {
    var cut := Cut(body, ':');
    if cut.Some? {
      var (a, val) := cut.value;
      assert body == (a + [':']) + val;
      assert forall i :: 0 <= i < |val| ==> val[i] == body[|a + [':']| + i];
      TrimProps(val);
    }
  }

  lemma MergeStepClean(step: ParsedStep, line: string)
    requires '\n' !in line && CleanStep(step)
    ensures MergeStep(step, line).name == step.name && CleanStep(MergeStep(step, line))
  {
    var body := if "- " <= line then line[2..] else line;
    CutClean(body);
    var cut := Cut(body, ':');
    if cut.Some? {
      SetFieldClean(step, Trim(Lower(cut.value.0)), Trim(cut.value.1));
    }
  }

  lemma MergeBulletNormal(steps: seq<ParsedStep>, sub: string, line: string)
    requires NormalSteps(steps) && (sub == "" || LineRest(sub)) && '\n' !in line
    ensures NormalSteps(MergeBullet(steps, sub, line))
  {
    if "- " <= line && sub != "" {
      var idx := FindStepIndex(steps, sub);
      if idx >= 0 {
        assert steps[idx] in steps;
        MergeStepClean(steps[idx], line);
      } else {
        MergeStepClean(NewStep(sub), line);
      }
    }
  }

  lemma SeverityJoin(a: seq<string>, b: seq<string>)
    requires NormalSeverity(a) && NormalSeverity(b)
    ensures NormalSeverity(a + b)
  {
    if a == [] { assert a + b == b; }
    if b == [] { assert a + b == a; }
  }

  predicate NormalScope(scope: RunbookScope) {
    (forall x :: x in scope.namespaces ==> Item(x)) && (forall x :: x in scope.resources ==> Item(x))
  }

  lemma ScopeLineNormal(trimmed: string, scope: RunbookScope)
    requires NormalScope(scope) && Clean(trimmed)
    ensures NormalScope(ParseScopeLine(trimmed, scope))
  {
    if "- Namespaces:" <= trimmed { TrimEachItems(trimmed[|"- Namespaces:"|..]); }
    if "- Resources:" <= trimmed { TrimEachItems(trimmed[|"- Resources:"|..]); }
  }

  lemma ToolNormal(tools: seq<string>, trimmed: string)
    requires (forall x :: x in tools ==> LineRest(x)) && Clean(trimmed) && "- " <= trimmed
    ensures forall x :: x in tools + [trimmed[2..]] ==> LineRest(x)
  {
    assert trimmed[|trimmed| - 1] != ' ';
  }

  lemma ContentNormal(section: string, sub: string, trimmed: string, rb: ParsedRunbook)
    requires NormalParts(rb) && (sub == "" || LineRest(sub))
    requires Clean(trimmed) && !Marker(trimmed)
    ensures NormalParts(Content(section, sub, trimmed, rb))
  {
    hide ParseScopeLine, MergeBullet, Item, LineRest, Trimmed, NormalSteps, NormalSeverity, NormalEntry;
    ScopeLineNormal(trimmed, rb.scope);
    if "- " <= trimmed {
      ToolNormal(rb.allowedTools, trimmed);
      ToolNormal(rb.forbidden, trimmed);
    }
    if section == "scope" {
    } else if section == "severity" {
      if trimmed != "" {
        SeverityLine(trimmed);
        SeverityJoin(rb.severity, TrimEach(Split(trimmed, ',')));
      }
    } else if section == "remediation" {
      MergeBulletNormal(rb.remediation, sub, trimmed);
    } else if section == "rollback" {
      MergeBulletNormal(rb.rollback, sub, trimmed);
    }
  }

  /** One line keeps the cursor's invariant. */
  lemma StepKeepsNormal(c: Cursor, line: string)
    requires CursorOk(c) && '\n' !in line
    ensures CursorOk(Step(c, line))
  {
    var trimmed := Trim(line);
    TrimProps(line);
    if FENCE <= trimmed {
      if c.inCode {
        FenceFreeTrim(c.code);
        TrimProps(c.code);
      }
    } else if c.inCode {
      CodeOkAppend(c.code, line);
    } else if !("## " <= trimmed) && !("### " <= trimmed) {
      ContentNormal(c.section, c.sub, trimmed, c.rb);
    }
  }

  lemma {:induction false} RunKeepsNormal(c: Cursor, lines: seq<string>)
    requires CursorOk(c) && forall l :: l in lines ==> '\n' !in l
    ensures CursorOk(Run(c, lines))
    decreases |lines|
  {
    if lines == [] {
    } else {
      StepKeepsNormal(c, lines[0]);
      RunKeepsNormal(Step(c, lines[0]), lines[1..]);
    }
  }

  /** Every accepted text parses to a normal runbook. */
  lemma ParseIsNormal(text: string)
    ensures Parse(text).Ok? ==> Normal(Parse(text).value)
  {
    var lines := Split(text, '\n');
    SplitPieces(text, '\n');
    if "# " <= lines[0] {
      assert lines[0] in lines;
      RunKeepsNormal(Start(lines[0][2..]), lines[1..]);
    }
  }

  // ---------------------------------------------------------------- printing is undone by parsing

  function CursorAt(section: string, sub: string, rb: ParsedRunbook): Cursor { Cursor(section, sub, false, "", rb) }

  /** Printed content lines reach the content of their section as they were printed. */
  lemma InkedLine(section: string, sub: string, rb: ParsedRunbook, line: string)
    requires Clean(line) && !Marker(line)
    ensures Run(CursorAt(section, sub, rb), [line]) == CursorAt(section, sub, Content(section, sub, line, rb))
  {
    TrimOfTrimmed(line);
    assert Run(Step(CursorAt(section, sub, rb), line), []) == Step(CursorAt(section, sub, rb), line);
  }

  lemma SectionLine(c: Cursor, title: string)
    requires !c.inCode && c.code == "" && Clean(title) && title != ""
    ensures Run(c, ["## " + title]) == CursorAt(Lower(title), "", c.rb)
  {
    var line := "## " + title;
    assert line[|line| - 1] == title[|title| - 1];
    TrimOfTrimmed(line);
    assert line[3..] == title;
    assert Run(Step(c, line), []) == Step(c, line);
  }

  lemma SubsectionLine(c: Cursor, name: string)
    requires !c.inCode && c.code == "" && LineRest(name)
    ensures Run(c, ["### " + name]) == CursorAt(c.section, name, c.rb)
  {
    var line := "### " + name;
    assert line[|line| - 1] == name[|name| - 1];
    TrimOfTrimmed(line);
    assert line[4..] == name && line[2] == '#';
    assert Run(Step(c, line), []) == Step(c, line);
  }

  lemma TrimEachOfItems(items: seq<string>)
    requires forall x :: x in items ==> Item(x)
    ensures TrimEach(items) == items
  {
    forall i | 0 <= i < |items| ensures Trim(items[i]) == items[i] {
      assert Item(items[i]);
      TrimOfTrimmed(items[i]);
    }
  }

  lemma ItemsReadBack(items: seq<string>)
    requires items != [] && forall x :: x in items ==> Item(x)
    ensures TrimEach(Split(Join(items, ','), ',')) == items
    ensures '\n' !in Join(items, ',') && RightTrimmed(Join(items, ','))
  {
    SplitJoin(items, ',');
    TrimEachOfItems(items);
    JoinChars(items, ',', '\n');
    JoinRightTrimmed(items, ',');
  }

  lemma LabelledText(tag: string, text: string)
    requires |tag| > 2 && tag[0] == '-' && tag[1] == ' ' && tag[2] != ' ' && tag[|tag| - 1] == ':' && '\n' !in tag
    requires RightTrimmed(text) && '\n' !in text
    ensures Clean(tag + text) && !Marker(tag + text) && (tag + text)[|tag|..] == text && tag <= tag + text
  {
    var line := tag + text;
    assert line[0] == '-' && line[|line| - 1] == if text == "" then ':' else text[|text| - 1];
  }

  lemma OneLabel(text: string)
    ensures !("- Resources:" <= "- Namespaces:" + text) && !("- Namespaces:" <= "- Resources:" + text)
  {
    assert ("- Namespaces:" + text)[2] == 'N' && ("- Resources:" + text)[2] == 'R';
  }

  lemma {:induction false} LabelledLine(tag: string, items: seq<string>, scope: RunbookScope)
    requires tag == "- Namespaces:" || tag == "- Resources:"
    requires items != [] && forall x :: x in items ==> Item(x)
    ensures Clean(tag + Join(items, ',')) && !Marker(tag + Join(items, ','))
    ensures ParseScopeLine(tag + Join(items, ','), scope)
         == if tag == "- Namespaces:" then scope.(namespaces := scope.namespaces + items)
            else scope.(resources := scope.resources + items)
  {
    hide Clean, Marker, RightTrimmed, Join, Item;
    ItemsReadBack(items);
    LabelledText(tag, Join(items, ','));
    OneLabel(Join(items, ','));
  }

  lemma ScopeReadBack(rb: ParsedRunbook, scope: RunbookScope)
    requires forall x :: x in scope.namespaces ==> Item(x)
    requires forall x :: x in scope.resources ==> Item(x)
    requires rb.scope == RunbookScope([], [])
    ensures Run(CursorAt("scope", "", rb), ScopeLines(scope)) == CursorAt("scope", "", rb.(scope := scope))
  {
    var n, r := ListLine("- Namespaces:", scope.namespaces), ListLine("- Resources:", scope.resources);
    var c0 := CursorAt("scope", "", rb);
    RunConcat(c0, n, r);
    var c1 := CursorAt("scope", "", rb.(scope := RunbookScope(scope.namespaces, [])));
    assert Run(c0, n) == c1 by {
      if scope.namespaces != [] {
        LabelledLine("- Namespaces:", scope.namespaces, rb.scope);
        InkedLine("scope", "", rb, n[0]);
        assert [] + scope.namespaces == scope.namespaces;
      }
    }
    if scope.resources != [] {
      LabelledLine("- Resources:", scope.resources, c1.rb.scope);
      InkedLine("scope", "", c1.rb, r[0]);
      assert [] + scope.resources == scope.resources;
    }
  }

  lemma MarkerNeedsInk(first: string, rest: string)
    requires !Marker(first)
    ensures !Marker(first + [','] + rest)
  {
    var line := first + [','] + rest;
    assert line[|first|] == ',' && line[..|first|] == first;
  }

  lemma SeverityLineOk(items: seq<string>)
    requires NormalSeverity(items) && items != []
    ensures var line := Join(items, ','); Clean(line) && !Marker(line) && line != ""
  {
    ItemsReadBack(items);
    assert Item(items[0]);
    if |items| > 1 {
      MarkerNeedsInk(items[0], Join(items[1..], ','));
    }
  }

  lemma SeverityReadBack(rb: ParsedRunbook, items: seq<string>)
    requires NormalSeverity(items) && rb.severity == []
    ensures Run(CursorAt("severity", "", rb), ListLine("", items)) == CursorAt("severity", "", rb.(severity := items))
  {
    if items != [] {
      var line := Join(items, ',');
      assert "" + line == line;
      SeverityLineOk(items);
      ItemsReadBack(items);
      InkedLine("severity", "", rb, line);
      assert [] + items == items;
    }
  }

  lemma RunNothing(c: Cursor)
    ensures Run(c, []) == c
  {}

  lemma BulletIsClean(item: string)
    requires LineRest(item)
    ensures var line := "- " + item; Clean(line) && !Marker(line) && line[2..] == item && "- " <= line
  {
    var line := "- " + item;
    assert line[|line| - 1] == item[|item| - 1];
  }

  lemma {:induction false} AllowedReadBack(rb: ParsedRunbook, items: seq<string>)
    requires forall x :: x in items ==> LineRest(x)
    ensures Run(CursorAt("allowed tools", "", rb), BulletLines(items))
         == CursorAt("allowed tools", "", rb.(allowedTools := rb.allowedTools + items))
    decreases |items|
  {
    hide Run, LineRest, Marker;
    if items == [] {
      RunNothing(CursorAt("allowed tools", "", rb));
      assert rb.allowedTools + items == rb.allowedTools;
    } else {
      BulletIsClean(items[0]);
      InkedLine("allowed tools", "", rb, "- " + items[0]);
      var rb1 := rb.(allowedTools := rb.allowedTools + [items[0]]);
      RunConcat(CursorAt("allowed tools", "", rb), ["- " + items[0]], BulletLines(items[1..]));
      AllowedReadBack(rb1, items[1..]);
      assert rb.allowedTools + items == rb1.allowedTools + items[1..];
    }
  }

  lemma {:induction false} ForbiddenReadBack(rb: ParsedRunbook, items: seq<string>)
    requires forall x :: x in items ==> LineRest(x)
    ensures Run(CursorAt("forbidden tools", "", rb), BulletLines(items))
         == CursorAt("forbidden tools", "", rb.(forbidden := rb.forbidden + items))
    decreases |items|
  {
    hide Run, LineRest, Marker;
    if items == [] {
      RunNothing(CursorAt("forbidden tools", "", rb));
      assert rb.forbidden + items == rb.forbidden;
    } else {
      BulletIsClean(items[0]);
      InkedLine("forbidden tools", "", rb, "- " + items[0]);
      var rb1 := rb.(forbidden := rb.forbidden + [items[0]]);
      RunConcat(CursorAt("forbidden tools", "", rb), ["- " + items[0]], BulletLines(items[1..]));
      ForbiddenReadBack(rb1, items[1..]);
      assert rb.forbidden + items == rb1.forbidden + items[1..];
    }
  }

  // -- diagnosis

  function Lines(parts: seq<string>): string {
    if parts == [] then "" else parts[0] + "\n" + Lines(parts[1..])
  }

  lemma {:induction false} LinesIsJoin(parts: seq<string>)
    requires parts != []
    ensures Lines(parts) == Join(parts, '\n') + "\n"
  {
    if |parts| > 1 {
      LinesIsJoin(parts[1..]);
      assert parts[0] + "\n" + (Join(parts[1..], '\n') + "\n") == parts[0] + ['\n'] + Join(parts[1..], '\n') + "\n";
    } else {
      assert parts[1..] == [];
    }
  }

  lemma {:induction false} FencedLines(c: Cursor, lines: seq<string>)
    requires c.inCode && forall l :: l in lines ==> !IsFence(l)
    ensures Run(c, lines) == c.(code := c.code + Lines(lines))
    decreases |lines|
  {
    if lines == [] {
      assert c.code + "" == c.code;
    } else {
      assert lines[0] in lines;
      FencedLines(Step(c, lines[0]), lines[1..]);
      assert c.code + lines[0] + "\n" + Lines(lines[1..]) == c.code + (lines[0] + "\n" + Lines(lines[1..]));
    }
  }

  lemma FenceLine(c: Cursor)
    ensures Run(c, [FENCE]) == Step(c, FENCE) && Trim(FENCE) == FENCE
  {
    TrimOfTrimmed(FENCE);
    assert Run(Step(c, FENCE), []) == Step(c, FENCE);
  }

  lemma TrimOfTerminated(s: string)
    requires Trimmed(s)
    ensures Trim(s + "\n") == s
  {
    var t := s + "\n";
    if s == "" {
      assert t[1..] == "";
      assert TrimLeft(t) == TrimLeft(t[1..]);
    } else {
      assert t[0] == s[0];
      assert TrimLeft(t) == t;
      assert t[..|t| - 1] == s;
      assert TrimRight(t) == TrimRight(s);
    }
  }

  lemma EntryReadBack(sub: string, rb: ParsedRunbook, d: DiagnosisEntry)
    requires NormalEntry(d)
    ensures Run(CursorAt("diagnosis", sub, rb), EntryLines(d))
         == CursorAt("diagnosis", d.name, rb.(diagnosis := rb.diagnosis + [d]))
  {
    var c0 := CursorAt("diagnosis", sub, rb);
    var h, body := "### " + d.name, Split(d.command, '\n');
    assert EntryLines(d) == [h] + ([FENCE] + (body + [FENCE]));
    RunConcat(c0, [h], [FENCE] + (body + [FENCE]));
    SubsectionLine(c0, d.name);
    var c1 := CursorAt("diagnosis", d.name, rb);
    RunConcat(c1, [FENCE], body + [FENCE]);
    FenceLine(c1);
    var c2 := c1.(inCode := true);
    RunConcat(c2, body, [FENCE]);
    FencedLines(c2, body);
    LinesIsJoin(body);
    JoinSplit(d.command, '\n');
    TrimOfTerminated(d.command);
    assert "" + Lines(body) == Lines(body);
    FenceLine(c2.(code := d.command + "\n"));
  }

  lemma {:induction false} DiagnosisReadBack(sub: string, rb: ParsedRunbook,
                                             ds: seq<DiagnosisEntry>) returns (sub': string)
    requires forall d :: d in ds ==> NormalEntry(d)
    ensures Run(CursorAt("diagnosis", sub, rb), DiagnosisLines(ds))
         == CursorAt("diagnosis", sub', rb.(diagnosis := rb.diagnosis + ds))
    decreases |ds|
  {
    hide Run, EntryLines, NormalEntry;
    if ds == [] {
      sub' := sub;
      RunNothing(CursorAt("diagnosis", sub, rb));
      assert rb.diagnosis + ds == rb.diagnosis;
    } else {
      assert ds[0] in ds;
      EntryReadBack(sub, rb, ds[0]);
      RunConcat(CursorAt("diagnosis", sub, rb), EntryLines(ds[0]), DiagnosisLines(ds[1..]));
      sub' := DiagnosisReadBack(ds[0].name, rb.(diagnosis := rb.diagnosis + [ds[0]]), ds[1..]);
      assert rb.diagnosis + ds == rb.diagnosis + [ds[0]] + ds[1..];
    }
  }

  // -- steps

  predicate FieldBullet(line: string) { Clean(line) && !Marker(line) && "- " <= line }

  /** A printed field line sets that field and nothing else. */
  lemma FieldLine(tag: string, val: string, t: ParsedStep)
    requires ':' !in tag && '\n' !in tag && Clean(val)
    ensures FieldBullet(Field(tag, val))
    ensures MergeStep(t, Field(tag, val)) == SetField(t, Trim(Lower(tag)), val)
  {
    hide SetField, Lower, Trim, Cut;
    FieldShape(tag, val);
    assert Field(tag, val)[2..] == tag + [':'] + val;
    CutAtFirst(tag, ':', val);
    TrimOfTrimmed(val);
  }

  lemma FieldShape(tag: string, val: string)
    requires '\n' !in tag && Clean(val)
    ensures FieldBullet(Field(tag, val))
  {
    var line := Field(tag, val);
    assert line[|line| - 1] == if val == "" then ':' else val[|val| - 1];
    assert line[0] == '-';
  }

  lemma {:induction false} CutAtFirst(a: string, sep: char, b: string)
    requires sep !in a
    ensures Cut(a + [sep] + b, sep) == Some((a, b))
  {
    var s := a + [sep] + b;
    if a == "" {
      assert s[1..] == b;
    } else {
      assert s[1..] == a[1..] + [sep] + b;
      CutAtFirst(a[1..], sep, b);
      assert [a[0]] + a[1..] == a;
    }
  }

  lemma ActionLine(t: ParsedStep, val: string)
    requires Clean(val)
    ensures FieldBullet(Field("Action", val)) && MergeStep(t, Field("Action", val)) == t.(action := val)
  {
    assert Lower("Action") == "action";
    TrimOfTrimmed("action");
    FieldLine("Action", val, t);
  }

  lemma TargetLine(t: ParsedStep, val: string)
    requires Clean(val)
    ensures FieldBullet(Field("Target", val)) && MergeStep(t, Field("Target", val)) == t.(target := val)
  {
    assert Lower("Target") == "target";
    TrimOfTrimmed("target");
    FieldLine("Target", val, t);
  }

  lemma RiskLine(t: ParsedStep, val: string)
    requires Clean(val)
    ensures FieldBullet(Field("Risk", val)) && MergeStep(t, Field("Risk", val)) == t.(risk := val)
  {
    assert Lower("Risk") == "risk";
    TrimOfTrimmed("risk");
    FieldLine("Risk", val, t);
  }

  lemma AutoApproveKey()
    ensures Trim(Lower("AutoApprove")) == "autoapprove" && ':' !in "AutoApprove" && '\n' !in "AutoApprove"
  {
    assert Lower("AutoApprove") == "autoapprove";
    TrimOfTrimmed("autoapprove");
  }

  lemma AutoApproveField(t: ParsedStep, val: string)
    ensures SetField(t, "autoapprove", val) == t.(autoApprove := Lower(val) == "true")
  {}

  lemma LowerBool(b: bool)
    ensures (Lower(BoolText(b)) == "true") == b && Clean(BoolText(b))
  {
    assert Lower("true") == "true";
    assert Lower("false") == "false";
  }

  lemma AutoApproveLine(t: ParsedStep, b: bool)
    ensures FieldBullet(Field("AutoApprove", BoolText(b)))
    ensures MergeStep(t, Field("AutoApprove", BoolText(b))) == t.(autoApprove := b)
  {
    AutoApproveKey();
    AutoApproveField(t, BoolText(b));
    LowerBool(b);
    FieldLine("AutoApprove", BoolText(b), t);
  }

  predicate NewName(steps: seq<ParsedStep>, name: string) {
    forall i :: 0 <= i < |steps| ==> steps[i].name != name
  }

  predicate IsStepSection(section: string) { section == "remediation" || section == "rollback" }

  lemma {:induction false} FindNew(steps: seq<ParsedStep>, s: ParsedStep)
    requires NewName(steps, s.name)
    ensures FindStepIndex(steps, s.name) == -1
    ensures FindStepIndex(steps + [s], s.name) == |steps|
  {
    assert forall i :: 0 <= i < |steps| ==> (steps + [s])[i].name != s.name;
    assert (steps + [s])[|steps|].name == s.name;
  }

  lemma BulletOnNew(steps: seq<ParsedStep>, name: string, line: string)
    requires NewName(steps, name)
    requires "- " <= line && name != ""
    ensures MergeBullet(steps, name, line) == steps + [MergeStep(NewStep(name), line)]
  {
    FindNew(steps, NewStep(name));
  }

  lemma BulletOnLast(steps: seq<ParsedStep>, t: ParsedStep, line: string)
    requires NewName(steps, t.name)
    requires "- " <= line && t.name != ""
    ensures MergeBullet(steps + [t], t.name, line) == steps + [MergeStep(t, line)]
  {
    FindNew(steps, t);
    assert (steps + [t])[|steps| := MergeStep(t, line)] == steps + [MergeStep(t, line)];
  }

  function WithSteps(section: string, rb: ParsedRunbook, steps: seq<ParsedStep>): ParsedRunbook {
    if section == "remediation" then rb.(remediation := steps) else rb.(rollback := steps)
  }

  function StepsOf(section: string, rb: ParsedRunbook): seq<ParsedStep> {
    if section == "remediation" then rb.remediation else rb.rollback
  }

  lemma BulletRun(section: string, sub: string, rb: ParsedRunbook, line: string, rest: seq<string>)
    requires IsStepSection(section)
    requires Clean(line) && !Marker(line)
    ensures Run(CursorAt(section, sub, rb), [line] + rest)
         == Run(CursorAt(section, sub, WithSteps(section, rb, MergeBullet(StepsOf(section, rb), sub, line))), rest)
  {
    InkedLine(section, sub, rb, line);
    RunConcat(CursorAt(section, sub, rb), [line], rest);
  }

  /** A field line under the newest step's heading. */
  lemma {:induction false} FieldReadBack(section: string, rb: ParsedRunbook, steps: seq<ParsedStep>, t: ParsedStep,
                                         line: string, rest: seq<string>)
    requires IsStepSection(section) && NewName(steps, t.name) && t.name != "" && FieldBullet(line)
    ensures Run(CursorAt(section, t.name, WithSteps(section, rb, steps + [t])), [line] + rest)
         == Run(CursorAt(section, t.name, WithSteps(section, rb, steps + [MergeStep(t, line)])), rest)
  {
    BulletRun(section, t.name, WithSteps(section, rb, steps + [t]), line, rest);
    BulletOnLast(steps, t, line);
  }

  /** The first field line under a new heading creates the step. */
  lemma FirstFieldReadBack(section: string, rb: ParsedRunbook, steps: seq<ParsedStep>, name: string, line: string,
                           rest: seq<string>)
    requires IsStepSection(section) && NewName(steps, name) && name != "" && FieldBullet(line)
    ensures Run(CursorAt(section, name, WithSteps(section, rb, steps)), [line] + rest)
         == Run(CursorAt(section, name, WithSteps(section, rb, steps + [MergeStep(NewStep(name), line)])), rest)
  {
    BulletRun(section, name, WithSteps(section, rb, steps), line, rest);
    BulletOnNew(steps, name, line);
  }

  lemma FieldsReadBack(section: string, rb: ParsedRunbook, steps: seq<ParsedStep>, s: ParsedStep)
    requires IsStepSection(section) && NewName(steps, s.name) && s.name != "" && CleanStep(s)
    ensures Run(CursorAt(section, s.name, WithSteps(section, rb, steps)),
                [Field("Action", s.action)] + ([Field("Target", s.target)] + ([Field("Risk", s.risk)]
                + ([Field("AutoApprove", BoolText(s.autoApprove))] + []))))
         == CursorAt(section, s.name, WithSteps(section, rb, steps + [s]))
  {
    var l1, l2, l3 := Field("Action", s.action), Field("Target", s.target), Field("Risk", s.risk);
    var l4 := Field("AutoApprove", BoolText(s.autoApprove));
    var t1 := NewStep(s.name).(action := s.action);
    var t2 := t1.(target := s.target);
    var t3 := t2.(risk := s.risk);
    ActionLine(NewStep(s.name), s.action);
    FirstFieldReadBack(section, rb, steps, s.name, l1, [l2] + ([l3] + ([l4] + [])));
    TargetLine(t1, s.target);
    FieldReadBack(section, rb, steps, t1, l2, [l3] + ([l4] + []));
    RiskLine(t2, s.risk);
    FieldReadBack(section, rb, steps, t2, l3, [l4] + []);
    AutoApproveLine(t3, s.autoApprove);
    FieldReadBack(section, rb, steps, t3, l4, []);
    assert t3.(autoApprove := s.autoApprove) == s;
  }

  lemma OneStepReadBack(section: string, sub: string, rb: ParsedRunbook, s: ParsedStep)
    requires IsStepSection(section)
    requires LineRest(s.name) && CleanStep(s)
    requires NewName(StepsOf(section, rb), s.name)
    ensures Run(CursorAt(section, sub, rb), OneStep(s))
         == CursorAt(section, s.name, WithSteps(section, rb, StepsOf(section, rb) + [s]))
  {
    var steps := StepsOf(section, rb);
    var last := [Field("Risk", s.risk)] + ([Field("AutoApprove", BoolText(s.autoApprove))] + []);
    var fields := [Field("Action", s.action)] + ([Field("Target", s.target)] + last);
    assert OneStep(s) == ["### " + s.name] + fields;
    RunConcat(CursorAt(section, sub, rb), ["### " + s.name], fields);
    SubsectionLine(CursorAt(section, sub, rb), s.name);
    assert WithSteps(section, rb, steps) == rb;
    FieldsReadBack(section, rb, steps, s);
  }

  lemma HeadIsNew(before: seq<ParsedStep>, steps: seq<ParsedStep>)
    requires NormalSteps(before + steps) && steps != []
    ensures NewName(before, steps[0].name) && LineRest(steps[0].name) && CleanStep(steps[0])
    ensures (before + [steps[0]]) + steps[1..] == before + steps
  {
    var all := before + steps;
    assert all[|before|] == steps[0] && steps[0] in all;
    assert forall i :: 0 <= i < |before| ==> all[i] == before[i];
  }

  lemma WithStepsTwice(section: string, rb: ParsedRunbook, a: seq<ParsedStep>, b: seq<ParsedStep>)
    ensures WithSteps(section, WithSteps(section, rb, a), b) == WithSteps(section, rb, b)
    ensures StepsOf(section, WithSteps(section, rb, a)) == a
    ensures WithSteps(section, rb, StepsOf(section, rb)) == rb
  {}

  lemma {:induction false} StepsReadBack(section: string, sub: string, rb: ParsedRunbook, steps: seq<ParsedStep>)
    returns (sub': string)
    requires IsStepSection(section)
    requires NormalSteps(StepsOf(section, rb) + steps)
    ensures Run(CursorAt(section, sub, rb), StepLines(steps))
         == CursorAt(section, sub', WithSteps(section, rb, StepsOf(section, rb) + steps))
    decreases |steps|
  {
    var before := StepsOf(section, rb);
    if steps == [] {
      sub' := sub;
      assert before + steps == before;
      WithStepsTwice(section, rb, before, before);
    } else {
      HeadIsNew(before, steps);
      OneStepReadBack(section, sub, rb, steps[0]);
      var rb1 := WithSteps(section, rb, before + [steps[0]]);
      WithStepsTwice(section, rb, before + [steps[0]], before + steps);
      RunConcat(CursorAt(section, sub, rb), OneStep(steps[0]), StepLines(steps[1..]));
      sub' := StepsReadBack(section, steps[0].name, rb1, steps[1..]);
    }
  }

  // -- the whole text

  predicate Outside(c: Cursor) { !c.inCode && c.code == "" }

  /** Reading one printed section, given how its lines are read after its heading. */
  lemma {:induction false} SectionReadBack(c: Cursor, title: string, lines: seq<string>, c': Cursor, rest: seq<string>)
    requires Outside(c) && Clean(title) && title != ""
    requires Run(CursorAt(Lower(title), "", c.rb), lines) == c'
    ensures Run(c, Section(title, lines) + rest) == Run(c', rest)
  {
    RunConcat(c, Section(title, lines), rest);
    RunConcat(c, ["## " + title], lines);
    SectionLine(c, title);
  }

  lemma ScopeSection(c: Cursor, scope: RunbookScope, rest: seq<string>) returns (c': Cursor)
    requires Outside(c)
    requires c.rb.scope == RunbookScope([], [])
    requires forall x :: x in scope.namespaces ==> Item(x)
    requires forall x :: x in scope.resources ==> Item(x)
    ensures Run(c, Section("Scope", ScopeLines(scope)) + rest) == Run(c', rest) && Outside(c')
        && c'.rb == c.rb.(scope := scope)
  {
    assert Lower("Scope") == "scope";
    ScopeReadBack(c.rb, scope);
    c' := CursorAt("scope", "", c.rb.(scope := scope));
    SectionReadBack(c, "Scope", ScopeLines(scope), c', rest);
  }

  lemma SeveritySection(c: Cursor, items: seq<string>, rest: seq<string>) returns (c': Cursor)
    requires Outside(c)
    requires c.rb.severity == [] && NormalSeverity(items)
    ensures Run(c, Section("Severity", ListLine("", items)) + rest) == Run(c', rest) && Outside(c')
        && c'.rb == c.rb.(severity := items)
  {
    hide Run, Section, ListLine, NormalSeverity;
    assert Lower("Severity") == "severity";
    SeverityReadBack(c.rb, items);
    c' := CursorAt("severity", "", c.rb.(severity := items));
    SectionReadBack(c, "Severity", ListLine("", items), c', rest);
  }

  lemma AllowedSection(c: Cursor, items: seq<string>, rest: seq<string>) returns (c': Cursor)
    requires Outside(c)
    requires c.rb.allowedTools == [] && forall x :: x in items ==> LineRest(x)
    ensures Run(c, Section("Allowed Tools", BulletLines(items)) + rest) == Run(c', rest) && Outside(c')
        && c'.rb == c.rb.(allowedTools := items)
  {
    assert Lower("Allowed Tools") == "allowed tools";
    AllowedReadBack(c.rb, items);
    assert [] + items == items;
    c' := CursorAt("allowed tools", "", c.rb.(allowedTools := items));
    SectionReadBack(c, "Allowed Tools", BulletLines(items), c', rest);
  }

  lemma ForbiddenSection(c: Cursor, items: seq<string>, rest: seq<string>) returns (c': Cursor)
    requires Outside(c)
    requires c.rb.forbidden == [] && forall x :: x in items ==> LineRest(x)
    ensures Run(c, Section("Forbidden Tools", BulletLines(items)) + rest) == Run(c', rest) && Outside(c')
        && c'.rb == c.rb.(forbidden := items)
  {
    assert Lower("Forbidden Tools") == "forbidden tools";
    ForbiddenReadBack(c.rb, items);
    assert [] + items == items;
    c' := CursorAt("forbidden tools", "", c.rb.(forbidden := items));
    SectionReadBack(c, "Forbidden Tools", BulletLines(items), c', rest);
  }

  lemma DiagnosisSection(c: Cursor, ds: seq<DiagnosisEntry>, rest: seq<string>) returns (c': Cursor)
    requires Outside(c)
    requires c.rb.diagnosis == [] && forall d :: d in ds ==> NormalEntry(d)
    ensures Run(c, Section("Diagnosis", DiagnosisLines(ds)) + rest) == Run(c', rest) && Outside(c')
        && c'.rb == c.rb.(diagnosis := ds)
  {
    assert Lower("Diagnosis") == "diagnosis";
    var sub := DiagnosisReadBack("", c.rb, ds);
    assert [] + ds == ds;
    c' := CursorAt("diagnosis", sub, c.rb.(diagnosis := ds));
    SectionReadBack(c, "Diagnosis", DiagnosisLines(ds), c', rest);
  }

  lemma LowerRemediation()
    ensures Lower("Remediation") == "remediation"
  {}

  lemma LowerRollback()
    ensures Lower("Rollback") == "rollback"
  {}

  lemma RemediationSection(c: Cursor, steps: seq<ParsedStep>, rest: seq<string>) returns (c': Cursor)
    requires Outside(c)
    requires c.rb.remediation == [] && NormalSteps(steps)
    ensures Run(c, Section("Remediation", StepLines(steps)) + rest) == Run(c', rest) && Outside(c')
        && c'.rb == c.rb.(remediation := steps)
  {
    hide Run, Section, StepLines, NormalSteps;
    LowerRemediation();
    assert [] + steps == steps;
    var sub := StepsReadBack("remediation", "", c.rb, steps);
    c' := CursorAt("remediation", sub, c.rb.(remediation := steps));
    SectionReadBack(c, "Remediation", StepLines(steps), c', rest);
  }

  lemma RollbackSection(c: Cursor, steps: seq<ParsedStep>, rest: seq<string>) returns (c': Cursor)
    requires Outside(c)
    requires c.rb.rollback == [] && NormalSteps(steps)
    ensures Run(c, Section("Rollback", StepLines(steps)) + rest) == Run(c', rest) && Outside(c')
        && c'.rb == c.rb.(rollback := steps)
  {
    hide Run, Section, StepLines, NormalSteps;
    LowerRollback();
    assert [] + steps == steps;
    var sub := StepsReadBack("rollback", "", c.rb, steps);
    c' := CursorAt("rollback", sub, c.rb.(rollback := steps));
    SectionReadBack(c, "Rollback", StepLines(steps), c', rest);
  }

  lemma BodyReadBack(rb: ParsedRunbook)
    requires NormalParts(rb)
    ensures Run(Start(rb.title), Body(rb)).rb == rb
  {
    var t6 := Section("Rollback", StepLines(rb.rollback));
    var t5 := Section("Remediation", StepLines(rb.remediation)) + t6;
    var t4 := Section("Diagnosis", DiagnosisLines(rb.diagnosis)) + t5;
    var t3 := Section("Forbidden Tools", BulletLines(rb.forbidden)) + t4;
    var t2 := Section("Allowed Tools", BulletLines(rb.allowedTools)) + t3;
    var t1 := Section("Severity", ListLine("", rb.severity)) + t2;
    var c1 := ScopeSection(Start(rb.title), rb.scope, t1);
    var c2 := SeveritySection(c1, rb.severity, t2);
    var c3 := AllowedSection(c2, rb.allowedTools, t3);
    var c4 := ForbiddenSection(c3, rb.forbidden, t4);
    var c5 := DiagnosisSection(c4, rb.diagnosis, t5);
    var c6 := RemediationSection(c5, rb.remediation, t6);
    assert t6 + [] == t6;
    var c7 := RollbackSection(c6, rb.rollback, []);
  }

  predicate OneLine(lines: seq<string>) { forall l :: l in lines ==> '\n' !in l }

  lemma ListLineOneLine(tag: string, items: seq<string>)
    requires '\n' !in tag && OneLine(items)
    ensures OneLine(ListLine(tag, items))
  {
    JoinChars(items, ',', '\n');
  }

  lemma {:induction false} BulletsOneLine(items: seq<string>)
    requires OneLine(items)
    ensures OneLine(BulletLines(items))
  {
    if items == [] {
    } else {
      BulletsOneLine(items[1..]);
    }
  }

  lemma {:induction false} DiagnosisOneLine(ds: seq<DiagnosisEntry>)
    requires forall d :: d in ds ==> '\n' !in d.name
    ensures OneLine(DiagnosisLines(ds))
  {
    if ds == [] {
    } else {
      SplitPieces(ds[0].command, '\n');
      assert ds[0] in ds;
      assert OneLine(EntryLines(ds[0]));
      DiagnosisOneLine(ds[1..]);
    }
  }

  lemma {:induction false} StepsOneLine(steps: seq<ParsedStep>)
    requires forall s :: s in steps ==> LineRest(s.name) && CleanStep(s)
    ensures OneLine(StepLines(steps))
  {
    hide OneStep, LineRest, CleanStep;
    if steps == [] {
    } else {
      assert steps[0] in steps;
      OneStepOneLine(steps[0]);
      StepsOneLine(steps[1..]);
    }
  }

  lemma FieldOneLine(tag: string, val: string)
    requires '\n' !in tag && '\n' !in val
    ensures '\n' !in Field(tag, val)
  {}

  lemma OneStepOneLine(s: ParsedStep)
    requires LineRest(s.name) && CleanStep(s)
    ensures OneLine(OneStep(s))
  {
    hide Field, Trimmed, RightTrimmed;
    FieldOneLine("Action", s.action);
    FieldOneLine("Target", s.target);
    FieldOneLine("Risk", s.risk);
    FieldOneLine("AutoApprove", BoolText(s.autoApprove));
  }

  lemma SectionOneLine(title: string, lines: seq<string>, rest: seq<string>)
    requires '\n' !in title && OneLine(lines) && OneLine(rest)
    ensures OneLine(Section(title, lines) + rest)
  {}

  lemma PartsOneLine(rb: ParsedRunbook)
    requires NormalParts(rb)
    ensures OneLine(rb.forbidden) && OneLine(rb.allowedTools) && OneLine(rb.severity)
    ensures OneLine(rb.scope.namespaces) && OneLine(rb.scope.resources)
    ensures OneLine(StepLines(rb.rollback)) && OneLine(StepLines(rb.remediation))
    ensures OneLine(DiagnosisLines(rb.diagnosis))
  {
    hide StepLines, DiagnosisLines;
    StepsOneLine(rb.rollback);
    StepsOneLine(rb.remediation);
    DiagnosisOneLine(rb.diagnosis);
  }

  lemma ScopeOneLine(scope: RunbookScope)
    requires OneLine(scope.namespaces) && OneLine(scope.resources)
    ensures OneLine(ScopeLines(scope))
  {
    ListLineOneLine("- Namespaces:", scope.namespaces);
    ListLineOneLine("- Resources:", scope.resources);
  }

  lemma BodyOneLine(rb: ParsedRunbook)
    requires NormalParts(rb)
    ensures OneLine(Body(rb))
  {
    hide OneLine, Section, StepLines, DiagnosisLines, BulletLines, ListLine, ScopeLines, NormalParts;
    PartsOneLine(rb);
    ScopeOneLine(rb.scope);
    ListLineOneLine("", rb.severity);
    BulletsOneLine(rb.forbidden);
    BulletsOneLine(rb.allowedTools);
    var t6 := Section("Rollback", StepLines(rb.rollback));
    LastOneLine("Rollback", StepLines(rb.rollback));
    var t5 := Section("Remediation", StepLines(rb.remediation)) + t6;
    SectionOneLine("Remediation", StepLines(rb.remediation), t6);
    var t4 := Section("Diagnosis", DiagnosisLines(rb.diagnosis)) + t5;
    SectionOneLine("Diagnosis", DiagnosisLines(rb.diagnosis), t5);
    var t3 := Section("Forbidden Tools", BulletLines(rb.forbidden)) + t4;
    SectionOneLine("Forbidden Tools", BulletLines(rb.forbidden), t4);
    var t2 := Section("Allowed Tools", BulletLines(rb.allowedTools)) + t3;
    SectionOneLine("Allowed Tools", BulletLines(rb.allowedTools), t3);
    SectionOneLine("Severity", ListLine("", rb.severity), t2);
    SectionOneLine("Scope", ScopeLines(rb.scope), Section("Severity", ListLine("", rb.severity)) + t2);
  }

  lemma LastOneLine(title: string, lines: seq<string>)
    requires '\n' !in title && OneLine(lines)
    ensures OneLine(Section(title, lines))
  {}

  /** Parsing a printed normal runbook returns exactly that runbook. */
  lemma RoundTrip(rb: ParsedRunbook)
    requires Normal(rb)
    ensures Parse(Render(rb)) == Ok(rb)
  {
    var lines := ["# " + rb.title] + Body(rb);
    BodyOneLine(rb);
    SplitJoin(lines, '\n');
    assert lines[0][2..] == rb.title;
    assert lines[1..] == Body(rb);
    BodyReadBack(rb);
  }

  /** The range of the parser: a runbook is the parse of some text exactly when it is normal. */
  lemma ParserRange(rb: ParsedRunbook)
    ensures (exists text :: Parse(text) == Ok(rb)) <==> Normal(rb)
  {
    if text :| Parse(text) == Ok(rb) {
      ParseIsNormal(text);
    }
    if Normal(rb) {
      RoundTrip(rb);
    }
  }

  /** Normal-form theorem: printing what was parsed and parsing it again changes nothing. */
  lemma ReparseIsStable(text: string)
    ensures Parse(text).Ok? ==> Parse(Render(Parse(text).value)) == Parse(text)
  {
    ParseIsNormal(text);
    if Parse(text).Ok? {
      RoundTrip(Parse(text).value);
    }
  }
}
