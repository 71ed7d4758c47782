/** What a parse means, stated without the state machine: where each line stands, what each
    section contributes, and which edits of the text cannot be observed. */
module ParserMeaning {
  import opened Text
  import opened RunbookParser
  import opened NormalForm

  // ---------------------------------------------------------------- where a line stands

  function FenceCount(lines: seq<string>): nat {
    if lines == [] then 0
    else FenceCount(lines[..|lines| - 1]) + if IsFence(lines[|lines| - 1]) then 1 else 0
  }

  /** Whether the line after these stands inside a fenced block. */
  predicate InFence(lines: seq<string>) { FenceCount(lines) % 2 == 1 }

  /** The trimmed lines that are neither fences nor fenced. */
  function Unfenced(lines: seq<string>): seq<string> {
    if lines == [] then []
    else
      var before, last := lines[..|lines| - 1], lines[|lines| - 1];
      Unfenced(before) + if IsFence(last) || InFence(before) then [] else [Trim(last)]
  }

  predicate IsHeading(line: string) { "## " <= line }

  predicate IsSubheading(line: string) { "### " <= line && !IsHeading(line) }

  /** The lower-cased title of the last heading, "" before the first. */
  function SectionOf(u: seq<string>): string {
    if u == [] then ""
    else if IsHeading(u[|u| - 1]) then Lower(u[|u| - 1][3..])
    else SectionOf(u[..|u| - 1])
  }

  /** The last subheading under the last heading, "" if there is none. */
  function SubOf(u: seq<string>): string {
    if u == [] || IsHeading(u[|u| - 1]) then ""
    else if IsSubheading(u[|u| - 1]) then u[|u| - 1][4..]
    else SubOf(u[..|u| - 1])
  }

  /** The lines after the last fence. */
  function SinceFence(lines: seq<string>): seq<string> {
    if lines == [] || IsFence(lines[|lines| - 1]) then []
    else SinceFence(lines[..|lines| - 1]) + [lines[|lines| - 1]]
  }

  datatype Entry = Entry(sub: string, line: string)

  /** The content lines of a section, in order, each with its subheading. */
  function Entries(u: seq<string>, section: string): seq<Entry> {
    if u == [] then []
    else
      var before, last := u[..|u| - 1], u[|u| - 1];
      Entries(before, section)
      + if !IsHeading(last) && !IsSubheading(last) && SectionOf(before) == section
        then [Entry(SubOf(before), last)] else []
  }

  // ---------------------------------------------------------------- what a section contributes

  function Gather(f: string -> seq<string>, es: seq<Entry>): seq<string> {
    if es == [] then [] else Gather(f, es[..|es| - 1]) + f(es[|es| - 1].line)
  }

  function Listed(tag: string, line: string): seq<string> {
    if tag <= line then TrimEach(Split(line[|tag|..], ',')) else []
  }

  function NamespacesIn(line: string): seq<string> { Listed("- Namespaces:", line) }

  function ResourcesIn(line: string): seq<string> { Listed("- Resources:", line) }

  function SeverityIn(line: string): seq<string> { if line == "" then [] else TrimEach(Split(line, ',')) }

  function ToolIn(line: string): seq<string> { if "- " <= line then [line[2..]] else [] }

  /** The bullets that count towards steps: those under a subheading. */
  function Bullets(es: seq<Entry>): seq<Entry> {
    if es == [] then []
    else
      var last := es[|es| - 1];
      Bullets(es[..|es| - 1]) + if "- " <= last.line && last.sub != "" then [last] else []
  }

  /** The subheadings of the bullets, each once, in order of first bullet. */
  function FirstNames(bs: seq<Entry>): seq<string> {
    if bs == [] then []
    else
      var names := FirstNames(bs[..|bs| - 1]);
      names + if bs[|bs| - 1].sub in names then [] else [bs[|bs| - 1].sub]
  }

  function KeyValue(line: string): Option<(string, string)> {
    match Cut(if "- " <= line then line[2..] else line, ':')
    case None => None
    case Some((k, v)) => Some((Trim(Lower(k)), Trim(v)))
  }

  /** The value last assigned to a key under a subheading, "" if it never was. */
  function LastValue(bs: seq<Entry>, name: string, key: string): string {
    if bs == [] then ""
    else
      var last := bs[|bs| - 1];
      var kv := KeyValue(last.line);
      if last.sub == name && kv.Some? && kv.value.0 == key then kv.value.1
      else LastValue(bs[..|bs| - 1], name, key)
  }

  function StepFor(bs: seq<Entry>, name: string): ParsedStep {
    ParsedStep(name, LastValue(bs, name, "action"), LastValue(bs, name, "target"), LastValue(bs, name, "risk"),
               Lower(LastValue(bs, name, "autoapprove")) == "true")
  }

  function Grouped(bs: seq<Entry>): seq<ParsedStep> {
    var names := FirstNames(bs);
    seq(|names|, i requires 0 <= i < |names| => StepFor(bs, names[i]))
  }

  function Diagnoses(lines: seq<string>): seq<DiagnosisEntry> {
    if lines == [] then []
    else
      var before, last := lines[..|lines| - 1], lines[|lines| - 1];
      var u := Unfenced(before);
      Diagnoses(before)
      + if IsFence(last) && InFence(before) && SectionOf(u) == "diagnosis" && SubOf(u) != ""
        then [DiagnosisEntry(SubOf(u), Trim(Lines(SinceFence(before))))] else []
  }

  /** The runbook that the lines after the title describe. */
  function Meaning(title: string, lines: seq<string>): ParsedRunbook {
    var u := Unfenced(lines);
    ParsedRunbook(
      title,
      RunbookScope(Gather(NamespacesIn, Entries(u, "scope")), Gather(ResourcesIn, Entries(u, "scope"))),
      Gather(SeverityIn, Entries(u, "severity")),
      Gather(ToolIn, Entries(u, "allowed tools")),
      Gather(ToolIn, Entries(u, "forbidden tools")),
      Diagnoses(lines),
      Grouped(Bullets(Entries(u, "remediation"))),
      Grouped(Bullets(Entries(u, "rollback"))))
  }

  // ---------------------------------------------------------------- the one-pass merge groups

  /** One name per subheading that has a bullet, none twice. */
  lemma {:induction false} FirstNamesDistinct(bs: seq<Entry>)
    ensures forall i, j :: 0 <= i < j < |FirstNames(bs)| ==> FirstNames(bs)[i] != FirstNames(bs)[j]
    ensures forall i :: 0 <= i < |bs| ==> bs[i].sub in FirstNames(bs)
    ensures forall n :: n in FirstNames(bs) ==> exists i :: 0 <= i < |bs| && bs[i].sub == n
  {
    if bs == [] {
    } else {
      var before := bs[..|bs| - 1];
      FirstNamesDistinct(before);
      assert forall i :: 0 <= i < |before| ==> bs[i] == before[i];
      forall n | n in FirstNames(bs) ensures exists i :: 0 <= i < |bs| && bs[i].sub == n {
        if n in FirstNames(before) {
          var i :| 0 <= i < |before| && before[i].sub == n;
          assert bs[i].sub == n;
        } else {
          assert bs[|bs| - 1].sub == n;
        }
      }
    }
  }

  lemma LastValueGrows(bs: seq<Entry>, b: Entry, name: string, key: string)
    ensures LastValue(bs + [b], name, key)
         == (var kv := KeyValue(b.line);
             if b.sub == name && kv.Some? && kv.value.0 == key then kv.value.1 else LastValue(bs, name, key))
  {
    assert (bs + [b])[..|bs|] == bs;
  }

  lemma SetFieldMeans(s: ParsedStep, key: string, val: string)
    ensures SetField(s, key, val)
         == ParsedStep(s.name, if key == "action" then val else s.action, if key == "target" then val else s.target,
                       if key == "risk" then val else s.risk,
                       if key == "autoapprove" then Lower(val) == "true" else s.autoApprove)
  {}

  lemma StepForSame(bs: seq<Entry>, b: Entry)
    ensures StepFor(bs + [b], b.sub) == MergeStep(StepFor(bs, b.sub), b.line)
  {
    LastValueGrows(bs, b, b.sub, "action");
    LastValueGrows(bs, b, b.sub, "target");
    LastValueGrows(bs, b, b.sub, "risk");
    LastValueGrows(bs, b, b.sub, "autoapprove");
    var kv := KeyValue(b.line);
    if kv.Some? {
      SetFieldMeans(StepFor(bs, b.sub), kv.value.0, kv.value.1);
    }
  }

  lemma StepForOther(bs: seq<Entry>, b: Entry, name: string)
    requires name != b.sub
    ensures StepFor(bs + [b], name) == StepFor(bs, name)
  {
    assert (bs + [b])[..|bs|] == bs;
  }

  lemma {:induction false} StepForAbsent(bs: seq<Entry>, name: string)
    requires forall i :: 0 <= i < |bs| ==> bs[i].sub != name
    ensures StepFor(bs, name) == NewStep(name)
  {
    if bs == [] {
    } else {
      StepForAbsent(bs[..|bs| - 1], name);
    }
  }

  lemma GroupedIndex(bs: seq<Entry>, name: string)
    ensures var idx := FindStepIndex(Grouped(bs), name);
            if name in FirstNames(bs) then 0 <= idx < |FirstNames(bs)| && FirstNames(bs)[idx] == name else idx == -1
  {
    var idx := FindStepIndex(Grouped(bs), name);
    assert forall i :: 0 <= i < |FirstNames(bs)| ==> Grouped(bs)[i].name == FirstNames(bs)[i];
  }

  lemma StepsAfterBullet(bs: seq<Entry>, b: Entry, i: nat)
    requires i < |FirstNames(bs)|
    ensures StepFor(bs + [b], FirstNames(bs)[i])
         == if FirstNames(bs)[i] == b.sub then MergeStep(Grouped(bs)[i], b.line) else Grouped(bs)[i]
  {
    if FirstNames(bs)[i] == b.sub {
      StepForSame(bs, b);
    } else {
      StepForOther(bs, b, FirstNames(bs)[i]);
    }
  }

  /** Merging one more bullet into the grouping is grouping one more bullet. */
  lemma MergeGroups(bs: seq<Entry>, b: Entry)
    requires "- " <= b.line && b.sub != ""
    ensures MergeBullet(Grouped(bs), b.sub, b.line) == Grouped(bs + [b])
  {
    hide StepFor, MergeStep, NewStep, FindStepIndex;
    var names, merged := FirstNames(bs), MergeBullet(Grouped(bs), b.sub, b.line);
    assert (bs + [b])[..|bs|] == bs;
    FirstNamesDistinct(bs);
    GroupedIndex(bs, b.sub);
    forall i | 0 <= i < |names| ensures merged[i] == StepFor(bs + [b], names[i]) {
      StepsAfterBullet(bs, b, i);
    }
    if b.sub !in names {
      StepForAbsent(bs, b.sub);
      StepForSame(bs, b);
      assert merged[|names|] == StepFor(bs + [b], b.sub);
    }
  }

  // ---------------------------------------------------------------- the state machine computes the meaning

  predicate Placed(c: Cursor, lines: seq<string>) {
    && c.inCode == InFence(lines)
    && c.section == SectionOf(Unfenced(lines))
    && c.sub == SubOf(Unfenced(lines))
    && c.code == (if InFence(lines) then Lines(SinceFence(lines)) else "")
  }

  predicate Describes(c: Cursor, title: string, lines: seq<string>) {
    Placed(c, lines) && c.rb == Meaning(title, lines)
  }

  lemma {:induction false} LinesAppend(parts: seq<string>, l: string)
    ensures Lines(parts + [l]) == Lines(parts) + l + "\n"
  {
    if parts == [] {
      assert ([] + [l])[1..] == [];
    } else {
      assert (parts + [l])[1..] == parts[1..] + [l];
      LinesAppend(parts[1..], l);
    }
  }

  lemma ContentLineStands(lines: seq<string>, line: string)
    requires !IsFence(line) && !InFence(lines)
    ensures Unfenced(lines + [line]) == Unfenced(lines) + [Trim(line)]
    ensures Diagnoses(lines + [line]) == Diagnoses(lines)
  {
    assert (lines + [line])[..|lines|] == lines;
    assert Diagnoses(lines) + [] == Diagnoses(lines);
  }

  lemma ContentDescribed(title: string, lines: seq<string>, line: string)
    requires !IsFence(line) && !InFence(lines) && !IsHeading(Trim(line)) && !IsSubheading(Trim(line))
    ensures var u := Unfenced(lines);
            Meaning(title, lines + [line]) == Content(SectionOf(u), SubOf(u), Trim(line), Meaning(title, lines))
  {
    hide Entries, Gather, Bullets, Grouped, Diagnoses, Unfenced, SubOf, Trim, MergeBullet, TrimEach, IsFence, InFence;
    var u, t := Unfenced(lines), Trim(line);
    ContentLineStands(lines, line);
    var e := Entry(SubOf(u), t);
    EntriesGrow(u, t, "scope");
    EntriesGrow(u, t, "severity");
    EntriesGrow(u, t, "allowed tools");
    EntriesGrow(u, t, "forbidden tools");
    EntriesGrow(u, t, "remediation");
    EntriesGrow(u, t, "rollback");
    match SectionOf(u) {
      case "scope" =>
        GatherGrow(NamespacesIn, Entries(u, "scope"), e);
        GatherGrow(ResourcesIn, Entries(u, "scope"), e);
      case "severity" => GatherGrow(SeverityIn, Entries(u, "severity"), e);
      case "allowed tools" => GatherGrow(ToolIn, Entries(u, "allowed tools"), e);
      case "forbidden tools" => GatherGrow(ToolIn, Entries(u, "forbidden tools"), e);
      case "remediation" => BulletsGrow(Entries(u, "remediation"), e);
      case "rollback" => BulletsGrow(Entries(u, "rollback"), e);
      case _ =>
    }
  }

  lemma EntriesGrow(u: seq<string>, t: string, section: string)
    requires !IsHeading(t) && !IsSubheading(t)
    ensures Entries(u + [t], section)
         == Entries(u, section) + if SectionOf(u) == section then [Entry(SubOf(u), t)] else []
    ensures SectionOf(u) != section ==> Entries(u + [t], section) == Entries(u, section)
  {
    assert (u + [t])[..|u|] == u;
  }

  lemma GatherGrow(f: string -> seq<string>, es: seq<Entry>, e: Entry)
    ensures Gather(f, es + [e]) == Gather(f, es) + f(e.line)
    ensures f(e.line) == [] ==> Gather(f, es + [e]) == Gather(f, es)
  {
    assert (es + [e])[..|es|] == es;
  }

  lemma {:induction false} BulletsGrow(es: seq<Entry>, e: Entry)
    ensures Grouped(Bullets(es + [e])) == MergeBullet(Grouped(Bullets(es)), e.sub, e.line)
  {
    assert (es + [e])[..|es|] == es;
    if "- " <= e.line && e.sub != "" {
      MergeGroups(Bullets(es), e);
    } else {
      assert Bullets(es + [e]) == Bullets(es);
    }
  }

  lemma EntriesSame(u: seq<string>, t: string, section: string)
    requires IsHeading(t) || IsSubheading(t)
    ensures Entries(u + [t], section) == Entries(u, section)
  {
    assert (u + [t])[..|u|] == u;
    assert Entries(u, section) + [] == Entries(u, section);
  }

  /** Fences, fenced lines and headings contribute to the diagnosis at most. */
  lemma {:induction false} HeadingDescribed(title: string, lines: seq<string>, line: string)
    requires IsFence(line) || InFence(lines) || IsHeading(Trim(line)) || IsSubheading(Trim(line))
    ensures Meaning(title, lines + [line])
         == Meaning(title, lines).(diagnosis := Diagnoses(lines + [line]))
  {
    var all := lines + [line];
    assert all[..|lines|] == lines;
    var u, t := Unfenced(lines), Trim(line);
    if IsFence(line) || InFence(lines) {
      assert Unfenced(all) == u;
    } else {
      assert Unfenced(all) == u + [t];
      EntriesSame(u, t, "scope");
      EntriesSame(u, t, "severity");
      EntriesSame(u, t, "allowed tools");
      EntriesSame(u, t, "forbidden tools");
      EntriesSame(u, t, "remediation");
      EntriesSame(u, t, "rollback");
    }
  }

  /** The state after one line, by the kind of line. */
  lemma StepKinds(c: Cursor, line: string)
    ensures var t, c' := Trim(line), Step(c, line);
            if IsFence(line) then
              && c'.section == c.section && c'.sub == c.sub && c'.inCode == !c.inCode
              && c'.code == (if c.inCode then "" else c.code)
              && c'.rb == (if c.inCode && c.section == "diagnosis" && c.sub != ""
                           then c.rb.(diagnosis := c.rb.diagnosis + [DiagnosisEntry(c.sub, Trim(c.code))]) else c.rb)
            else if c.inCode then c' == c.(code := c.code + line + "\n")
            else if IsHeading(t) then c' == c.(section := Lower(t[3..]), sub := "")
            else if IsSubheading(t) then c' == c.(sub := t[4..])
            else c' == c.(rb := Content(c.section, c.sub, t, c.rb))
  {}

  lemma OneMoreLine(lines: seq<string>, line: string)
    ensures InFence(lines + [line]) <==> (InFence(lines) != IsFence(line))
    ensures Unfenced(lines + [line]) == Unfenced(lines) + if IsFence(line) || InFence(lines) then [] else [Trim(line)]
    ensures SinceFence(lines + [line]) == if IsFence(line) then [] else SinceFence(lines) + [line]
  {
    hide IsFence, Trim;
    assert (lines + [line])[..|lines|] == lines;
  }

  lemma OneMoreContent(u: seq<string>, l: string)
    ensures SectionOf(u + [l]) == if IsHeading(l) then Lower(l[3..]) else SectionOf(u)
    ensures SubOf(u + [l])
         == if IsHeading(l) then "" else if IsSubheading(l) then l[4..] else SubOf(u)
  {
    hide Lower;
    assert (u + [l])[..|u|] == u;
  }

  lemma PlacedStep(c: Cursor, lines: seq<string>, line: string)
    requires Placed(c, lines)
    ensures Placed(Step(c, line), lines + [line])
  {
    hide Step, IsFence, InFence, Unfenced, SinceFence, SectionOf, SubOf, Trim, Lower, Content;
    StepKinds(c, line);
    OneMoreLine(lines, line);
    if IsFence(line) || InFence(lines) {
      assert Unfenced(lines) + [] == Unfenced(lines);
      LinesAppend(SinceFence(lines), line);
    } else {
      OneMoreContent(Unfenced(lines), Trim(line));
    }
  }

  lemma StepDescribes(c: Cursor, title: string, lines: seq<string>, line: string)
    requires Describes(c, title, lines)
    ensures Describes(Step(c, line), title, lines + [line])
  {
    PlacedStep(c, lines, line);
    StepKinds(c, line);
    if IsFence(line) || InFence(lines) || IsHeading(Trim(line)) || IsSubheading(Trim(line)) {
      HeadingDescribed(title, lines, line);
      assert (lines + [line])[..|lines|] == lines;
      assert Diagnoses(lines) + [] == Diagnoses(lines);
    } else {
      ContentDescribed(title, lines, line);
    }
  }

  lemma RunLast(c: Cursor, lines: seq<string>, line: string)
    ensures Run(c, lines + [line]) == Step(Run(c, lines), line)
  {
    RunConcat(c, lines, [line]);
    assert Run(Step(Run(c, lines), line), []) == Step(Run(c, lines), line);
  }

  lemma {:induction false} RunDescribes(title: string, lines: seq<string>)
    ensures Describes(Run(Start(title), lines), title, lines)
    decreases |lines|
  {
    if lines == [] {
    } else {
      var before, last := lines[..|lines| - 1], lines[|lines| - 1];
      assert lines == before + [last];
      RunDescribes(title, before);
      RunLast(Start(title), before, last);
      StepDescribes(Run(Start(title), before), title, before, last);
    }
  }

  /** The parser accepts exactly the texts with a title line and a rollback bullet, and returns their meaning. */
  lemma ParseMeans(text: string)
    ensures var lines := Split(text, '\n');
            if "# " <= lines[0] && Bullets(Entries(Unfenced(lines[1..]), "rollback")) != []
            then Parse(text) == Ok(Meaning(lines[0][2..], lines[1..]))
            else Parse(text) == Err(if "# " <= lines[0] then MissingRollback else InvalidSyntax)
  {
    var lines := Split(text, '\n');
    if "# " <= lines[0] {
      RunDescribes(lines[0][2..], lines[1..]);
    }
    var bs := Bullets(Entries(Unfenced(lines[1..]), "rollback"));
    FirstNamesDistinct(bs);
    if bs != [] {
      assert bs[0].sub in FirstNames(bs);
    }
  }

  // ---------------------------------------------------------------- edits that cannot be observed

  function TextOf(lines: seq<string>): string { Join(lines, '\n') }

  lemma ParseOfLines(lines: seq<string>)
    requires lines != [] && OneLine(lines)
    ensures Parse(TextOf(lines)) == ParseLines(lines)
  {
    SplitJoin(lines, '\n');
  }

  predicate NoFence(lines: seq<string>) { forall l :: l in lines ==> !IsFence(l) }

  lemma BlockRun(c: Cursor, open: string, body: seq<string>, close: string)
    requires !c.inCode && c.code == "" && IsFence(open) && IsFence(close) && NoFence(body)
    requires c.section != "diagnosis" || c.sub == ""
    ensures Run(c, [open] + body + [close]) == c
  {
    var c1 := c.(inCode := true);
    assert [open] + body + [close] == [open] + (body + [close]);
    RunConcat(c, [open], body + [close]);
    assert Run(Step(c, open), []) == Step(c, open) == c1;
    RunConcat(c1, body, [close]);
    FencedLines(c1, body);
    var c2 := c1.(code := c1.code + Lines(body));
    assert Run(Step(c2, close), []) == Step(c2, close) == c;
  }

  /** Two texts with the same title and the same state after a common prefix and one of two middles. */
  lemma {:induction false} SameAfterMiddle(title: string, before: seq<string>, m1: seq<string>, m2: seq<string>,
                                           after: seq<string>)
    requires OneLine([title] + (before + (m1 + after))) && OneLine([title] + (before + (m2 + after)))
    requires "# " <= title ==>
               var c := Run(Start(title[2..]), before);
               Run(Run(c, m1), after).rb == Run(Run(c, m2), after).rb
    ensures Parse(TextOf([title] + (before + (m1 + after)))) == Parse(TextOf([title] + (before + (m2 + after))))
  {
    var l1, l2 := [title] + (before + (m1 + after)), [title] + (before + (m2 + after));
    ParseOfLines(l1);
    ParseOfLines(l2);
    assert l1[1..] == before + (m1 + after) && l2[1..] == before + (m2 + after);
    if "# " <= title {
      var c0 := Start(title[2..]);
      RunConcat(c0, before, m1 + after);
      RunConcat(c0, before, m2 + after);
      RunConcat(Run(c0, before), m1, after);
      RunConcat(Run(c0, before), m2, after);
    }
  }

  /** Outside a diagnosis subsection, the body of a closed fenced block can be replaced by any other fence-free body. */
  lemma FencedBodyUnobserved(title: string, before: seq<string>, open: string, body1: seq<string>, body2: seq<string>,
                             close: string, after: seq<string>)
    requires OneLine([title] + (before + ([open] + body1 + [close] + after)))
    requires OneLine([title] + (before + ([open] + body2 + [close] + after)))
    requires IsFence(open) && IsFence(close) && NoFence(body1) && NoFence(body2)
    requires !InFence(before)
    requires SectionOf(Unfenced(before)) != "diagnosis" || SubOf(Unfenced(before)) == ""
    ensures Parse(TextOf([title] + (before + ([open] + body1 + [close] + after))))
         == Parse(TextOf([title] + (before + ([open] + body2 + [close] + after))))
  {
    if "# " <= title {
      RunDescribes(title[2..], before);
      BlockRun(Run(Start(title[2..]), before), open, body1, close);
      BlockRun(Run(Start(title[2..]), before), open, body2, close);
    }
    SameAfterMiddle(title, before, [open] + body1 + [close], [open] + body2 + [close], after);
  }

  predicate Known(section: string) {
    section in ["scope", "severity", "allowed tools", "forbidden tools", "diagnosis", "remediation", "rollback"]
  }

  predicate NoHeading(u: seq<string>) { forall l :: l in u ==> !IsHeading(l) }

  lemma UnknownSectionStep(c: Cursor, line: string)
    requires !Known(c.section) && (IsFence(line) || c.inCode || !IsHeading(Trim(line)))
    ensures Step(c, line).rb == c.rb && Step(c, line).section == c.section
    ensures Step(c, line).inCode == (c.inCode != IsFence(line))
    ensures (!c.inCode ==> c.code == "") && !Step(c, line).inCode ==> Step(c, line).code == ""
  {
    StepKinds(c, line);
    assert Known("diagnosis") && Known("scope") && Known("severity") && Known("allowed tools");
    assert Known("forbidden tools") && Known("remediation") && Known("rollback");
  }

  lemma UnfencedLast(before: seq<string>, last: string)
    requires NoHeading(Unfenced(before + [last]))
    ensures NoHeading(Unfenced(before))
    ensures !IsFence(last) && !InFence(before) ==> !IsHeading(Trim(last))
  {
    var lines := before + [last];
    assert lines[..|lines| - 1] == before;
    assert Unfenced(before) <= Unfenced(lines);
    assert !IsFence(last) && !InFence(before) ==> Unfenced(lines)[|Unfenced(before)|] == Trim(last);
  }

  lemma {:induction false} UnknownSectionRun(c: Cursor, lines: seq<string>)
    requires !c.inCode && c.code == "" && !Known(c.section)
    requires NoHeading(Unfenced(lines))
    ensures var c' := Run(c, lines);
            c'.rb == c.rb && c'.section == c.section && c'.inCode == InFence(lines) && (!c'.inCode ==> c'.code == "")
    decreases |lines|
  {
    hide Step, Known, Unfenced, IsHeading, IsFence;
    if lines == [] {
    } else {
      var before, last := lines[..|lines| - 1], lines[|lines| - 1];
      assert lines == before + [last];
      UnfencedLast(before, last);
      UnknownSectionRun(c, before);
      RunLast(c, before, last);
      UnknownSectionStep(Run(c, before), last);
    }
  }

  lemma HeadingResets(c: Cursor, line: string)
    requires !c.inCode && c.code == "" && IsHeading(Trim(line))
    ensures Step(c, line) == Cursor(Lower(Trim(line)[3..]), "", false, "", c.rb)
  {
    assert Trim(line)[0] == '#' != FENCE[0];
  }

  lemma {:induction false} UnknownSectionSkipped(c: Cursor, heading: string, body: seq<string>, after: seq<string>)
    requires !c.inCode && c.code == ""
    requires !InFence(body) && NoHeading(Unfenced(body))
    requires IsHeading(Trim(heading)) && !Known(Lower(Trim(heading)[3..]))
    requires after != [] ==> IsHeading(Trim(after[0]))
    ensures Run(Run(c, [heading] + body), after).rb == Run(Run(c, []), after).rb
  {
    var c1 := Step(c, heading);
    HeadingResets(c, heading);
    assert ([heading] + body)[1..] == body;
    UnknownSectionRun(c1, body);
    if after != [] {
      HeadingResets(Run(c1, body), after[0]);
      HeadingResets(c, after[0]);
    }
  }

  /** A fence-balanced section with an unrecognised heading, placed between two sections, changes nothing. */
  lemma UnknownSectionUnobserved(title: string, before: seq<string>, heading: string, body: seq<string>,
                                 after: seq<string>)
    requires OneLine([title] + (before + (([heading] + body) + after))) && OneLine([title] + (before + ([] + after)))
    requires !InFence(before) && !InFence(body) && NoHeading(Unfenced(body))
    requires IsHeading(Trim(heading)) && !Known(Lower(Trim(heading)[3..]))
    requires after != [] ==> IsHeading(Trim(after[0]))
    ensures Parse(TextOf([title] + (before + (([heading] + body) + after))))
         == Parse(TextOf([title] + (before + ([] + after))))
  {
    if "# " <= title {
      RunDescribes(title[2..], before);
      UnknownSectionSkipped(Run(Start(title[2..]), before), heading, body, after);
    }
    SameAfterMiddle(title, before, [heading] + body, [], after);
  }
}
