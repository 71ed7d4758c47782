/** Texts from which redaction leaves an API key or a bearer token: a run of digits too short to be one, and then the
    word password spelled with two long s, whose masking makes the run long enough. */
module RedactionWitness {
  import opened Text
  import opened Patterns
  import opened Redaction
  import opened RedactionMasks

  const LONG_S_WORD: string := "pa\U{017F}\U{017F}word=x"
  const KEY_LEAD: string := "sk-ant-"
  const BEARER_LEAD: string := "Bearer "

  predicate Digits(u: string) { forall c <- u :: Digit(c) }

  /** The text, and what redaction makes of it. */
  function WithEnd(lead: string, u: string, end: string): string { lead + (u + end) }

  // ---------------------------------------------------------------- where no match begins

  lemma DigitsDodge(a: CharClass, b: CharClass, u: string)
    requires Digits(u) && forall c | Digit(c) :: !In(a, c)
    ensures Dodges(a, b, u)
  {
    forall i | 0 <= i < |u| ensures !In(a, u[i]) { assert u[i] in u; }
  }

  lemma DodgesJoin(a: CharClass, b: CharClass, x: string, y: string)
    requires Dodges(a, b, x) && Dodges(a, b, y)
    ensures Dodges(a, b, x + y)
  {
    forall i | 0 <= i < |x + y| && In(a, (x + y)[i]) ensures i + 1 < |x + y| && !In(b, (x + y)[i + 1]) {
      if i < |x| { assert (x + y)[i] == x[i]; } else { assert (x + y)[i] == y[i - |x|]; }
    }
  }

  lemma TextDodges(a: CharClass, b: CharClass, lead: string, u: string, end: string)
    requires Digits(u) && (forall c | Digit(c) :: !In(a, c)) && Dodges(a, b, lead) && Dodges(a, b, end)
    ensures Dodges(a, b, WithEnd(lead, u, end))
  {
    DigitsDodge(a, b, u);
    DodgesJoin(a, b, u, end);
    DodgesJoin(a, b, lead, u + end);
  }

  lemma DodgingIsFixed(q: Rule, m: string)
    requires Opens(q.pattern) && Dodges(q.pattern[0].cls, q.pattern[1].cls, m)
    ensures Sub(q, m) == m
  {
    CopyDodging(q, m, "");
    assert m + "" == m;
  }

  /** A text with no match at its head, and nowhere for one to begin after it. */
  lemma HeadlessIsFixed(q: Rule, m: string)
    requires Opens(q.pattern) && m != "" && At(q, m).None? && Dodges(q.pattern[0].cls, q.pattern[1].cls, m[1..])
    ensures Sub(q, m) == m
  {
    DodgingIsFixed(q, m[1..]);
  }

  // ---------------------------------------------------------------- runs

  lemma {:induction false} RunStops(k: CharClass, i: nat, s: string)
    requires i < |s| && !In(k, s[i])
    ensures RunLen(k, s) <= i
  {
    if i == 0 {
    } else {
      RunStops(k, i - 1, s[1..]);
    }
  }

  lemma {:induction false} RunAtLeast(k: CharClass, n: nat, s: string)
    requires n <= |s| && forall i | 0 <= i < n :: In(k, s[i])
    ensures RunLen(k, s) >= n
  {
    if n == 0 {
    } else {
      RunAtLeast(k, n - 1, s[1..]);
    }
  }

  predicate RunKind(k: CharClass) { k == KeyChar || k == TokenChar }

  lemma LongSLetters(s: string)
    requires s == LONG_S_WORD
    ensures |s| == 10 && s[2] == '\U{017F}'
  {}

  lemma PasswordText(s: string)
    requires s == Replacement(Passwords)
    ensures |s| >= 8 && forall i | 0 <= i < 8 :: Letter(s[i])
  {}

  lemma {:induction false} LongSEnds(k: CharClass, u: string, e: string)
    requires |e| > 2 && !In(k, e[2])
    ensures RunLen(k, u + e) <= |u| + 2
  {
    RunStops(k, |u| + 2, u + e);
  }

  lemma {:induction false} ShortBefore(k: CharClass, u: string)
    requires RunKind(k)
    ensures RunLen(k, u + LONG_S_WORD) <= |u| + 2
  {
    hide RunLen;
    LongSLetters(LONG_S_WORD);
    LongSEnds(k, u, LONG_S_WORD);
  }

  lemma {:induction false} LongAfter(k: CharClass, u: string)
    requires RunKind(k) && Digits(u)
    ensures RunLen(k, u + Replacement(Passwords)) >= |u| + 8
  {
    var s := u + Replacement(Passwords);
    PasswordText(Replacement(Passwords));
    forall i | 0 <= i < |u| + 8 ensures In(k, s[i]) {
      if i < |u| { assert s[i] in u; } else { assert s[i] == Replacement(Passwords)[i - |u|]; }
    }
    RunAtLeast(k, |u| + 8, s);
  }

  // ---------------------------------------------------------------- the masked word

  lemma {:induction false} FoldsAt(w: string, s: string)
    requires |w| <= |s| && forall i | 0 <= i < |w| :: Folded(s[i]) == w[i]
    ensures FoldPrefix(w, s)
  {
    if w == "" {
    } else {
      FoldsAt(w[1..], s[1..]);
    }
  }

  lemma LongSFolds(s: string, w: string)
    requires s == LONG_S_WORD && w == "password"
    ensures |w| == 8 && |s| == 10 && s[8] == '=' && s[9] == 'x'
    ensures forall i | 0 <= i < |w| :: Folded(s[i]) == w[i]
  {}

  lemma OneLetter(a: string)
    requires |a| == 2 && a[0] == '=' && !PySpace(a[1])
    ensures AfterSpace(a) == a && AfterSign(a) == a[1..] && RunLen(Ink, a[1..]) == 1
  {
    assert RunLen(Space, a) == 0 && RunLen(Space, a[1..]) == 0;
    assert a[1..][1..] == "";
  }

  lemma OneLetterValue(w: string, s: string, a: string)
    requires FoldPrefix(w, s) && |w| <= |s| && a == s[|w|..] && |a| == 2 && a[0] == '=' && !PySpace(a[1])
    ensures Assigned(w, s) == a[1..] && RunLen(Ink, a[1..]) == 1
  {
    OneLetter(a);
  }

  lemma LongSMasked(kq: Kind)
    requires kq.Passwords?
    ensures Pass(kq, LONG_S_WORD) == Replacement(kq)
  {
    hide PatternFor, Replacement;
    RulePattern(kq);
    RuleParts(kq);
    var w, s, q := Word(kq), LONG_S_WORD, RuleFor(kq);
    LongSFolds(s, w);
    FoldsAt(w, s);
    var a := s[|w|..];
    OneLetterValue(w, s, a);
    MatchEnd(w, s, a[1..], |s|);
    assert Sub(q, s[|s|..]) == "";
  }

  // ---------------------------------------------------------------- the passes

  /** The leading text of a token, with its gap. */
  predicate TokenLead(kp: Kind, lead: string) {
    (kp.ApiKeys? && lead == KEY_LEAD) || (kp.Bearers? && lead == BEARER_LEAD)
  }

  lemma EndDodge(a: char, b: char)
    requires TokenStart(a, b) && a != '-'
    ensures Dodges(Lit(a), Lit(b), LONG_S_WORD)
  {}

  lemma EndDodges()
    ensures Dodges(Lit('s'), Lit('k'), LONG_S_WORD) && Dodges(Lit('B'), Lit('e'), LONG_S_WORD)
    ensures Dodges(Lit('A'), Lit('K'), LONG_S_WORD)
  {
    hide Dodges;
    EndDodge('s', 'k');
    EndDodge('B', 'e');
    EndDodge('A', 'K');
  }

  lemma KeyLeadDodges()
    ensures Dodges(Lit('s'), Lit('k'), KEY_LEAD[1..]) && Dodges(Lit('B'), Lit('e'), KEY_LEAD)
    ensures Dodges(Lit('A'), Lit('K'), KEY_LEAD)
  {}

  lemma BearerLeadDodges()
    ensures Dodges(Lit('s'), Lit('k'), BEARER_LEAD) && Dodges(Lit('B'), Lit('e'), BEARER_LEAD[1..])
    ensures Dodges(Lit('A'), Lit('K'), BEARER_LEAD)
  {}

  lemma KeyLeadUnled(lead: string)
    requires lead == KEY_LEAD
    ensures Plain(lead) && Unled(lead, 0, 'p', 'P', 'a', 'A')
    ensures Unled(lead, 0, 's', 'S', 'e', 'E') && Unled(lead, 0, 't', 'T', 'o', 'O')
  {}

  lemma BearerLeadUnled(lead: string)
    requires lead == BEARER_LEAD
    ensures Plain(lead) && Unled(lead, 0, 'p', 'P', 'a', 'A')
    ensures Unled(lead, 0, 's', 'S', 'e', 'E') && Unled(lead, 0, 't', 'T', 'o', 'O')
  {}

  lemma LeadFoldDodges(kp: Kind, lead: string)
    requires TokenLead(kp, lead)
    ensures Dodges(Fold('p'), Fold('a'), lead) && Dodges(Fold('s'), Fold('e'), lead)
        && Dodges(Fold('t'), Fold('o'), lead)
  {
    hide Unled, Plain;
    if kp.ApiKeys? { KeyLeadUnled(lead); } else { BearerLeadUnled(lead); }
    assert lead[0..] == lead;
    UnledDodges(lead, 0, 'p', 'P', 'a', 'A');
    UnledDodges(lead, 0, 's', 'S', 'e', 'E');
    UnledDodges(lead, 0, 't', 'T', 'o', 'O');
  }

  /** A pass over tokens of another kind finds nothing. */
  lemma OtherTokenPass(kp: Kind, kq: Kind, lead: string, u: string)
    requires TokenLead(kp, lead) && Digits(u) && IsToken(kq) && kq != kp
    ensures var s := WithEnd(lead, u, LONG_S_WORD); Pass(kq, s) == s
  {
    hide PatternFor, Replacement, WithEnd;
    var s := WithEnd(lead, u, LONG_S_WORD);
    RuleParts(kq);
    EndDodges();
    KeyLeadDodges();
    BearerLeadDodges();
    TextDodges(Lit(Word(kq)[0]), Lit(Word(kq)[1]), lead, u, LONG_S_WORD);
    DodgingIsFixed(RuleFor(kq), s);
  }

  lemma TailDodges(kp: Kind, lead: string, u: string)
    requires TokenLead(kp, lead) && Digits(u)
    ensures var s := WithEnd(lead, u, LONG_S_WORD);
      s != "" && Dodges(Lit(Word(kp)[0]), Lit(Word(kp)[1]), s[1..])
  {
    hide Dodges, WithEnd, Digits;
    EndDodges();
    KeyLeadDodges();
    BearerLeadDodges();
    TextDodges(Lit(Word(kp)[0]), Lit(Word(kp)[1]), lead[1..], u, LONG_S_WORD);
    TailOf(lead, u, LONG_S_WORD);
  }

  lemma TailOf(lead: string, u: string, end: string)
    requires lead != ""
    ensures WithEnd(lead, u, end) != "" && WithEnd(lead, u, end)[1..] == WithEnd(lead[1..], u, end)
  {}

  /** The leading text, then a gap if the token has one, then the run. */
  lemma TokenText(kp: Kind, lead: string, x: string)
    requires TokenLead(kp, lead)
    ensures Word(kp) <= lead + x
    ensures kp.ApiKeys? ==> (lead + x)[|Word(kp)|..] == x
    ensures kp.Bearers? ==> (lead + x)[|Word(kp)|..] == " " + x
  {}

  lemma GapRun(x: string)
    requires x != "" && !PySpace(x[0])
    ensures Match(BearerBody(), " " + x).Some? <==> RunLen(TokenChar, x) >= 20
  {
    var g := " " + x;
    assert g[1..] == x && RunLen(Space, x) == 0 && RunLen(Space, g) == 1;
    MatchSpacedRun(TokenChar, 20, g);
  }

  /** Such a text is a token exactly when the run after the leading text is long enough. */
  lemma {:induction false} TokenExact(kp: Kind, lead: string, x: string)
    requires TokenLead(kp, lead) && x != "" && !PySpace(x[0])
    ensures Match(RuleFor(kp).pattern, lead + x).Some?
            <==> if kp.ApiKeys? then RunLen(KeyChar, x) >= 10 else RunLen(TokenChar, x) >= 20
  {
    hide PatternFor, Replacement, Word, ApiBody, BearerBody, RunLen;
    RulePattern(kp);
    TokenText(kp, lead, x);
    MatchLits(Word(kp), Body(kp), lead + x);
    GapRun(x);
    KeyRun(x);
  }

  lemma KeyRun(x: string)
    ensures Match(ApiBody(), x).Some? <==> RunLen(KeyChar, x) >= 10
  {
    MatchAtLeast(KeyChar, 10, x);
  }

  /** The run is too short before the words are masked, and long enough after. */
  predicate Between(kp: Kind, n: nat) { if kp.ApiKeys? then 2 <= n < 8 else 12 <= n < 18 }

  lemma OwnPass(kp: Kind, lead: string, u: string)
    requires TokenLead(kp, lead) && Digits(u) && Between(kp, |u|)
    ensures var s := WithEnd(lead, u, LONG_S_WORD); Pass(kp, s) == s
  {
    hide PatternFor, Replacement, Word;
    var s := WithEnd(lead, u, LONG_S_WORD);
    RuleParts(kp);
    TailDodges(kp, lead, u);
    assert (u + LONG_S_WORD)[0] in u;
    ShortBefore(KeyChar, u);
    ShortBefore(TokenChar, u);
    TokenExact(kp, lead, u + LONG_S_WORD);
    HeadlessIsFixed(RuleFor(kp), s);
  }

  lemma PasswordPass(kp: Kind, kq: Kind, lead: string, u: string)
    requires TokenLead(kp, lead) && Digits(u) && kq.Passwords?
    ensures Pass(kq, WithEnd(lead, u, LONG_S_WORD)) == WithEnd(lead, u, Replacement(kq))
  {
    hide PatternFor, Replacement, TokenLead, Dodges, Digits;
    RuleParts(kq);
    LeadFoldDodges(kp, lead);
    DigitsDodge(Fold('p'), Fold('a'), u);
    DodgesJoin(Fold('p'), Fold('a'), lead, u);
    CopyDodging(RuleFor(kq), lead + u, LONG_S_WORD);
    LongSMasked(kq);
    Regroup(lead, u, LONG_S_WORD);
    Regroup(lead, u, Replacement(kq));
  }

  lemma Regroup(lead: string, u: string, end: string)
    ensures WithEnd(lead, u, end) == (lead + u) + end
  {}

  lemma MaskDodgesLater()
    ensures Dodges(Fold('s'), Fold('e'), Replacement(Passwords)) && Dodges(Fold('t'), Fold('o'), Replacement(Passwords))
  {
    MaskDodges(Passwords, Secrets);
    MaskDodges(Passwords, Tokens);
  }

  lemma LaterAssignmentPass(kp: Kind, kq: Kind, lead: string, u: string)
    requires TokenLead(kp, lead) && Digits(u) && (kq.Secrets? || kq.Tokens?)
    ensures var s := WithEnd(lead, u, Replacement(Passwords)); Pass(kq, s) == s
  {
    hide PatternFor, Replacement, WithEnd;
    var s := WithEnd(lead, u, Replacement(Passwords));
    RuleParts(kq);
    LeadFoldDodges(kp, lead);
    MaskDodgesLater();
    TextDodges(Fold(Word(kq)[0]), Fold(Word(kq)[1]), lead, u, Replacement(Passwords));
    DodgingIsFixed(RuleFor(kq), s);
  }

  lemma LeadDashes(kp: Kind, lead: string)
    requires TokenLead(kp, lead)
    ensures |lead| == 7 && lead[0] != '-' && forall i | 0 <= i < 6 :: lead[i] == '-' ==> lead[i + 1] != '-'
  {}

  lemma NoTwoDashes(kp: Kind, lead: string, u: string)
    requires TokenLead(kp, lead) && Digits(u) && u != ""
    ensures Dodges(Lit('-'), Lit('-'), WithEnd(lead, u, Replacement(Passwords)))
  {
    var r := Replacement(Passwords);
    var s := WithEnd(lead, u, r);
    LeadDashes(kp, lead);
    NoDashes(Passwords);
    forall i | 0 <= i < |u| ensures u[i] != '-' { assert u[i] in u; }
    assert forall i | 7 <= i < 7 + |u| :: s[i] == u[i - 7];
    assert forall i | 0 <= i < 7 :: s[i] == lead[i];
    assert forall i | 7 + |u| <= i < |s| :: s[i] == r[i - 7 - |u|];
  }

  lemma BlockPass(kp: Kind, kq: Kind, lead: string, u: string)
    requires TokenLead(kp, lead) && Digits(u) && u != "" && kq.PrivateKeys?
    ensures var s := WithEnd(lead, u, Replacement(Passwords)); Pass(kq, s) == s
  {
    hide PatternFor, Replacement, WithEnd;
    RuleParts(kq);
    NoTwoDashes(kp, lead, u);
    DodgingIsFixed(RuleFor(kq), WithEnd(lead, u, Replacement(Passwords)));
  }

  /** The text before the pass over passwords, and after it. */
  function Stage(n: nat, lead: string, u: string): string {
    WithEnd(lead, u, if n <= 3 then LONG_S_WORD else Replacement(Passwords))
  }

  lemma OnePass(kp: Kind, kq: Kind, lead: string, u: string)
    requires TokenLead(kp, lead) && Digits(u) && Between(kp, |u|)
    ensures Pass(kq, Stage(Rank(kq), lead, u)) == Stage(Rank(kq) + 1, lead, u)
  {
    hide Pass, WithEnd, Replacement;
    match kq {
      case Passwords => PasswordPass(kp, kq, lead, u);
      case Secrets => LaterAssignmentPass(kp, kq, lead, u);
      case Tokens => LaterAssignmentPass(kp, kq, lead, u);
      case PrivateKeys => BlockPass(kp, kq, lead, u);
      case _ => if kq == kp { OwnPass(kp, lead, u); } else { OtherTokenPass(kp, kq, lead, u); }
    }
  }

  lemma {:induction false} AllPasses(kp: Kind, kinds: seq<Kind>, n: nat, lead: string, u: string)
    requires TokenLead(kp, lead) && Digits(u) && Between(kp, |u|) && InOrder(kinds, n)
    ensures SubAll(kinds, Stage(n, lead, u)) == Stage(7, lead, u)
  {
    hide Pass, Stage;
    if kinds == [] {
    } else {
      TailInOrder(kinds, n);
      OnePass(kp, kinds[0], lead, u);
      AllPasses(kp, kinds[1..], n + 1, lead, u);
    }
  }

  /** From every such text redaction leaves the API key or the bearer token that it has itself completed. */
  lemma LongSLeavesToken(kp: Kind, lead: string, u: string)
    requires TokenLead(kp, lead) && Digits(u) && Between(kp, |u|)
    ensures !Free(RuleFor(kp).pattern, Redact(WithEnd(lead, u, LONG_S_WORD)))
  {
    hide RuleFor, Replacement;
    KindsInOrder();
    AllPasses(kp, KINDS, 0, lead, u);
    LongAfter(KeyChar, u);
    LongAfter(TokenChar, u);
    assert (u + Replacement(Passwords))[0] in u;
    TokenExact(kp, lead, u + Replacement(Passwords));
  }
}
