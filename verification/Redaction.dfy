/** Redaction (services/reasoner/src/reasoner/redaction.py): seven substitutions, one after the other. What each
    removes must not come back through a later one. */
module Redaction {
  import opened Text
  import opened Patterns
  import opened PromptKey

  predicate Opens(p: Pattern) { |p| >= 2 && p[0].One? && p[1].One? }

  /** Literal text and what follows it. */
  function Secret(w: string, body: Pattern): (p: Pattern)
    requires |w| >= 2
    ensures Opens(p) && p[0] == One(Lit(w[0])) && p[1] == One(Lit(w[1]))
  {
    assert Lits(w) == [One(Lit(w[0]))] + ([One(Lit(w[1]))] + Lits(w[1..][1..]));
    Lits(w) + body
  }

  /** A key word in any case, and the value assigned to it. */
  function Assignment(word: string): (p: Pattern)
    requires |word| >= 2
    ensures Opens(p) && p[0] == One(Fold(word[0])) && p[1] == One(Fold(word[1]))
  {
    assert Folds(word) == [One(Fold(word[0]))] + ([One(Fold(word[1]))] + Folds(word[1..][1..]));
    Folds(word) + ValueBody()
  }

  function ApiBody(): Pattern { Times(KeyChar, 10) + [Star(KeyChar)] }

  function BearerBody(): Pattern { [One(Space), Star(Space)] + (Times(TokenChar, 20) + [Star(TokenChar)]) }

  function AwsBody(): Pattern { Times(AwsChar, 16) }

  function SignBody(): Pattern { [One(Assign), Star(Space), One(Ink), Star(Ink)] }

  function ValueBody(): Pattern { [Star(Space)] + SignBody() }

  /** Capitals and a title, then anything up to a footer, capitals and the same title. */
  function Block(footer: string, title: string): Pattern {
    [Star(Capital)] + (Lits(title) + ([Lazy(Any)] + (Lits(footer) + ([Star(Capital)] + Lits(title)))))
  }

  const MASK: string := "[REDACTED]"

  datatype Kind = ApiKeys | Bearers | AwsKeys | Passwords | Secrets | Tokens | PrivateKeys

  /** The literal text that a pattern starts with; for the assignments, in any case. */
  function Word(kind: Kind): (w: string)
    ensures |w| >= 2
  {
    match kind
    case ApiKeys => "sk-ant-"
    case Bearers => "Bearer"
    case AwsKeys => "AKIA"
    case Passwords => "password"
    case Secrets => "secret"
    case Tokens => "token"
    case PrivateKeys => "-----BEGIN"
  }

  predicate IsAssignment(kind: Kind) { kind.Passwords? || kind.Secrets? || kind.Tokens? }

  function Body(kind: Kind): Pattern {
    match kind
    case ApiKeys => ApiBody()
    case Bearers => BearerBody()
    case AwsKeys => AwsBody()
    case PrivateKeys => Block("-----END", "PRIVATE KEY-----")
    case _ => ValueBody()
  }

  function Replacement(kind: Kind): string {
    match kind
    case ApiKeys => "[REDACTED_API_KEY]"
    case Bearers => "Bearer [REDACTED_TOKEN]"
    case AwsKeys => "[REDACTED_AWS_KEY]"
    case Passwords => "password=[REDACTED]"
    case Secrets => "secret=[REDACTED]"
    case Tokens => "token=[REDACTED]"
    case PrivateKeys => "[REDACTED_PRIVATE_KEY]"
  }

  function Class(kind: Kind, c: char): CharClass { if IsAssignment(kind) then Fold(c) else Lit(c) }

  function PatternFor(kind: Kind): Pattern {
    if IsAssignment(kind) then Assignment(Word(kind)) else Secret(Word(kind), Body(kind))
  }

  lemma PatternOpens(kind: Kind)
    ensures var p := PatternFor(kind);
      Opens(p) && p[0] == One(Class(kind, Word(kind)[0])) && p[1] == One(Class(kind, Word(kind)[1]))
  {
    hide Word, Body, Assignment, Secret;
  }

  function RuleFor(kind: Kind): (q: Rule)
    ensures Opens(q.pattern)
  {
    PatternOpens(kind);
    Rule(PatternFor(kind), Replacement(kind))
  }

  /** How a kind's rule begins, without the rest of it. */
  lemma RuleParts(kind: Kind)
    ensures var q := RuleFor(kind);
      && q.replacement == Replacement(kind)
      && q.pattern[0] == One(Class(kind, Word(kind)[0])) && q.pattern[1] == One(Class(kind, Word(kind)[1]))
  {
    hide PatternFor, Word, Replacement;
    PatternOpens(kind);
  }

  lemma RulePattern(kind: Kind)
    ensures !IsAssignment(kind) ==> RuleFor(kind).pattern == Lits(Word(kind)) + Body(kind)
    ensures IsAssignment(kind) ==> RuleFor(kind).pattern == Assignment(Word(kind))
  {
    hide Word, Body, Replacement, Assignment;
  }

  function Pass(kind: Kind, s: string): string { Sub(RuleFor(kind), s) }

  /** The order of the passes. */
  const KINDS: seq<Kind> := [ApiKeys, Bearers, AwsKeys, Passwords, Secrets, Tokens, PrivateKeys]

  function Rank(kind: Kind): nat {
    match kind
    case ApiKeys => 0
    case Bearers => 1
    case AwsKeys => 2
    case Passwords => 3
    case Secrets => 4
    case Tokens => 5
    case PrivateKeys => 6
  }

  function SubAll(kinds: seq<Kind>, text: string): string {
    if kinds == [] then text else SubAll(kinds[1..], Pass(kinds[0], text))
  }

  function Redact(text: string): string { SubAll(KINDS, text) }

  lemma SubAllStep(kinds: seq<Kind>, i: nat, r: string)
    requires i < |kinds|
    ensures SubAll(kinds[i..], r) == SubAll(kinds[i + 1..], Pass(kinds[i], r))
  {
    assert kinds[i..][1..] == kinds[i + 1..];
  }

  method RedactSensitive(text: string) returns (r: string)
    ensures r == Redact(text)
  {
    var kinds := KINDS;
    r := text;
    for i := 0 to |kinds|
      invariant SubAll(kinds[i..], r) == SubAll(kinds, text)
    {
      SubAllStep(kinds, i, r);
      r := Pass(kinds[i], r);
    }
  }

  /** The same keys in the same order, each value redacted. */
  function RedactDict(evidence: Items): Items {
    SeqMap((e: (string, string)) => (e.0, Redact(e.1)), evidence)
  }

  // ---------------------------------------------------------------- where matches cannot begin

  /** No position of t has the classes a and b, one after the other, even if t is continued. */
  predicate Dodges(a: CharClass, b: CharClass, t: string) {
    forall i | 0 <= i < |t| :: In(a, t[i]) ==> i + 1 < |t| && !In(b, t[i + 1])
  }

  lemma FirstTwo(p: Pattern, s: string)
    requires Opens(p) && Match(p, s).Some?
    ensures |s| >= 2 && In(p[0].cls, s[0]) && In(p[1].cls, s[1])
  {
    assert Match(p[1..], s[1..]).Some?;
  }

  /** A replacement in which no match can begin leaves a free text free. */
  lemma {:induction false} DodgingIsFree(p: Pattern, r: string, t: string)
    requires Opens(p) && Dodges(p[0].cls, p[1].cls, r) && Free(p, t)
    ensures Free(p, r + t)
  {
    if r == "" {
      assert r + t == t;
    } else {
      assert (r + t)[1..] == r[1..] + t;
      DodgingIsFree(p, r[1..], t);
      if Match(p, r + t).Some? {
        FirstTwo(p, r + t);
      }
    }
  }

  ghost predicate Inert(p: Pattern, r: string) {
    forall t :: Free(p, t) ==> Free(p, r + t)
  }

  /** Neither the long s nor the Kelvin sign, which the assignment patterns take for s and k. */
  predicate Plain(s: string) { '\U{017F}' !in s && '\U{212A}' !in s }

  /** If s starts with the word in any case, it spells it without the two letters. */
  predicate Spells(w: string, s: string) {
    if !FoldPrefix(w, s) then true
    else
      FoldPrefixLength(w, s);
      Plain(s[..|w|])
  }

  predicate SpelledHere(s: string) { Spells("password", s) && Spells("secret", s) && Spells("token", s) }

  /** No key word is spelled with the long s or the Kelvin sign anywhere in s. */
  predicate WellSpelled(s: string) { s == "" || (SpelledHere(s) && WellSpelled(s[1..])) }

  lemma SpelledWord(kind: Kind, s: string)
    requires SpelledHere(s) && IsAssignment(kind)
    ensures Spells(Word(kind), s)
  {
    hide Spells;
  }

  lemma {:induction false} SpelledFrom(s: string, n: nat)
    requires WellSpelled(s) && n <= |s|
    ensures WellSpelled(s[n..])
  {
    hide SpelledHere;
    if n == 0 {
      assert s[0..] == s;
    } else {
      SpelledFrom(s[1..], n - 1);
      assert s[1..][n - 1..] == s[n..];
    }
  }

  lemma {:induction false} PlainIsSpelled(s: string)
    requires Plain(s)
    ensures WellSpelled(s)
  {
    if s == "" {
    } else {
      PlainSpells("password", s);
      PlainSpells("secret", s);
      PlainSpells("token", s);
      PlainIsSpelled(s[1..]);
    }
  }

  lemma PlainSpells(w: string, s: string)
    requires Plain(s)
    ensures Spells(w, s)
  {}

  /** Where q does not match, p matches the text that q leaves only if it matched before. */
  ghost predicate Reflects(p: Pattern, q: Rule, plain: bool)
    requires Solid(q)
  {
    forall s :: (plain ==> WellSpelled(s)) && At(q, s).None? && Match(p, Sub(q, s)).Some? ==> Match(p, s).Some?
  }

  lemma {:induction false} PassKeepsFree(p: Pattern, q: Rule, plain: bool, s: string)
    requires Solid(q) && Inert(p, q.replacement) && Reflects(p, q, plain)
    requires p == q.pattern || Free(p, s)
    requires plain ==> WellSpelled(s)
    requires Match(p, "").None?
    ensures Free(p, Sub(q, s))
    decreases |s|
  {
    hide SpelledHere;
    if s == "" {
    } else {
      if At(q, s).Some? {
        var n := At(q, s).value;
        if plain { SpelledFrom(s, n); }
        if p != q.pattern {
          FreeAt(p, s, n);
        }
        PassKeepsFree(p, q, plain, s[n..]);
      } else {
        PassKeepsFree(p, q, plain, s[1..]);
        assert Sub(q, s)[1..] == Sub(q, s[1..]);
      }
    }
  }

  // ---------------------------------------------------------------- reading a match backwards through a pass

  /** The text r cannot begin inside w. */
  predicate Bars(r: string, w: string) {
    |r| >= 2 && Dodges(Lit(r[0]), Lit(r[1]), w)
  }

  lemma NotReplacedHere(q: Rule, s: string, w: string)
    requires Solid(q) && Bars(q.replacement, w) && w != "" && w <= Sub(q, s)
    ensures s != "" && At(q, s).None?
  {
    assert w[0] == q.replacement[0] ==> |w| > 1 && w[1] != q.replacement[1];
  }

  lemma HeadAndRest(w: string, x: string)
    requires w != ""
    ensures [w[0]] + (w[1..] + x) == w + x
  {}

  lemma CopyStep(q: Rule, s: string, w: string)
    requires Solid(q) && s != "" && w != "" && At(q, s).None? && s[0] == w[0] && w[1..] <= s[1..]
    requires Sub(q, s[1..]) == w[1..] + Sub(q, s[1..][|w| - 1..])
    ensures w <= s && Sub(q, s) == w + Sub(q, s[|w|..])
  {
    var x := s[1..][|w| - 1..];
    assert x == s[|w|..];
    HeadAndRest(w, Sub(q, x));
  }

  /** Literal text found after a pass was there before it, if the replacement cannot begin inside it. */
  lemma {:induction false} CopyText(q: Rule, s: string, w: string)
    requires Solid(q) && Bars(q.replacement, w) && w <= Sub(q, s)
    ensures w <= s && Sub(q, s) == w + Sub(q, s[|w|..])
  {
    if w == "" {
      assert s[0..] == s;
    } else {
      NotReplacedHere(q, s, w);
      assert Sub(q, s)[1..] == Sub(q, s[1..]);
      CopyText(q, s[1..], w[1..]);
      CopyStep(q, s, w);
    }
  }

  lemma CopyTextFrom(q: Rule, s: string, w: string)
    requires Solid(q) && w != "" && Bars(q.replacement, w[1..])
    requires At(q, s).None? && w <= Sub(q, s)
    ensures w <= s && Sub(q, s) == w + Sub(q, s[|w|..])
  {
    assert s != "";
    assert Sub(q, s)[1..] == Sub(q, s[1..]);
    CopyText(q, s[1..], w[1..]);
    CopyStep(q, s, w);
  }

  predicate Blocked(ks: set<CharClass>, c: char) { forall k <- ks :: !In(k, c) }

  /** Character by character, s fits the classes that r fits, up to a character of r that none of them admits. */
  predicate Covers(ks: set<CharClass>, r: string, s: string) {
    && r != ""
    && (|| Blocked(ks, r[0])
        || (s != "" && (forall k <- ks :: In(k, r[0]) ==> In(k, s[0])) && Covers(ks, r[1..], s[1..])))
  }

  predicate UsesOnly(p: Pattern, ks: set<CharClass>) {
    forall x <- p :: !x.Lazy? && x.cls in ks
  }

  lemma {:induction false} CoveredMatch(p: Pattern, ks: set<CharClass>, r: string, t: string, s: string)
    requires UsesOnly(p, ks) && Covers(ks, r, s) && Match(p, r + t).Some?
    ensures Match(p, s).Some?
    decreases |r|, |p|
  {
    if p == [] {
    } else {
      assert p[0] in p;
      assert (r + t)[1..] == r[1..] + t;
      if In(p[0].cls, r[0]) {
        if p[0].One? {
          CoveredMatch(p[1..], ks, r[1..], t, s[1..]);
        } else if Match(p, r[1..] + t).Some? {
          CoveredMatch(p, ks, r[1..], t, s[1..]);
        }
      }
      if p[0].Star? && Match(p[1..], r + t).Some? {
        CoveredMatch(p[1..], ks, r, t, s);
      }
    }
  }

  /** Whatever q replaces fits the classes as far as its replacement does. */
  ghost predicate Tame(ks: set<CharClass>, q: Rule, plain: bool) {
    forall s :: (plain ==> WellSpelled(s)) && At(q, s).Some? ==> Covers(ks, q.replacement, s)
  }

  lemma {:induction false} ReflectBody(p: Pattern, ks: set<CharClass>, q: Rule, plain: bool, s: string)
    requires Solid(q) && UsesOnly(p, ks) && Tame(ks, q, plain) && (plain ==> WellSpelled(s))
    requires Match(p, Sub(q, s)).Some?
    ensures Match(p, s).Some?
    decreases |s|, |p|
  {
    if p != [] && s != "" {
      if At(q, s).Some? {
        CoveredMatch(p, ks, q.replacement, Sub(q, s[At(q, s).value..]), s);
      } else {
        assert p[0] in p;
        assert Sub(q, s)[1..] == Sub(q, s[1..]);
        if In(p[0].cls, s[0]) {
          if p[0].One? {
            ReflectBody(p[1..], ks, q, plain, s[1..]);
          } else if Match(p, Sub(q, s[1..])).Some? {
            ReflectBody(p, ks, q, plain, s[1..]);
          }
        }
        if p[0].Star? && Match(p[1..], Sub(q, s)).Some? {
          ReflectBody(p[1..], ks, q, plain, s);
        }
      }
    } else if p != [] && p[0].Star? {
      ReflectBody(p[1..], ks, q, plain, s);
    }
  }

  lemma SecretReflects(w: string, body: Pattern, ks: set<CharClass>, q: Rule, plain: bool)
    requires Solid(q) && w != "" && Bars(q.replacement, w[1..]) && UsesOnly(body, ks) && Tame(ks, q, plain)
    ensures Reflects(Lits(w) + body, q, plain)
  {
    var p := Lits(w) + body;
    forall s | (plain ==> WellSpelled(s)) && At(q, s).None? && Match(p, Sub(q, s)).Some?
      ensures Match(p, s).Some?
    {
      hide SpelledHere;
      MatchLits(w, body, Sub(q, s));
      CopyTextFrom(q, s, w);
      assert Sub(q, s)[|w|..] == Sub(q, s[|w|..]);
      if plain { SpelledFrom(s, |w|); }
      ReflectBody(body, ks, q, plain, s[|w|..]);
      MatchLits(w, body, s);
    }
  }

  // ---------------------------------------------------------------- a lazy stretch

  /** No class of p but a lazy one admits the first character of r, and what follows a lazy one admits none. */
  predicate Skips(p: Pattern, r: string) {
    p == []
    || (&& (if p[0].Lazy?
            then p[0].cls.Any? && |p| > 1 && p[1].One? && (forall c <- r :: !In(p[1].cls, c))
            else r != "" && !In(p[0].cls, r[0]))
        && Skips(p[1..], r))
  }

  lemma {:induction false} LazyPast(p: Pattern, r: string, t: string)
    requires |p| > 1 && p[0].Lazy? && p[1].One? && (forall c <- r :: !In(p[1].cls, c))
    requires Match(p, r + t).Some?
    ensures Match(p, t).Some?
  {
    if r == "" {
      assert r + t == t;
    } else {
      assert (r + t)[1..] == r[1..] + t;
      assert r[0] in r;
      LazyPast(p, r[1..], t);
    }
  }

  lemma {:induction false} LazyBack(p: Pattern, s: string, n: nat)
    requires p != [] && p[0].Lazy? && p[0].cls.Any? && n <= |s| && Match(p, s[n..]).Some?
    ensures Match(p, s).Some?
  {
    if n == 0 {
      assert s[0..] == s;
    } else {
      assert s[1..][n - 1..] == s[n..];
      LazyBack(p, s[1..], n - 1);
    }
  }

  lemma {:induction false} ReflectLazy(p: Pattern, q: Rule, s: string)
    requires Solid(q) && Skips(p, q.replacement) && q.replacement != "" && Match(p, Sub(q, s)).Some?
    ensures Match(p, s).Some?
    decreases |s|, |p|
  {
    if p == [] {
    } else {
      if s != "" && At(q, s).Some? {
        if p[0].Lazy? {
          var n := At(q, s).value;
          LazyPast(p, q.replacement, Sub(q, s[n..]));
          ReflectLazy(p, q, s[n..]);
          LazyBack(p, s, n);
        } else {
          ReflectLazy(p[1..], q, s);
        }
      } else {
        if s != "" && In(p[0].cls, s[0]) {
          assert Sub(q, s)[1..] == Sub(q, s[1..]);
          var p' := if p[0].One? then p[1..] else p;
          if Match(p', Sub(q, s[1..])).Some? {
            ReflectLazy(p', q, s[1..]);
          }
        }
        if !p[0].One? && Match(p[1..], Sub(q, s)).Some? {
          ReflectLazy(p[1..], q, s);
        }
      }
    }
  }

  // ---------------------------------------------------------------- the secrets, pass by pass

  lemma DodgingIsInert(p: Pattern, r: string)
    requires Opens(p) && Dodges(p[0].cls, p[1].cls, r)
    ensures Inert(p, r)
  {
    forall t | Free(p, t) ensures Free(p, r + t) {
      DodgingIsFree(p, r, t);
    }
  }

  /** The first two characters of a secret. */
  predicate TokenStart(a: char, b: char) {
    (a == 's' && b == 'k') || (a == 'B' && b == 'e') || (a == 'A' && b == 'K') || (a == '-' && b == '-')
  }

  lemma DodgeApiKeys(a: char, b: char)
    requires TokenStart(a, b)
    ensures Dodges(Lit(a), Lit(b), Replacement(ApiKeys))
  {}

  lemma DodgeAwsKeys(a: char, b: char)
    requires TokenStart(a, b)
    ensures Dodges(Lit(a), Lit(b), Replacement(AwsKeys))
  {}

  lemma DodgePasswords(a: char, b: char)
    requires TokenStart(a, b)
    ensures Dodges(Lit(a), Lit(b), Replacement(Passwords))
  {}

  lemma DodgeSecrets(a: char, b: char)
    requires TokenStart(a, b)
    ensures Dodges(Lit(a), Lit(b), Replacement(Secrets))
  {}

  lemma DodgeTokens(a: char, b: char)
    requires TokenStart(a, b)
    ensures Dodges(Lit(a), Lit(b), Replacement(Tokens))
  {}

  lemma DodgePrivateKeys(a: char, b: char)
    requires TokenStart(a, b)
    ensures Dodges(Lit(a), Lit(b), Replacement(PrivateKeys))
  {}

  lemma DodgeBearers()
    ensures Dodges(Lit('s'), Lit('k'), Replacement(Bearers))
  {}

  lemma WordStarts(kp: Kind)
    requires !IsAssignment(kp)
    ensures TokenStart(Word(kp)[0], Word(kp)[1])
    ensures kp.ApiKeys? ==> Word(kp)[0] == 's' && Word(kp)[1] == 'k'
  {}

  lemma SecretDodges(kp: Kind, kq: Kind)
    requires !IsAssignment(kp) && (kq.Bearers? ==> kp.ApiKeys?)
    ensures Dodges(Lit(Word(kp)[0]), Lit(Word(kp)[1]), Replacement(kq))
  {
    WordStarts(kp);
    var a, b := Word(kp)[0], Word(kp)[1];
    match kq {
      case ApiKeys => DodgeApiKeys(a, b);
      case Bearers => DodgeBearers();
      case AwsKeys => DodgeAwsKeys(a, b);
      case Passwords => DodgePasswords(a, b);
      case Secrets => DodgeSecrets(a, b);
      case Tokens => DodgeTokens(a, b);
      case PrivateKeys => DodgePrivateKeys(a, b);
    }
  }

  /** No secret begins inside a replacement, but for the word Bearer that is kept. */
  lemma SecretInert(kp: Kind, kq: Kind)
    requires !IsAssignment(kp) && (kq.Bearers? ==> kp.ApiKeys?)
    ensures Inert(RuleFor(kp).pattern, Replacement(kq))
  {
    SecretDodges(kp, kq);
    DodgingIsInert(RuleFor(kp).pattern, Replacement(kq));
  }

  /** The first two characters of a replacement. */
  predicate ReplacementStart(a: char, b: char) {
    || (a == '[' && b == 'R') || (a == 'B' && b == 'e') || (a == 'p' && b == 'a')
    || (a == 's' && b == 'e') || (a == 't' && b == 'o')
  }

  lemma ReplacementStarts(kind: Kind)
    ensures var r := Replacement(kind); |r| >= 2 && ReplacementStart(r[0], r[1])
  {}

  /** No replacement can begin inside a secret's leading text. */
  lemma ApiWordDodges(a: char, b: char)
    requires ReplacementStart(a, b)
    ensures Dodges(Lit(a), Lit(b), Word(ApiKeys)[1..])
  {}

  lemma BarsApi(kind: Kind)
    ensures Bars(Replacement(kind), Word(ApiKeys)[1..])
  {
    hide Replacement, Word, ReplacementStart;
    ReplacementStarts(kind);
    ApiWordDodges(Replacement(kind)[0], Replacement(kind)[1]);
  }

  lemma BearerWordDodges(a: char, b: char)
    requires ReplacementStart(a, b)
    ensures Dodges(Lit(a), Lit(b), Word(Bearers)[1..])
  {}

  lemma BarsBearer(kind: Kind)
    ensures Bars(Replacement(kind), Word(Bearers)[1..])
  {
    hide Replacement, Word, ReplacementStart;
    ReplacementStarts(kind);
    BearerWordDodges(Replacement(kind)[0], Replacement(kind)[1]);
  }

  lemma BarsAws(kind: Kind)
    requires !kind.ApiKeys? && !kind.Bearers?
    ensures Bars(Replacement(kind), Word(AwsKeys)[1..])
  {
    match kind {
      case AwsKeys =>
      case Passwords =>
      case Secrets =>
      case Tokens =>
      case PrivateKeys =>
    }
  }

  lemma BarsPrivateKey()
    ensures Bars(Replacement(PrivateKeys), Word(PrivateKeys)[1..])
  {}

  lemma DodgeBearerTail()
    ensures Dodges(Lit('B'), Lit('e'), Replacement(Bearers)[1..])
  {
    var r := Replacement(Bearers);
    forall i | 1 <= i < |r| ensures r[i] != 'B' {}
  }

  lemma BearerMask(t: string)
    ensures (Replacement(Bearers) + t)[6..] == (" " + "[REDACTED_TOKEN]") + t
  {}

  lemma {:induction false} MaskedBearer(x: string)
    requires |x| >= 2 && x[0] == ' ' && x[1] == '['
    ensures Match(BearerBody(), x).None?
  {
    hide Times;
    MatchSpacedRun(TokenChar, 20, x);
    assert RunLen(Space, x[1..]) == 0 && RunLen(TokenChar, x[1..]) == 0;
  }

  lemma MaskIsNoToken(t: string)
    ensures Match(RuleFor(Bearers).pattern, Replacement(Bearers) + t).None?
  {
    hide PatternFor, BearerBody, Lits;
    RulePattern(Bearers);
    var s := Replacement(Bearers) + t;
    MatchLits(Word(Bearers), BearerBody(), s);
    BearerMask(t);
    MaskedBearer(s[6..]);
  }

  lemma BearerKept(p: Pattern, r: string, t: string)
    requires p == RuleFor(Bearers).pattern && r == Replacement(Bearers) && Free(p, t)
    ensures Free(p, r + t)
  {
    MaskIsNoToken(t);
    BearerTailKept(p, r, t);
  }

  lemma {:induction false} BearerTailKept(p: Pattern, r: string, t: string)
    requires p == RuleFor(Bearers).pattern && r == Replacement(Bearers) && Free(p, t)
    ensures r != "" && Free(p, (r + t)[1..])
  {
    DodgeBearerTail();
    DodgingTail(p, r, t);
  }

  lemma DodgingTail(p: Pattern, r: string, t: string)
    requires Opens(p) && r != "" && Dodges(p[0].cls, p[1].cls, r[1..]) && Free(p, t)
    ensures Free(p, (r + t)[1..])
  {
    DodgingIsFree(p, r[1..], t);
    assert (r + t)[1..] == r[1..] + t;
  }

  lemma BearerInert()
    ensures Inert(RuleFor(Bearers).pattern, Replacement(Bearers))
  {
    forall t | Free(RuleFor(Bearers).pattern, t) ensures Free(RuleFor(Bearers).pattern, Replacement(Bearers) + t) {
      BearerKept(RuleFor(Bearers).pattern, Replacement(Bearers), t);
    }
  }

  // ---------------------------------------------------------------- what a pass replaces, as the secrets see it

  lemma BlockedIsTame(ks: set<CharClass>, kind: Kind, plain: bool)
    requires Blocked(ks, Replacement(kind)[0])
    ensures Tame(ks, RuleFor(kind), plain)
  {}

  lemma {:induction false} CoversSame(ks: set<CharClass>, w: string, r: string, s: string)
    requires w <= s && Covers(ks, r, s[|w|..])
    ensures Covers(ks, w + r, s)
  {
    if w == "" {
      assert w + r == r && s[0..] == s;
    } else {
      assert (w + r)[1..] == w[1..] + r;
      assert s[1..][|w| - 1..] == s[|w|..];
      CoversSame(ks, w[1..], r, s[1..]);
    }
  }

  /** A class that admits a letter's other case. */
  predicate CaseBlind(k: CharClass) { forall c :: c != '\U{017F}' && c != '\U{212A}' && In(k, Folded(c)) ==> In(k, c) }

  lemma {:induction false} CoversFolded(ks: set<CharClass>, w: string, r: string, s: string)
    requires FoldPrefix(w, s) && |w| <= |s| && Plain(s[..|w|]) && (forall k <- ks :: CaseBlind(k))
    requires r != "" && Blocked(ks, r[0])
    ensures Covers(ks, w + r, s)
  {
    if w == "" {
      assert w + r == r;
    } else {
      assert (w + r)[1..] == w[1..] + r;
      assert s[..|w|][1..] == s[1..][..|w| - 1] && s[..|w|][0] == s[0];
      CoversFolded(ks, w[1..], r, s[1..]);
    }
  }

  lemma AssignmentIsTame(ks: set<CharClass>, kind: Kind)
    requires IsAssignment(kind) && Blocked(ks, '=') && (forall k <- ks :: CaseBlind(k))
    ensures Tame(ks, RuleFor(kind), true)
  {
    var q := RuleFor(kind);
    forall s | WellSpelled(s) && At(q, s).Some? ensures Covers(ks, q.replacement, s) {
      MatchFolds(Word(kind), ValueBody(), s);
      FirstTwo(q.pattern, s);
      SpelledWord(kind, s);
      CoversFolded(ks, Word(kind), "=" + MASK, s);
      AssignmentReplacement(kind);
    }
  }

  lemma AssignmentReplacement(kind: Kind)
    requires IsAssignment(kind)
    ensures Replacement(kind) == Word(kind) + ("=" + MASK)
  {}

  lemma BearerGap(s: string)
    requires At(RuleFor(Bearers), s).Some?
    ensures Word(Bearers) <= s && |s| > 6 && PySpace(s[6])
  {
    hide PatternFor, Replacement, Times, Lits;
    RulePattern(Bearers);
    MatchLits(Word(Bearers), BearerBody(), s);
    MatchSpacedRun(TokenChar, 20, s[6..]);
  }

  lemma GapCovers(ks: set<CharClass>, r: string, s: string)
    requires ks == {KeyChar} || ks == {Space, TokenChar}
    requires |r| > 1 && r[0] == ' ' && r[1] == '[' && s != "" && PySpace(s[0])
    ensures Covers(ks, r, s)
  {
    assert Covers(ks, r[1..], s[1..]);
  }

  lemma BearerIsTame(ks: set<CharClass>, plain: bool)
    requires ks == {KeyChar} || ks == {Space, TokenChar}
    ensures Tame(ks, RuleFor(Bearers), plain)
  {
    var w, r := Word(Bearers), Replacement(Bearers)[6..];
    BearerParts();
    forall s | At(RuleFor(Bearers), s).Some? ensures Covers(ks, Replacement(Bearers), s) {
      BearerGap(s);
      GapCovers(ks, r, s[6..]);
      CoversSame(ks, w, r, s);
    }
  }

  lemma BearerParts()
    ensures var r := Replacement(Bearers);
      |Word(Bearers)| == 6 && |r| > 7 && r == Word(Bearers) + r[6..] && r[6] == ' ' && r[7] == '['
  {}

  // ---------------------------------------------------------------- every secret, through every later pass

  lemma {:induction false} TimesWithin(k: CharClass, n: nat, ks: set<CharClass>)
    requires k in ks
    ensures UsesOnly(Times(k, n), ks)
  {
    if n == 0 {
    } else {
      TimesWithin(k, n - 1, ks);
    }
  }

  predicate IsToken(kind: Kind) { kind.ApiKeys? || kind.Bearers? || kind.AwsKeys? }

  /** The classes of the text that a token's pattern ends with. */
  function Classes(kind: Kind): set<CharClass> {
    match kind
    case ApiKeys => {KeyChar}
    case Bearers => {Space, TokenChar}
    case _ => {AwsChar}
  }

  lemma AtLeastWithin(k: CharClass, n: nat, ks: set<CharClass>)
    requires k in ks
    ensures UsesOnly(Times(k, n) + [Star(k)], ks)
  {
    TimesWithin(k, n, ks);
  }

  lemma SpacedWithin(p: Pattern, ks: set<CharClass>)
    requires UsesOnly(p, ks) && Space in ks
    ensures UsesOnly([One(Space), Star(Space)] + p, ks)
  {}

  lemma BodyWithin(kp: Kind)
    requires IsToken(kp)
    ensures UsesOnly(Body(kp), Classes(kp))
  {
    match kp {
      case ApiKeys => AtLeastWithin(KeyChar, 10, Classes(kp));
      case Bearers =>
        AtLeastWithin(TokenChar, 20, Classes(kp));
        SpacedWithin(Times(TokenChar, 20) + [Star(TokenChar)], Classes(kp));
      case AwsKeys => TimesWithin(AwsChar, 16, Classes(kp));
    }
  }

  /** The assignment passes change letters that an API key or a bearer token may hold. */
  predicate NeedsPlain(kp: Kind, kq: Kind) { IsAssignment(kq) && !kp.AwsKeys? }

  lemma TokenTame(kp: Kind, kq: Kind)
    requires IsToken(kp) && Rank(kp) <= Rank(kq)
    ensures Tame(Classes(kp), RuleFor(kq), NeedsPlain(kp, kq))
  {
    hide PatternFor, Word, Body;
    if kq.Bearers? {
      BearerIsTame(Classes(kp), false);
    } else if NeedsPlain(kp, kq) {
      AssignmentIsTame(Classes(kp), kq);
    } else {
      BlockedIsTame(Classes(kp), kq, false);
    }
  }

  lemma TokenBars(kp: Kind, kq: Kind)
    requires IsToken(kp) && Rank(kp) <= Rank(kq)
    ensures Bars(Replacement(kq), Word(kp)[1..])
  {
    match kp {
      case ApiKeys => BarsApi(kq);
      case Bearers => BarsBearer(kq);
      case AwsKeys => BarsAws(kq);
    }
  }

  lemma TokenParts(kp: Kind, kq: Kind) returns (w: string, body: Pattern, ks: set<CharClass>)
    requires IsToken(kp) && Rank(kp) <= Rank(kq)
    ensures RuleFor(kp).pattern == Lits(w) + body && w != "" && Bars(Replacement(kq), w[1..])
    ensures UsesOnly(body, ks) && Tame(ks, RuleFor(kq), NeedsPlain(kp, kq))
  {
    hide PatternFor, Word, Body, Replacement;
    RulePattern(kp);
    BodyWithin(kp);
    TokenTame(kp, kq);
    TokenBars(kp, kq);
    w, body, ks := Word(kp), Body(kp), Classes(kp);
  }

  lemma TokenReflects(kp: Kind, kq: Kind)
    requires IsToken(kp) && Rank(kp) <= Rank(kq)
    ensures Reflects(RuleFor(kp).pattern, RuleFor(kq), NeedsPlain(kp, kq))
  {
    hide PatternFor, Word, Body, Replacement, Classes;
    var w, body, ks := TokenParts(kp, kq);
    SecretReflects(w, body, ks, RuleFor(kq), NeedsPlain(kp, kq));
  }

  lemma {:induction false} LitsSkip(w: string, p: Pattern, r: string)
    requires r != "" && r[0] !in w && Skips(p, r)
    ensures Skips(Lits(w) + p, r)
  {
    if w == "" {
      assert Lits(w) + p == p;
    } else {
      LitsTail(w, p);
      LitsSkip(w[1..], p, r);
    }
  }

  /** What follows the lazy body of a private key cannot begin in its replacement. */
  lemma BlockSkips(footer: string, title: string, r: string)
    requires r != "" && !In(Capital, r[0]) && r[0] !in footer && r[0] !in title && footer != "" && footer[0] !in r
    ensures Skips(Block(footer, title), r)
  {
    var last := [Star(Capital)] + Lits(title);
    assert Lits(title) + [] == Lits(title) && last[1..] == Lits(title);
    LitsSkip(title, [], r);
    LitsSkip(footer, last, r);
    var lazy := [Lazy(Any)] + (Lits(footer) + last);
    assert lazy[1..] == Lits(footer) + last;
    LitsSkip(title, lazy, r);
    assert Block(footer, title)[1..] == Lits(title) + lazy;
  }

  lemma PrivateKeyParts()
    ensures '[' !in "-----END" && '[' !in "PRIVATE KEY-----" && Replacement(PrivateKeys)[0] == '['
    ensures '-' !in Replacement(PrivateKeys)
  {}

  lemma PrivateKeySkips()
    ensures Skips(Body(PrivateKeys), Replacement(PrivateKeys))
  {
    PrivateKeyParts();
    BlockSkips("-----END", "PRIVATE KEY-----", Replacement(PrivateKeys));
  }

  lemma PrivateKeyReflects(kind: Kind)
    requires kind.PrivateKeys?
    ensures Reflects(RuleFor(kind).pattern, RuleFor(kind), false)
  {
    hide PatternFor, Word, Body, Replacement;
    RulePattern(kind);
    RuleParts(kind);
    var q, w := RuleFor(kind), Word(kind);
    PrivateKeySkips();
    BarsPrivateKey();
    forall s | At(q, s).None? && Match(q.pattern, Sub(q, s)).Some?
      ensures Match(q.pattern, s).Some?
    {
      MatchLits(w, Body(kind), Sub(q, s));
      CopyTextFrom(q, s, w);
      assert Sub(q, s)[|w|..] == Sub(q, s[|w|..]);
      ReflectLazy(Body(kind), q, s[|w|..]);
      MatchLits(w, Body(kind), s);
    }
  }

  lemma MaskPlain(kind: Kind)
    requires kind.ApiKeys? || kind.AwsKeys? || kind.PrivateKeys?
    ensures Plain(Replacement(kind))
  {}

  lemma PasswordMaskPlain()
    ensures Plain(Replacement(Passwords))
  {}

  lemma SecretMaskPlain()
    ensures Plain(Replacement(Secrets))
  {}

  lemma TokenMaskPlain()
    ensures Plain(Replacement(Tokens))
  {}

  lemma BearerMaskPlain()
    ensures Plain(Replacement(Bearers))
  {}

  lemma ReplacementPlain(kind: Kind)
    ensures Plain(Replacement(kind))
  {
    hide Plain, Replacement;
    if kind.Bearers? { BearerMaskPlain(); }
    else if kind.Passwords? { PasswordMaskPlain(); }
    else if kind.Secrets? { SecretMaskPlain(); }
    else if kind.Tokens? { TokenMaskPlain(); }
    else { MaskPlain(kind); }
  }

  lemma TokenInert(kp: Kind, kq: Kind)
    requires IsToken(kp) && Rank(kp) <= Rank(kq)
    ensures Inert(RuleFor(kp).pattern, Replacement(kq))
  {
    if kq.Bearers? && !kp.ApiKeys? {
      BearerInert();
    } else {
      SecretInert(kp, kq);
    }
  }

  lemma TokenFacts(kp: Kind, kq: Kind) returns (p: Pattern)
    requires IsToken(kp) && Rank(kp) <= Rank(kq)
    ensures p == RuleFor(kp).pattern && Match(p, "").None?
    ensures Inert(p, RuleFor(kq).replacement) && Reflects(p, RuleFor(kq), NeedsPlain(kp, kq))
  {
    hide PatternFor, Word, Body, Replacement;
    RuleParts(kq);
    TokenInert(kp, kq);
    TokenReflects(kp, kq);
    p := RuleFor(kp).pattern;
  }

  /** A pass removes every match of its own pattern, and leaves no new match of an earlier token pattern. */
  lemma TokenPass(kp: Kind, kq: Kind, s: string)
    requires IsToken(kp) && Rank(kp) <= Rank(kq)
    requires kp == kq || Free(RuleFor(kp).pattern, s)
    requires NeedsPlain(kp, kq) ==> WellSpelled(s)
    ensures Free(RuleFor(kp).pattern, Pass(kq, s))
  {
    hide PatternFor, Word, Body, Replacement;
    var p := TokenFacts(kp, kq);
    PassKeepsFree(p, RuleFor(kq), NeedsPlain(kp, kq), s);
  }

  lemma PrivateKeyPass(kind: Kind, s: string)
    requires kind.PrivateKeys?
    ensures Free(RuleFor(kind).pattern, Pass(kind, s))
  {
    hide PatternFor, Word, Body, Replacement;
    RuleParts(kind);
    SecretInert(kind, kind);
    PrivateKeyReflects(kind);
    PassKeepsFree(RuleFor(kind).pattern, RuleFor(kind), false, s);
  }

  // ---------------------------------------------------------------- spelling, through every pass

  lemma {:induction false} FoldPrefixAt(w: string, s: string, i: nat)
    requires FoldPrefix(w, s) && i < |w|
    ensures i < |s| && Folded(s[i]) == w[i]
  {
    if i == 0 {
    } else {
      FoldPrefixAt(w[1..], s[1..], i - 1);
    }
  }

  /** Where the replacement begins inside the word w, only the word's last letter is its own, and what q matches
      begins with that letter in some case. */
  predicate Fits(q: Rule, w: string) {
    && q.pattern != [] && |q.replacement| >= 2
    && forall i {:trigger w[i]} | 0 <= i < |w| && Folded(q.replacement[0]) == w[i] ::
         if i + 1 < |w| then Folded(q.replacement[1]) != w[i + 1] else q.pattern[0].cls == Fold(w[i])
  }

  lemma FitsHead(q: Rule, w: string, t: string)
    requires Fits(q, w) && w != "" && FoldPrefix(w, q.replacement + t)
    ensures |w| == 1 && q.pattern[0].cls == Fold(w[0])
  {
    var s := q.replacement + t;
    FoldPrefixAt(w, s, 0);
    assert Folded(q.replacement[0]) == w[0];
    if |w| > 1 { FoldPrefixAt(w, s, 1); }
  }

  /** A word after a pass was there before, and is spelled no worse. */
  lemma {:induction false} WordBack(w: string, q: Rule, s: string)
    requires Opens(q.pattern) && Fits(q, w) && Plain(q.replacement) && FoldPrefix(w, Sub(q, s))
    ensures FoldPrefix(w, s) && |w| <= |s| && |w| <= |Sub(q, s)|
    ensures Plain(s[..|w|]) ==> Plain(Sub(q, s)[..|w|])
    decreases |w|
  {
    if w != "" && s != "" {
      if At(q, s).Some? {
        var t := Sub(q, s[At(q, s).value..]);
        FitsHead(q, w, t);
        FirstTwo(q.pattern, s);
        assert Sub(q, s)[..1] == [q.replacement[0]] && q.replacement[0] in q.replacement;
      } else {
        WordBackFrom(w, q, s);
      }
    }
  }

  lemma {:induction false} WordBackFrom(w: string, q: Rule, s: string)
    requires Opens(q.pattern) && w != "" && Fits(q, w[1..]) && Plain(q.replacement) && FoldPrefix(w, Sub(q, s))
    requires s != "" && At(q, s).None?
    ensures FoldPrefix(w, s) && |w| <= |s| && |w| <= |Sub(q, s)|
    ensures Plain(s[..|w|]) ==> Plain(Sub(q, s)[..|w|])
    decreases |w|, 0
  {
    assert Sub(q, s)[1..] == Sub(q, s[1..]);
    WordBack(w[1..], q, s[1..]);
    HeadAndTailOf(s, |w|);
    HeadAndTailOf(Sub(q, s), |w|);
  }

  lemma HeadAndTailOf(s: string, n: nat)
    requires 0 < n <= |s|
    ensures s[..n] == [s[0]] + s[1..][..n - 1]
  {}

  lemma {:induction false} EndsInBracket(w: string, r: string, t: string)
    requires r != "" && r[|r| - 1] == ']' && ']' !in w && FoldPrefix(w, r + t)
    ensures |w| < |r|
  {
    if |w| >= |r| { FoldPrefixAt(w, r + t, |r| - 1); }
  }

  /** A replacement spells no key word badly. */
  lemma {:induction false} SpelledAfter(r: string, t: string)
    requires Plain(r) && (r == "" || r[|r| - 1] == ']') && WellSpelled(t)
    ensures WellSpelled(r + t)
  {
    if r == "" {
      assert r + t == t;
    } else {
      assert (r + t)[1..] == r[1..] + t;
      SpelledAfter(r[1..], t);
      BracketSpells("password", r, t);
      BracketSpells("secret", r, t);
      BracketSpells("token", r, t);
    }
  }

  lemma BracketSpells(w: string, r: string, t: string)
    requires Plain(r) && r != "" && r[|r| - 1] == ']' && ']' !in w
    ensures Spells(w, r + t)
  {
    if FoldPrefix(w, r + t) {
      EndsInBracket(w, r, t);
      assert (r + t)[..|w|] == r[..|w|];
    }
  }

  lemma {:induction false} SpelledPass(q: Rule, s: string)
    requires Opens(q.pattern) && Plain(q.replacement) && |q.replacement| >= 2
        && q.replacement[|q.replacement| - 1] == ']'
    requires Fits(q, "password"[1..]) && Fits(q, "secret"[1..]) && Fits(q, "token"[1..])
    requires WellSpelled(s)
    ensures WellSpelled(Sub(q, s))
    decreases |s|
  {
    if s == "" {
    } else {
      if At(q, s).Some? {
        var n := At(q, s).value;
        SpelledFrom(s, n);
        SpelledPass(q, s[n..]);
        SpelledAfter(q.replacement, Sub(q, s[n..]));
      } else {
        SpelledPass(q, s[1..]);
        assert Sub(q, s)[1..] == Sub(q, s[1..]);
        HeadSpells("password", q, s);
        HeadSpells("secret", q, s);
        HeadSpells("token", q, s);
      }
    }
  }

  lemma HeadSpells(w: string, q: Rule, s: string)
    requires Opens(q.pattern) && w != "" && Fits(q, w[1..]) && Plain(q.replacement)
    requires s != "" && At(q, s).None? && Spells(w, s)
    ensures Spells(w, Sub(q, s))
  {
    if FoldPrefix(w, Sub(q, s)) { WordBackFrom(w, q, s); }
  }

  lemma ReplacementEnds(kind: Kind)
    ensures var r := Replacement(kind); |r| >= 2 && r[|r| - 1] == ']'
  {}

  /** How a rule begins, as far as the key words are concerned. */
  predicate Meets(q: Rule) {
    && q.pattern != [] && |q.replacement| >= 2 && ReplacementStart(q.replacement[0], q.replacement[1])
    && (q.replacement[0] == 't' ==> q.pattern[0].cls == Fold('t'))
  }

  lemma MeetsPassword(q: Rule)
    requires Meets(q)
    ensures Fits(q, "password"[1..])
  {}

  lemma MeetsSecret(q: Rule)
    requires Meets(q)
    ensures Fits(q, "secret"[1..])
  {}

  lemma MeetsToken(q: Rule)
    requires Meets(q)
    ensures Fits(q, "token"[1..])
  {}

  lemma MeetsWords(q: Rule)
    requires Meets(q)
    ensures Fits(q, "password"[1..]) && Fits(q, "secret"[1..]) && Fits(q, "token"[1..])
  {
    hide Meets, Fits;
    MeetsPassword(q);
    MeetsSecret(q);
    MeetsToken(q);
  }

  lemma ReplacementMeets(kind: Kind)
    ensures Meets(RuleFor(kind))
  {
    hide PatternFor, ReplacementStart;
    RuleParts(kind);
    ReplacementStarts(kind);
    OnlyTokensStartWithT(kind);
  }

  lemma OnlyTokensStartWithT(kind: Kind)
    ensures Replacement(kind)[0] == 't' ==> kind.Tokens? && Class(kind, Word(kind)[0]) == Fold('t')
  {}

  lemma KindSpelled(kind: Kind, s: string)
    requires WellSpelled(s)
    ensures WellSpelled(Pass(kind, s))
  {
    hide PatternFor, Word, Replacement, WellSpelled, Meets, Fits;
    RuleParts(kind);
    ReplacementEnds(kind);
    ReplacementPlain(kind);
    ReplacementMeets(kind);
    MeetsWords(RuleFor(kind));
    SpelledPass(RuleFor(kind), s);
  }

  /** From its own pass on, a token pattern has no match. */
  lemma {:induction false} TokenKept(kp: Kind, kinds: seq<Kind>, s: string)
    requires IsToken(kp) && forall k <- kinds :: Rank(kp) <= Rank(k)
    requires (kinds != [] && kinds[0] == kp) || Free(RuleFor(kp).pattern, s)
    requires !kp.AwsKeys? ==> WellSpelled(s)
    ensures Free(RuleFor(kp).pattern, SubAll(kinds, s))
  {
    hide RuleFor, Pass, WellSpelled;
    if kinds == [] {
    } else {
      TokenPass(kp, kinds[0], s);
      if !kp.AwsKeys? { KindSpelled(kinds[0], s); }
      TokenKept(kp, kinds[1..], Pass(kinds[0], s));
    }
  }
}
