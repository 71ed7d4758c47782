/** Redacting a text that has been redacted: always free of tokens afterwards, and unchanged exactly when it was
    free of them before. */
module RedactionTwice {
  import opened Text
  import opened Patterns
  import opened Redaction
  import opened RedactionMasks

  // ---------------------------------------------------------------- texts that a pass leaves alone

  /** A pass whose pattern matches nowhere changes nothing. */
  lemma {:induction false} FreeIsFixed(q: Rule, s: string)
    requires Solid(q) && Free(q.pattern, s)
    ensures Sub(q, s) == s
  {
    if s == "" {
    } else {
      FreeIsFixed(q, s[1..]);
    }
  }

  lemma MaskedMatch(w: string, s: string)
    requires |w| >= 2 && Masked(w, s) && forall c <- w :: Folded(c) == c
    ensures Match(Assignment(w), s) == Some(|MaskedText(w)|)
  {
    var v := s[|w| + 1..];
    MaskedParts(w, s);
    SignedValue(w, s);
    MaskIsInk();
    InkEnds(MASK, v);
    MatchEnd(w, s, v, |MaskedText(w)|);
  }

  lemma HeadAndTail(m: string, s: string)
    requires m <= s
    ensures s == m + s[|m|..]
  {}

  lemma MaskedHead(w: string, q: Rule, s: string)
    requires |w| >= 2 && s != "" && q.pattern == Assignment(w) && (forall c <- w :: Folded(c) == c)
    requires Assigned(w, s) == "" || Masked(w, s)
    ensures At(q, s).Some? ==> Masked(w, s) && At(q, s).value == |MaskedText(w)|
  {
    AssignmentExact(w, s);
    if Masked(w, s) {
      MaskedMatch(w, s);
    }
  }

  /** A pass over masked assignments changes nothing. */
  lemma {:induction false} HiddenIsFixed(w: string, q: Rule, s: string)
    requires |w| >= 2 && Opens(q.pattern) && q.pattern == Assignment(w) && q.replacement == MaskedText(w)
    requires Hidden(w, s) && forall c <- w :: Folded(c) == c
    ensures Sub(q, s) == s
    decreases |s|
  {
    if s == "" {
    } else {
      MaskedHead(w, q, s);
      if At(q, s).Some? {
        var n := |q.replacement|;
        HeadAndTail(q.replacement, s);
        HiddenFrom(w, s, n);
        HiddenIsFixed(w, q, s[n..]);
      } else {
        HiddenIsFixed(w, q, s[1..]);
      }
    }
  }

  /** A text that a pass leaves alone. */
  predicate LeftAlone(kind: Kind, s: string) {
    if IsAssignment(kind) then Hidden(Word(kind), s) else Free(RuleFor(kind).pattern, s)
  }

  lemma LeftAloneIsFixed(kind: Kind, s: string)
    requires LeftAlone(kind, s)
    ensures Pass(kind, s) == s
  {
    if IsAssignment(kind) {
      WordLower(kind);
      AssignmentReplacement(kind);
      HiddenIsFixed(Word(kind), RuleFor(kind), s);
    } else {
      FreeIsFixed(RuleFor(kind), s);
    }
  }

  lemma {:induction false} AllLeftAlone(kinds: seq<Kind>, s: string)
    requires forall k <- kinds :: LeftAlone(k, s)
    ensures SubAll(kinds, s) == s
  {
    hide RuleFor, Pass, LeftAlone;
    if kinds == [] {
    } else {
      LeftAloneIsFixed(kinds[0], s);
      AllLeftAlone(kinds[1..], s);
    }
  }

  lemma RedactedIsLeftAlone(kind: Kind, text: string)
    requires TokenFree(Redact(text))
    ensures LeftAlone(kind, Redact(text))
  {
    if IsAssignment(kind) {
      RedactsValue(kind, text);
    } else if kind.AwsKeys? {
      RedactsToken(kind, text);
    } else if kind.PrivateKeys? {
      RedactsPrivateKey(kind, text);
    }
  }


  // ---------------------------------------------------------------- the token passes keep masked assignments

  /** The token passes cannot begin inside a masked assignment. */
  lemma TokenMissesMask(kp: Kind, kq: Kind)
    requires IsAssignment(kp) && IsToken(kq)
    ensures Dodges(Class(kq, Word(kq)[0]), Class(kq, Word(kq)[1]), Replacement(kp))
  {
    match kp {
      case Passwords => DodgePasswords(Word(kq)[0], Word(kq)[1]);
      case Secrets => DodgeSecrets(Word(kq)[0], Word(kq)[1]);
      case Tokens => DodgeTokens(Word(kq)[0], Word(kq)[1]);
    }
  }

  lemma TokenEdges(kq: Kind)
    requires IsToken(kq)
    ensures Replacement(kq) != "" && !Edge(Replacement(kq)[0]) && Edgeless(Class(kq, Word(kq)[0]))
  {}

  lemma TokenSharp(kq: Kind)
    requires IsToken(kq)
    ensures Sharp(RuleFor(kq))
  {
    hide PatternFor, Word, Replacement;
    RuleParts(kq);
    TokenEdges(kq);
    SharpRule(RuleFor(kq));
  }

  /** How the token replacements begin: not with a letter that a key word holds after its first. */
  lemma TokenBegins(kq: Kind)
    requires IsToken(kq)
    ensures var r := Replacement(kq); |r| >= 2 && Folded(r[0]) in {'[', 'b'}
  {}

  lemma WordHasNo(kp: Kind)
    requires IsAssignment(kp)
    ensures '[' !in Word(kp) && 'b' !in Word(kp)
  {}

  lemma TokenWordBars(kp: Kind, kq: Kind)
    requires IsAssignment(kp) && IsToken(kq)
    ensures FoldBars(Replacement(kq), Word(kp)[1..])
  {
    hide Replacement, Word;
    TokenBegins(kq);
    WordHasNo(kp);
    var w := Word(kp)[1..];
    assert forall i | 0 <= i < |w| :: w[i] in Word(kp);
  }

  predicate AssignmentStart(a: char, a': char, b: char, b': char) {
    || (a == 'p' && a' == 'P' && b == 'a' && b' == 'A')
    || (a == 's' && a' == 'S' && b == 'e' && b' == 'E')
    || (a == 't' && a' == 'T' && b == 'o' && b' == 'O')
  }

  lemma ApiUnled(a: char, a': char, b: char, b': char)
    requires AssignmentStart(a, a', b, b')
    ensures Unled(Replacement(ApiKeys), 0, a, a', b, b')
  {}

  lemma AwsUnled(a: char, a': char, b: char, b': char)
    requires AssignmentStart(a, a', b, b')
    ensures Unled(Replacement(AwsKeys), 0, a, a', b, b')
  {}

  lemma MaskUnled(kq: Kind, a: char, a': char, b: char, b': char)
    requires AssignmentStart(a, a', b, b')
    ensures kq.ApiKeys? || kq.AwsKeys? ==> Unled(Replacement(kq), 0, a, a', b, b')
  {
    hide Unled, Replacement;
    if kq.ApiKeys? { ApiUnled(a, a', b, b'); }
    if kq.AwsKeys? { AwsUnled(a, a', b, b'); }
  }

  lemma BearerNoPassword()
    ensures Unled(Replacement(Bearers), 0, 'p', 'P', 'a', 'A')
  {}

  lemma BearerNoSecret()
    ensures Unled(Replacement(Bearers), 0, 's', 'S', 'e', 'E')
  {}

  lemma UnledVeils(kp: Kind, r: string)
    requires IsAssignment(kp) && Plain(r)
    requires kp.Passwords? ==> Unled(r, 0, 'p', 'P', 'a', 'A')
    requires kp.Secrets? ==> Unled(r, 0, 's', 'S', 'e', 'E')
    requires kp.Tokens? ==> Unled(r, 0, 't', 'T', 'o', 'O')
    ensures Veils(Word(kp), r)
  {
    assert r[0..] == r;
    match kp {
      case Passwords => UnledDodges(r, 0, 'p', 'P', 'a', 'A');
      case Secrets => UnledDodges(r, 0, 's', 'S', 'e', 'E');
      case Tokens => UnledDodges(r, 0, 't', 'T', 'o', 'O');
    }
    DodgingVeils(Word(kp), r);
  }

  const BEARER_START: string := "Bearer [REDACTED_"
  const BEARER_END: string := "TOKEN]"

  lemma BearerTwoParts()
    ensures Replacement(Bearers) == BEARER_START + BEARER_END
    ensures Plain(BEARER_START) && Unled(BEARER_START, 0, 't', 'T', 'o', 'O')
  {}

  lemma BearerEnd()
    ensures |BEARER_END| == 6 && BEARER_END[5] == ']' && Plain(BEARER_END) && Unled(BEARER_END, 1, 't', 'T', 'o', 'O')
  {}

  /** The word TOKEN in the replacement of a bearer token is followed by a bracket, so nothing is assigned to it. */
  lemma BearerEndVeils()
    ensures Veils(Word(Tokens), BEARER_END)
  {
    BearerEnd();
    BracketVeils(Word(Tokens), BEARER_END);
  }

  lemma BracketVeils(w: string, r: string)
    requires |w| == 5 && w[0] == 't' && w[1] == 'o' && |r| == 6 && r[5] == ']'
    requires Plain(r) && Unled(r, 1, 't', 'T', 'o', 'O')
    ensures Veils(w, r)
  {
    hide Assigned, Unled, Plain, Dodges;
    UnledDodges(r, 1, 't', 'T', 'o', 'O');
    forall t | Hidden(w, t) ensures Hidden(w, r + t) {
      assert (r + t)[1..] == r[1..] + t;
      DodgingHides(w, r[1..], t);
      BracketShowsNothing(w, r, t);
    }
  }

  lemma BracketShowsNothing(w: string, r: string, t: string)
    requires |w| + 1 == |r| && r[|w|] == ']'
    ensures Assigned(w, r + t) == ""
  {
    hide Assigned;
    assert (r + t)[|w|] == ']';
    if Assigned(w, r + t) != "" { ValueAfterWord(w, r + t); }
  }

  lemma Regrouped(a: string, b: string, t: string)
    ensures (a + b) + t == a + (b + t)
  {}

  lemma VeilsBoth(w: string, a: string, b: string)
    requires Veils(w, a) && Veils(w, b)
    ensures Veils(w, a + b)
  {
    hide Hidden;
    forall t | Hidden(w, t) ensures Hidden(w, (a + b) + t) {
      Regrouped(a, b, t);
    }
  }

  lemma TokenVeils(kp: Kind, kq: Kind)
    requires IsAssignment(kp) && IsToken(kq)
    ensures Veils(Word(kp), Replacement(kq))
  {
    hide Veils, Unled, Replacement;
    ReplacementPlain(kq);
    if kq.Bearers? && kp.Tokens? {
      BearerTwoParts();
      UnledVeils(kp, BEARER_START);
      BearerEndVeils();
      VeilsBoth(Word(kp), BEARER_START, BEARER_END);
    } else {
      BearerNoPassword();
      BearerNoSecret();
      MaskUnled(kq, 'p', 'P', 'a', 'A');
      MaskUnled(kq, 's', 'S', 'e', 'E');
      MaskUnled(kq, 't', 'T', 'o', 'O');
      UnledVeils(kp, Replacement(kq));
    }
  }

  lemma TokenIsNotAssignment(kp: Kind, kq: Kind)
    requires IsAssignment(kp) && IsToken(kq)
    ensures RuleFor(kq).pattern != Assignment(Word(kp))
  {
    hide PatternFor, Assignment, Word, Replacement;
    RuleParts(kq);
    assert Assignment(Word(kp))[0] == One(Fold(Word(kp)[0]));
  }

  /** A token pass keeps every assignment masked. */
  lemma TokenPassHides(kp: Kind, kq: Kind, s: string)
    requires IsAssignment(kp) && IsToken(kq) && Hidden(Word(kp), s)
    ensures Hidden(Word(kp), Pass(kq, s))
  {
    hide PatternFor, Word, Replacement, Assignment, Hidden;
    var w, q := Word(kp), RuleFor(kq);
    RuleParts(kq);
    TokenSharp(kq);
    TokenWordBars(kp, kq);
    TokenVeils(kp, kq);
    TokenIsNotAssignment(kp, kq);
    OwnText(kp);
    TokenMissesMask(kp, kq);
    PassHides(w, q, s);
  }

  // ---------------------------------------------------------------- twice, and three times

  /** All assignments in s are masked. */
  predicate AllHidden(s: string) {
    Hidden(Word(Passwords), s) && Hidden(Word(Secrets), s) && Hidden(Word(Tokens), s)
  }

  lemma TokenPassAllHidden(kq: Kind, s: string)
    requires IsToken(kq) && AllHidden(s)
    ensures AllHidden(Pass(kq, s))
  {
    hide Word, Hidden, Pass;
    TokenPassHides(Passwords, kq, s);
    TokenPassHides(Secrets, kq, s);
    TokenPassHides(Tokens, kq, s);
  }

  lemma AssignmentPassFixed(kq: Kind, s: string)
    requires IsAssignment(kq) && AllHidden(s)
    ensures Pass(kq, s) == s
  {
    hide Hidden, Pass;
    LeftAloneIsFixed(kq, s);
  }

  /** Once every assignment is masked, no later pass brings a token back. */
  lemma {:induction false} HiddenKeepsTokenFree(kp: Kind, kinds: seq<Kind>, n: nat, s: string)
    requires IsToken(kp) && InOrder(kinds, n) && AllHidden(s)
    requires n <= Rank(kp) || Free(RuleFor(kp).pattern, s)
    ensures Free(RuleFor(kp).pattern, SubAll(kinds, s))
  {
    hide RuleFor, Pass, AllHidden;
    if kinds == [] {
    } else {
      TailInOrder(kinds, n);
      HiddenStep(kp, kinds[0], s);
      if IsToken(kinds[0]) {
        TokenPassAllHidden(kinds[0], s);
        HiddenKeepsTokenFree(kp, kinds[1..], n + 1, Pass(kinds[0], s));
      } else if IsAssignment(kinds[0]) {
        AssignmentPassFixed(kinds[0], s);
        HiddenKeepsTokenFree(kp, kinds[1..], n + 1, s);
      } else {
        LastPass(kinds, s);
      }
    }
  }

  lemma HiddenStep(kp: Kind, kq: Kind, s: string)
    requires IsToken(kp) && AllHidden(s) && (Rank(kq) <= Rank(kp) || Free(RuleFor(kp).pattern, s))
    ensures Rank(kq) < Rank(kp) || Free(RuleFor(kp).pattern, Pass(kq, s))
  {
    hide RuleFor, Pass, AllHidden, WellSpelled;
    RankUnique(kp, kq);
    if IsAssignment(kq) {
      AssignmentPassFixed(kq, s);
    } else if Rank(kp) <= Rank(kq) {
      TokenPass(kp, kq, s);
    }
  }

  /** For every text: after two redactions there is no API key, no bearer token and no AWS key. */
  lemma RedactTwiceIsTokenFree(text: string)
    ensures TokenFree(Redact(Redact(text))) && Free(RuleFor(AwsKeys).pattern, Redact(Redact(text)))
  {
    hide RuleFor, Hidden, Word;
    var r := Redact(text);
    RedactsToken(AwsKeys, r);
    RedactsValue(Passwords, text);
    RedactsValue(Secrets, text);
    RedactsValue(Tokens, text);
    KindsInOrder();
    HiddenKeepsTokenFree(ApiKeys, KINDS, 0, r);
    HiddenKeepsTokenFree(Bearers, KINDS, 0, r);
  }

  lemma TokenFreeIsFixed(text: string)
    requires TokenFree(Redact(text))
    ensures Redact(Redact(text)) == Redact(text)
  {
    hide TokenFree, LeftAlone;
    forall k | k in KINDS ensures LeftAlone(k, Redact(text)) {
      RedactedIsLeftAlone(k, text);
    }
    AllLeftAlone(KINDS, Redact(text));
  }

  /** Redacting again changes nothing exactly when no API key and no bearer token was left. */
  lemma RedactTwiceExact(text: string)
    ensures Redact(Redact(text)) == Redact(text) <==> TokenFree(Redact(text))
  {
    hide Redact, TokenFree;
    RedactTwiceIsTokenFree(text);
    if TokenFree(Redact(text)) { TokenFreeIsFixed(text); }
  }

  /** Two redactions are always enough. */
  lemma RedactThrice(text: string)
    ensures Redact(Redact(Redact(text))) == Redact(Redact(text))
  {
    hide Redact, TokenFree;
    RedactTwiceIsTokenFree(text);
    TokenFreeIsFixed(Redact(text));
  }
}
