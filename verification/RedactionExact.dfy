/** Exactly when redaction leaves an API key or a bearer token: the case folding of the assignment patterns takes
    the long s and the Kelvin sign for s and k, and writes the word back in ASCII letters. */
module RedactionExact {
  import opened Text
  import opened Patterns
  import opened Redaction
  import opened RedactionMasks

  /** The run of k at the start of s as q leaves it: a replaced text counts as far as its replacement is in k, and
      ends the run. */
  function SeenRun(k: CharClass, q: Rule, s: string): nat {
    if s == "" then 0
    else if At(q, s).Some? then RunLen(k, q.replacement)
    else if In(k, s[0]) then 1 + SeenRun(k, q, s[1..])
    else 0
  }

  predicate HasLetters(kind: Kind) { kind.ApiKeys? || kind.Bearers? }

  /** The passes after the three token passes. */
  predicate Later(kind: Kind) { IsAssignment(kind) || kind.PrivateKeys? }

  /** Whether t, after a token's leading text, has a run long enough, so seen. */
  predicate SeenBody(kind: Kind, q: Rule, t: string) {
    if kind.ApiKeys? then SeenRun(KeyChar, q, t) >= 10
    else RunLen(Space, t) > 0 && SeenRun(TokenChar, q, AfterSpace(t)) >= 20
  }

  /** q replaces nothing that begins among the first n characters of s. */
  predicate Untouched(q: Rule, s: string, n: nat) {
    n == 0 || (s != "" && At(q, s).None? && Untouched(q, s[1..], n - 1))
  }

  /** Whether s starts like a token, untouched by q, and goes on like one, so seen. */
  predicate SeenToken(kind: Kind, q: Rule, s: string) {
    Word(kind) <= s && Untouched(q, s, |Word(kind)|) && SeenBody(kind, q, s[|Word(kind)|..])
  }

  /** Whether, reading as q reads, some position outside the replaced texts starts a seen token. */
  predicate LeavesToken(kind: Kind, q: Rule, s: string)
    requires Solid(q)
    decreases |s|
  {
    if s == "" then false
    else if At(q, s).Some? then LeavesToken(kind, q, s[At(q, s).value..])
    else SeenToken(kind, q, s) || LeavesToken(kind, q, s[1..])
  }

  // ---------------------------------------------------------------- one head

  lemma {:induction false} RunInside(k: CharClass, r: string, t: string)
    requires RunLen(k, r) < |r|
    ensures RunLen(k, r + t) == RunLen(k, r)
  {
    assert (r + t)[1..] == r[1..] + t;
    if In(k, r[0]) { RunInside(k, r[1..], t); }
  }

  lemma {:induction false} RunThrough(k: CharClass, q: Rule, s: string)
    requires Solid(q) && RunLen(k, q.replacement) < |q.replacement|
    ensures RunLen(k, Sub(q, s)) == SeenRun(k, q, s)
  {
    if s == "" {
    } else {
      if At(q, s).Some? {
        RunInside(k, q.replacement, Sub(q, s[At(q, s).value..]));
      } else {
        assert Sub(q, s)[1..] == Sub(q, s[1..]);
        RunThrough(k, q, s[1..]);
      }
    }
  }

  lemma ApiBodyThrough(q: Rule, t: string)
    requires Solid(q) && RunLen(KeyChar, q.replacement) < |q.replacement|
    ensures Match(ApiBody(), Sub(q, t)).Some? <==> SeenRun(KeyChar, q, t) >= 10
  {
    MatchAtLeast(KeyChar, 10, Sub(q, t));
    RunThrough(KeyChar, q, t);
  }

  lemma BearerBodyThrough(q: Rule, t: string)
    requires Sharp(q) && RunLen(TokenChar, q.replacement) < |q.replacement|
    ensures Match(BearerBody(), Sub(q, t)).Some? <==>
      RunLen(Space, t) > 0 && SeenRun(TokenChar, q, AfterSpace(t)) >= 20
  {
    SpaceThrough(q, t);
    MatchSpacedRun(TokenChar, 20, Sub(q, t));
    RunThrough(TokenChar, q, AfterSpace(t));
  }

  /** Text is left as it is exactly where q replaces nothing in it. */
  lemma {:induction false} TextLeft(q: Rule, s: string, w: string)
    requires Solid(q) && Bars(q.replacement, w)
    ensures w <= Sub(q, s) <==> w <= s && Untouched(q, s, |w|)
    ensures w <= s && Untouched(q, s, |w|) ==> Sub(q, s) == w + Sub(q, s[|w|..])
    decreases |w|, 1
  {
    if w == "" {
      assert s[0..] == s;
    } else if s != "" {
      if w <= Sub(q, s) { NotReplacedHere(q, s, w); }
      if At(q, s).None? { TextLeftFrom(q, s, w); }
    }
  }

  lemma {:induction false} TextLeftFrom(q: Rule, s: string, w: string)
    requires Solid(q) && w != "" && Bars(q.replacement, w[1..]) && s != "" && At(q, s).None?
    ensures w <= Sub(q, s) <==> w <= s && Untouched(q, s, |w|)
    ensures w <= s && Untouched(q, s, |w|) ==> Sub(q, s) == w + Sub(q, s[|w|..])
    decreases |w|, 0
  {
    assert Sub(q, s)[1..] == Sub(q, s[1..]) && Sub(q, s)[0] == s[0];
    TextLeft(q, s[1..], w[1..]);
    assert w <= s <==> w[0] == s[0] && w[1..] <= s[1..];
    assert w <= Sub(q, s) <==> w[0] == s[0] && w[1..] <= Sub(q, s[1..]);
    if w <= s && Untouched(q, s, |w|) { CopyStep(q, s, w); }
  }

  lemma {:induction false} TextThrough(v: string, body: Pattern, q: Rule, s: string)
    requires Solid(q) && v != "" && s != "" && At(q, s).None? && Bars(q.replacement, v[1..])
    ensures Match(Lits(v) + body, Sub(q, s)).Some?
            <==> v <= s && Untouched(q, s, |v|) && Match(body, Sub(q, s[|v|..])).Some?
  {
    MatchLits(v, body, Sub(q, s));
    TextLeftFrom(q, s, v);
    if v <= s && Untouched(q, s, |v|) {
      assert Sub(q, s)[|v|..] == Sub(q, s[|v|..]);
    }
  }

  lemma {:induction false} RunOf(k: CharClass, w: string, x: string)
    requires x != "" && !In(k, x[0])
    ensures RunLen(k, w + x) <= |w|
  {
    if w == "" {
      assert w + x == x;
    } else {
      assert (w + x)[1..] == w[1..] + x;
      RunOf(k, w[1..], x);
    }
  }

  lemma EndsRun(kq: Kind, k: CharClass)
    requires Later(kq) && (k == KeyChar || k == TokenChar)
    ensures RunLen(k, Replacement(kq)) < |Replacement(kq)|
  {
    hide Word;
    if IsAssignment(kq) {
      AssignmentReplacement(kq);
      RunOf(k, Word(kq), "=" + MASK);
    }
  }

  lemma BodyExact(kp: Kind, kq: Kind, t: string)
    requires HasLetters(kp) && Later(kq)
    ensures Match(Body(kp), Pass(kq, t)).Some? <==> SeenBody(kp, RuleFor(kq), t)
  {
    hide PatternFor, Replacement, Word;
    RuleParts(kq);
    if kp.ApiKeys? {
      EndsRun(kq, KeyChar);
      ApiBodyThrough(RuleFor(kq), t);
    } else {
      EndsRun(kq, TokenChar);
      SharpKind(kq);
      BearerBodyThrough(RuleFor(kq), t);
    }
  }

  lemma HeadExact(kp: Kind, kq: Kind, s: string)
    requires HasLetters(kp) && Later(kq) && s != "" && At(RuleFor(kq), s).None?
    ensures Match(RuleFor(kp).pattern, Pass(kq, s)).Some? <==> SeenToken(kp, RuleFor(kq), s)
  {
    hide PatternFor, Replacement, Word, Body, SeenBody;
    RulePattern(kp);
    RuleParts(kq);
    TokenBars(kp, kq);
    TextThrough(Word(kp), Body(kp), RuleFor(kq), s);
    if Word(kp) <= s { BodyExact(kp, kq, s[|Word(kp)|..]); }
  }

  // ---------------------------------------------------------------- one pass

  lemma AfterReplacement(p: Pattern, r: string, t: string)
    requires Free(p, r + t)
    ensures Free(p, t)
  {
    FreeAt(p, r + t, |r|);
    assert (r + t)[|r|..] == t;
  }

  /** For every text and every pass after the token passes: what it leaves is free of a token exactly when, reading
      as it reads, no token is seen. */
  lemma {:induction false} PassExact(kp: Kind, kq: Kind, s: string)
    requires HasLetters(kp) && Later(kq)
    ensures Free(RuleFor(kp).pattern, Pass(kq, s)) <==> !LeavesToken(kp, RuleFor(kq), s)
    decreases |s|
  {
    hide RuleFor, SeenToken, Word;
    var p, q := RuleFor(kp).pattern, RuleFor(kq);
    if s == "" {
      EmptyFree(kp);
    } else if At(q, s).Some? {
      var t := s[At(q, s).value..];
      PassExact(kp, kq, t);
      RuleParts(kq);
      TokenInert(kp, kq);
      if Free(p, q.replacement + Sub(q, t)) {
        AfterReplacement(p, q.replacement, Sub(q, t));
      }
    } else {
      PassExact(kp, kq, s[1..]);
      HeadExact(kp, kq, s);
      assert Sub(q, s)[1..] == Sub(q, s[1..]);
    }
  }

  lemma EmptyFree(kp: Kind)
    ensures Free(RuleFor(kp).pattern, "")
  {
    hide PatternFor;
    var p := RuleFor(kp).pattern;
    if Match(p, "").Some? { FirstTwo(p, ""); }
  }

  /** A token-free text that spells no key word with the two letters keeps being free, so no token is seen. */
  lemma WellSpelledLeavesNone(kp: Kind, kq: Kind, s: string)
    requires HasLetters(kp) && Later(kq) && WellSpelled(s) && Free(RuleFor(kp).pattern, s)
    ensures !LeavesToken(kp, RuleFor(kq), s)
  {
    hide RuleFor, LeavesToken, Word, WellSpelled, Pass;
    PassExact(kp, kq, s);
    TokenPass(kp, kq, s);
  }

  // ---------------------------------------------------------------- the whole sequence

  /** The text before the n-th pass. */
  function Before(n: nat, text: string): string
    requires n <= |KINDS|
  {
    SubAll(KINDS[..n], text)
  }

  lemma {:induction false} SubAllLast(kinds: seq<Kind>, kind: Kind, s: string)
    ensures SubAll(kinds + [kind], s) == Pass(kind, SubAll(kinds, s))
  {
    hide Pass;
    if kinds == [] {
      assert kinds + [kind] == [kind] && [kind][1..] == [];
    } else {
      assert (kinds + [kind])[1..] == kinds[1..] + [kind];
      SubAllLast(kinds[1..], kind, Pass(kinds[0], s));
    }
  }

  lemma LastPasses()
    ensures KINDS[..6] == KINDS[..5] + [Tokens] && KINDS == KINDS[..6] + [PrivateKeys]
  {}

  /** For every text, exactly when the redacted text still has an API key or a bearer token: when the last pass,
      reading what the six passes before it leave, sees one. */
  lemma RedactsTokenExactly(kp: Kind, text: string)
    requires HasLetters(kp)
    ensures Free(RuleFor(kp).pattern, Redact(text)) <==> !LeavesToken(kp, RuleFor(PrivateKeys), Before(6, text))
  {
    hide RuleFor, Pass, LeavesToken;
    LastPasses();
    SubAllLast(KINDS[..6], PrivateKeys, text);
    PassExact(kp, PrivateKeys, Before(6, text));
  }

  /** Of the three assignment passes only the last matters, exactly: what is left before the last pass is free of a
      token if and only if the pass over tokens sees none; and then so is the redacted text. */
  lemma LastAssignmentDecides(kp: Kind, text: string)
    requires HasLetters(kp)
    ensures Free(RuleFor(kp).pattern, Before(6, text)) <==> !LeavesToken(kp, RuleFor(Tokens), Before(5, text))
    ensures !LeavesToken(kp, RuleFor(Tokens), Before(5, text)) ==> Free(RuleFor(kp).pattern, Redact(text))
  {
    hide RuleFor, Pass, LeavesToken, WellSpelled;
    LastPasses();
    SubAllLast(KINDS[..5], Tokens, text);
    SubAllLast(KINDS[..6], PrivateKeys, text);
    PassExact(kp, Tokens, Before(5, text));
    if Free(RuleFor(kp).pattern, Before(6, text)) { TokenPass(kp, PrivateKeys, Before(6, text)); }
  }
}
