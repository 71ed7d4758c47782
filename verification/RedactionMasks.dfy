/** Assignments after redaction: `password = value`, in any case and spacing, shows nothing but the mask, because
    no later substitution replaces a mask or makes a new assignment. */
module RedactionMasks {
  import opened Text
  import opened Patterns
  import opened Redaction

  function AfterSpace(s: string): string { s[RunLen(Space, s)..] }

  /** The text after an assignment sign and the space behind it; empty without a sign. */
  function AfterSign(a: string): string { if a != "" && In(Assign, a[0]) then AfterSpace(a[1..]) else "" }

  /** The text from the assigned value on, where s starts with an assignment to w; otherwise empty. */
  function Assigned(w: string, s: string): string {
    if !FoldPrefix(w, s) then ""
    else
      FoldPrefixLength(w, s);
      AfterSign(AfterSpace(s[|w|..]))
  }

  /** The value itself. */
  function Shown(w: string, s: string): string { Assigned(w, s)[..RunLen(Ink, Assigned(w, s))] }

  predicate AtSpace(x: string) { x == "" || PySpace(x[0]) }

  /** The text that stands for an assignment to w. */
  function MaskedText(w: string): string { w + ("=" + MASK) }

  predicate Masked(w: string, s: string) { MaskedText(w) <= s && AtSpace(s[|MaskedText(w)|..]) }

  /** Every assignment to w is a masked one. */
  predicate Hidden(w: string, s: string) {
    s == "" || ((Assigned(w, s) == "" || Masked(w, s)) && Hidden(w, s[1..]))
  }

  /** Every value assigned to w is a part of the mask, from its start. */
  predicate Veiled(w: string, s: string) {
    s == "" || (Shown(w, s) <= MASK && Veiled(w, s[1..]))
  }

  lemma AfterSpaceIsInk(s: string)
    ensures AfterSpace(s) != "" ==> !PySpace(AfterSpace(s)[0])
  {
    RunLenEnds(Space, s);
  }

  lemma MatchInk(s: string)
    ensures Match([One(Ink), Star(Ink)], s) == if s != "" && !PySpace(s[0]) then Some(RunLen(Ink, s)) else None
  {
    assert [One(Ink), Star(Ink)][1..] == [Star(Ink)];
    if s != "" { MatchStarEnd(Ink, s[1..]); }
  }

  /** Where the value v, which ends s, stops; there must be one. */
  function ValueEnd(s: string, v: string): Option<nat>
    requires |v| <= |s|
  {
    if v != "" then Some(|s| - |v| + RunLen(Ink, v)) else None
  }

  lemma ShiftEnd(s: string, n: nat, v: string)
    requires n + |v| <= |s|
    ensures Shift(ValueEnd(s[n..], v), n) == ValueEnd(s, v)
  {}

  lemma MatchSpaceInk(s: string)
    ensures Match([Star(Space), One(Ink), Star(Ink)], s) == ValueEnd(s, AfterSpace(s))
  {
    assert [Star(Space), One(Ink), Star(Ink)] == [Star(Space)] + [One(Ink), Star(Ink)];
    MatchStarDisjoint(Space, [One(Ink), Star(Ink)], s);
    MatchInk(AfterSpace(s));
    AfterSpaceIsInk(s);
  }

  lemma MatchAssign(s: string)
    ensures Match(SignBody(), s) == ValueEnd(s, AfterSign(s))
  {
    assert SignBody()[1..] == [Star(Space), One(Ink), Star(Ink)];
    if s != "" { MatchSpaceInk(s[1..]); }
  }

  lemma {:induction false} MatchValueBody(t: string)
    ensures Match(ValueBody(), t) == ValueEnd(t, AfterSign(AfterSpace(t)))
  {
    MatchStarDisjoint(Space, SignBody(), t);
    MatchAssign(AfterSpace(t));
    ShiftEnd(t, RunLen(Space, t), AfterSign(AfterSpace(t)));
  }

  lemma ValueFits(w: string, s: string)
    ensures |Assigned(w, s)| <= |s|
  {
    if FoldPrefix(w, s) { FoldPrefixLength(w, s); }
  }

  /** The assignment pattern matches exactly where there is a value, up to the value's end. */
  lemma AssignmentExact(w: string, s: string)
    requires |w| >= 2
    ensures |Assigned(w, s)| <= |s| && Match(Assignment(w), s) == ValueEnd(s, Assigned(w, s))
  {
    MatchFolds(w, ValueBody(), s);
    ValueFits(w, s);
    if FoldPrefix(w, s) {
      MatchValueBody(s[|w|..]);
      ShiftEnd(s, |w|, Assigned(w, s));
    }
  }

  lemma {:induction false} MatchEnd(w: string, s: string, v: string, n: nat)
    requires |w| >= 2 && Assigned(w, s) == v && v != "" && |s| - |v| + RunLen(Ink, v) == n
    ensures Match(Assignment(w), s) == Some(n)
  {
    AssignmentExact(w, s);
  }

  // ---------------------------------------------------------------- through a pass

  predicate Edge(c: char) { PySpace(c) || c == '=' || c == ':' }

  ghost predicate Edgeless(k: CharClass) { forall c :: Edge(c) ==> !In(k, c) }

  /** Neither what q matches nor its replacement starts with a space or an assignment sign. */
  ghost predicate Sharp(q: Rule) {
    Opens(q.pattern) && q.replacement != "" && !Edge(q.replacement[0]) && Edgeless(q.pattern[0].cls)
  }

  lemma SharpAt(q: Rule, s: string)
    requires Sharp(q) && At(q, s).Some?
    ensures s != "" && !Edge(s[0])
  {
    FirstTwo(q.pattern, s);
  }

  lemma {:induction false} SpaceThrough(q: Rule, s: string)
    requires Sharp(q)
    ensures RunLen(Space, Sub(q, s)) == RunLen(Space, s)
    ensures AfterSpace(Sub(q, s)) == Sub(q, AfterSpace(s))
  {
    if s == "" {
    } else {
      if At(q, s).Some? {
        SharpAt(q, s);
      } else if PySpace(s[0]) {
        SpaceThrough(q, s[1..]);
        assert Sub(q, s)[1..] == Sub(q, s[1..]);
        assert AfterSpace(s) == AfterSpace(s[1..]);
        assert AfterSpace(Sub(q, s)) == AfterSpace(Sub(q, s[1..]));
      }
    }
  }

  /** The replacement cannot begin inside the word, whatever its case, if a space or a sign follows the word. */
  predicate FoldBars(r: string, w: string) {
    |r| >= 2 && forall i {:trigger w[i]} | 0 <= i < |w| :: Folded(r[0]) == w[i] ==>
      if i + 1 < |w| then Folded(r[1]) != w[i + 1] else !Edge(r[1])
  }

  /** The word, and then a space or an assignment sign. */
  predicate WordEnds(w: string, s: string) { FoldPrefix(w, s) && |s| > |w| && Edge(s[|w|]) }

  lemma NotReplacedInWord(q: Rule, s: string, w: string)
    requires Solid(q) && FoldBars(q.replacement, w) && w != "" && WordEnds(w, Sub(q, s))
    ensures s != "" && At(q, s).None?
  {
    assert |w| > 1 ==> FoldPrefix(w[1..], Sub(q, s)[1..]);
    assert Folded(q.replacement[0]) == w[0] ==>
      if 1 < |w| then Folded(q.replacement[1]) != w[1] else !Edge(q.replacement[1]);
  }

  lemma {:induction false} CopyWord(q: Rule, s: string, w: string)
    requires Solid(q) && FoldBars(q.replacement, w) && WordEnds(w, Sub(q, s))
    ensures FoldPrefix(w, s) && |w| <= |s| && Sub(q, s)[|w|..] == Sub(q, s[|w|..])
    decreases |s|, |w|, 1
  {
    if w == "" {
      assert s[0..] == s && Sub(q, s)[0..] == Sub(q, s);
    } else {
      NotReplacedInWord(q, s, w);
      CopyWordFrom(q, s, w);
    }
  }

  lemma {:induction false} CopyWordFrom(q: Rule, s: string, w: string)
    requires Solid(q) && w != "" && FoldBars(q.replacement, w[1..]) && s != "" && At(q, s).None?
    requires WordEnds(w, Sub(q, s))
    ensures FoldPrefix(w, s) && |w| <= |s| && Sub(q, s)[|w|..] == Sub(q, s[|w|..])
    decreases |s|, |w|, 0
  {
    assert Sub(q, s)[1..] == Sub(q, s[1..]);
    CopyWord(q, s[1..], w[1..]);
    assert s[1..][|w| - 1..] == s[|w|..];
    assert Sub(q, s)[1..][|w| - 1..] == Sub(q, s)[|w|..];
  }

  lemma ValueAfterWord(w: string, s: string)
    requires Assigned(w, s) != ""
    ensures WordEnds(w, s)
  {
    FoldPrefixLength(w, s);
    var t := s[|w|..];
    assert t != "" && (RunLen(Space, t) == 0 ==> AfterSpace(t) == t);
  }

  lemma AssignThrough(q: Rule, a: string)
    requires Sharp(q) && Sub(q, a) != "" && In(Assign, Sub(q, a)[0])
    ensures a != "" && a[0] == Sub(q, a)[0] && Sub(q, a)[1..] == Sub(q, a[1..])
  {
    assert At(q, a).None?;
  }

  /** Where q does not match, an assignment after the pass is one from before, with the pass applied to its value. */
  lemma {:induction false} ValueThrough(w: string, q: Rule, s: string)
    requires Sharp(q) && w != "" && FoldBars(q.replacement, w[1..]) && s != "" && At(q, s).None?
    requires Assigned(w, Sub(q, s)) != ""
    ensures Assigned(w, s) != "" && Assigned(w, Sub(q, s)) == Sub(q, Assigned(w, s))
  {
    ValueAfterWord(w, Sub(q, s));
    CopyWordFrom(q, s, w);
    var t := s[|w|..];
    SpaceThrough(q, t);
    AssignThrough(q, AfterSpace(t));
    SpaceThrough(q, AfterSpace(t)[1..]);
  }

  lemma {:induction false} CopyDodging(q: Rule, m: string, x: string)
    requires Opens(q.pattern) && Dodges(q.pattern[0].cls, q.pattern[1].cls, m)
    ensures Sub(q, m + x) == m + Sub(q, x)
  {
    if m == "" {
      assert m + x == x;
    } else {
      assert (m + x)[1..] == m[1..] + x;
      CopyDodging(q, m[1..], x);
      if At(q, m + x).Some? {
        FirstTwo(q.pattern, m + x);
      }
    }
  }

  lemma {:induction false} RunOfInk(m: string, x: string)
    requires forall c <- m :: !PySpace(c)
    ensures RunLen(Ink, m + x) == |m| + RunLen(Ink, x)
  {
    if m == "" {
      assert m + x == x;
    } else {
      assert (m + x)[1..] == m[1..] + x;
      RunOfInk(m[1..], x);
    }
  }

  lemma MaskIsInk()
    ensures |MASK| == 10 && forall c <- MASK :: !PySpace(c)
  {}

  lemma SpaceStays(q: Rule, x: string)
    requires Sharp(q) && AtSpace(x)
    ensures AtSpace(Sub(q, x))
  {
    if x != "" && At(q, x).Some? {
      SharpAt(q, x);
    }
  }

  /** A masked assignment is still one after another pass. */
  lemma MaskThrough(w: string, q: Rule, s: string)
    requires Sharp(q) && Masked(w, s) && Dodges(q.pattern[0].cls, q.pattern[1].cls, MaskedText(w))
    ensures Masked(w, Sub(q, s))
  {
    var m := MaskedText(w);
    var x := s[|m|..];
    assert s == m + x;
    CopyDodging(q, m, x);
    SpaceStays(q, x);
    assert Sub(q, s)[|m|..] == Sub(q, x);
  }

  // ---------------------------------------------------------------- assignments, pass by pass

  lemma ValueStarts(w: string, s: string)
    requires |w| >= 2 && Assigned(w, s) != ""
    ensures |s| >= 2 && Folded(s[0]) == w[0] && Folded(s[1]) == w[1]
  {
    assert FoldPrefix(w[1..], s[1..]);
  }

  lemma {:induction false} DodgingHides(w: string, r: string, t: string)
    requires |w| >= 2 && Dodges(Fold(w[0]), Fold(w[1]), r) && Hidden(w, t)
    ensures Hidden(w, r + t)
  {
    if r == "" {
      assert r + t == t;
    } else {
      assert (r + t)[1..] == r[1..] + t;
      DodgingHides(w, r[1..], t);
      if Assigned(w, r + t) != "" {
        ValueStarts(w, r + t);
      }
    }
  }

  lemma {:induction false} HiddenFrom(w: string, s: string, n: nat)
    requires Hidden(w, s) && n <= |s|
    ensures Hidden(w, s[n..])
  {
    if n == 0 {
      assert s[0..] == s;
    } else {
      HiddenFrom(w, s[1..], n - 1);
      assert s[1..][n - 1..] == s[n..];
    }
  }

  /** What follows a match of an assignment is a space or the end. */
  lemma AfterAssignment(w: string, s: string)
    requires |w| >= 2 && Match(Assignment(w), s).Some?
    ensures AtSpace(s[Match(Assignment(w), s).value..])
  {
    AssignmentExact(w, s);
    var v := Assigned(w, s);
    RunLenEnds(Ink, v);
    ValueIsSuffix(w, s);
    assert s[|s| - |v| + RunLen(Ink, v)..] == v[RunLen(Ink, v)..];
  }

  lemma SuffixOf(s: string, i: nat, j: nat)
    requires i <= j <= |s|
    ensures s[i..][j - i..] == s[j..] && |s[j..]| == |s| - j
  {}

  predicate Ends(v: string, s: string) { |v| <= |s| && s[|s| - |v|..] == v }

  lemma EndsAfter(v: string, s: string, n: nat)
    requires n <= |s| && Ends(v, s[n..])
    ensures Ends(v, s)
  {
    SuffixOf(s, n, |s| - |v|);
  }

  lemma AfterSpaceEnds(s: string)
    ensures Ends(AfterSpace(s), s)
  {}

  lemma AfterSignEnds(a: string)
    ensures Ends(AfterSign(a), a)
  {
    if a != "" && In(Assign, a[0]) {
      AfterSpaceEnds(a[1..]);
      EndsAfter(AfterSign(a), a, 1);
    }
  }

  lemma ValueIsSuffix(w: string, s: string)
    ensures Ends(Assigned(w, s), s)
  {
    if FoldPrefix(w, s) {
      FoldPrefixLength(w, s);
      var t := s[|w|..];
      AfterSignEnds(AfterSpace(t));
      EndsAfter(Assigned(w, s), t, RunLen(Space, t));
      EndsAfter(Assigned(w, s), s, |w|);
    }
  }

  lemma {:induction false} FoldPrefixOf(w: string, x: string)
    requires forall c <- w :: Folded(c) == c
    ensures FoldPrefix(w, w + x)
  {
    if w == "" {
    } else {
      assert (w + x)[1..] == w[1..] + x;
      FoldPrefixOf(w[1..], x);
    }
  }

  lemma ValueAfterSign(w: string, a: string)
    requires (forall c <- w :: Folded(c) == c) && |a| > 1 && a[0] == '=' && !PySpace(a[1])
    ensures Assigned(w, w + a) == a[1..]
  {
    FoldPrefixOf(w, a);
    assert (w + a)[|w|..] == a;
    assert RunLen(Space, a) == 0 && RunLen(Space, a[1..]) == 0;
  }

  lemma InkEnds(m: string, v: string)
    requires m <= v && (forall c <- m :: !PySpace(c)) && AtSpace(v[|m|..])
    ensures RunLen(Ink, v) == |m|
  {
    assert v == m + v[|m|..];
    RunOfInk(m, v[|m|..]);
  }

  lemma SignedValue(w: string, s: string)
    requires (forall c <- w :: Folded(c) == c) && w <= s && |s| > |w| + 1 && s[|w|] == '=' && !PySpace(s[|w| + 1])
    ensures Assigned(w, s) == s[|w| + 1..]
  {
    assert s == w + s[|w|..];
    ValueAfterSign(w, s[|w|..]);
    assert s[|w|..][1..] == s[|w| + 1..];
  }

  lemma MaskedParts(w: string, s: string)
    requires Masked(w, s)
    ensures w <= s && |s| > |w| + 1 && s[|w|] == '=' && MASK <= s[|w| + 1..]
    ensures !PySpace(s[|w| + 1]) && AtSpace(s[|w| + 1..][|MASK|..])
  {
    var m := MaskedText(w);
    assert m[|w|] == '=' && m[|w| + 1..] == MASK && m[|w| + 1] == MASK[0];
    MaskIsInk();
    assert MASK[0] in MASK;
    assert s[|w| + 1..][|MASK|..] == s[|m|..];
  }

  /** What a masked assignment shows is the mask. */
  lemma MaskedShows(w: string, s: string)
    requires Masked(w, s) && forall c <- w :: Folded(c) == c
    ensures Shown(w, s) == MASK
  {
    MaskedParts(w, s);
    SignedValue(w, s);
    MaskIsInk();
    InkEnds(MASK, s[|w| + 1..]);
  }

  /** A replacement that shows no value of w, whatever follows it. */
  ghost predicate Veils(w: string, r: string) { forall t :: Hidden(w, t) ==> Hidden(w, r + t) }

  lemma DodgingVeils(w: string, r: string)
    requires |w| >= 2 && Dodges(Fold(w[0]), Fold(w[1]), r)
    ensures Veils(w, r)
  {
    forall t | Hidden(w, t) ensures Hidden(w, r + t) { DodgingHides(w, r, t); }
  }

  /** What must hold of a word and a pass for the pass to keep the word's values masked. */
  ghost predicate Keeps(w: string, q: Rule) {
    && |w| >= 2 && Sharp(q) && FoldBars(q.replacement, w[1..])
    && (if q.pattern == Assignment(w)
        then q.replacement == MaskedText(w) && Dodges(Fold(w[0]), Fold(w[1]), q.replacement[1..])
        else Veils(w, q.replacement) && Dodges(q.pattern[0].cls, q.pattern[1].cls, MaskedText(w)))
  }

  lemma ReplacementHides(w: string, q: Rule, t: string)
    requires Keeps(w, q) && Hidden(w, t) && (q.pattern == Assignment(w) ==> AtSpace(t))
    ensures Hidden(w, q.replacement + t)
  {
    hide Dodges, AtSpace;
    var r := q.replacement;
    if q.pattern == Assignment(w) {
      DodgingHides(w, r[1..], t);
      assert (r + t)[1..] == r[1..] + t && (r + t)[|r|..] == t;
    }
  }

  /** A pass that keeps a text's head keeps a masked value masked, and its own pass leaves no head that matches. */
  lemma HeadHides(w: string, q: Rule, s: string)
    requires Keeps(w, q) && s != "" && At(q, s).None?
    requires q.pattern == Assignment(w) || Hidden(w, s)
    ensures Assigned(w, Sub(q, s)) == "" || Masked(w, Sub(q, s))
  {
    if Assigned(w, Sub(q, s)) != "" {
      ValueThrough(w, q, s);
      AssignmentExact(w, s);
      MaskThrough(w, q, s);
    }
  }

  lemma {:induction false} PassHides(w: string, q: Rule, s: string)
    requires Keeps(w, q) && (q.pattern == Assignment(w) || Hidden(w, s))
    ensures Hidden(w, Sub(q, s))
    decreases |s|
  {
    if s == "" {
    } else {
      if At(q, s).Some? {
        var n := At(q, s).value;
        if q.pattern == Assignment(w) {
          AfterAssignment(w, s);
          SpaceStays(q, s[n..]);
        } else {
          HiddenFrom(w, s, n);
        }
        PassHides(w, q, s[n..]);
        ReplacementHides(w, q, Sub(q, s[n..]));
      } else {
        HeadHides(w, q, s);
        PassHides(w, q, s[1..]);
        assert Sub(q, s)[1..] == Sub(q, s[1..]);
      }
    }
  }

  // ---------------------------------------------------------------- the three words and the passes after them

  lemma WordLower(kp: Kind)
    requires IsAssignment(kp)
    ensures forall c <- Word(kp) :: Folded(c) == c
  {}

  lemma EdgeIsNoStart(kq: Kind)
    requires IsAssignment(kq) || kq.PrivateKeys?
    ensures Replacement(kq) != "" && !Edge(Replacement(kq)[0]) && Edgeless(Class(kq, Word(kq)[0]))
  {}

  lemma SharpRule(q: Rule)
    requires Opens(q.pattern) && q.replacement != "" && !Edge(q.replacement[0]) && Edgeless(q.pattern[0].cls)
    ensures Sharp(q)
  {}

  lemma SharpKind(kq: Kind)
    requires IsAssignment(kq) || kq.PrivateKeys?
    ensures Sharp(RuleFor(kq))
  {
    hide PatternFor, Word, Replacement;
    RuleParts(kq);
    EdgeIsNoStart(kq);
    SharpRule(RuleFor(kq));
  }

  /** How the replacements from the first assignment pass on begin. */
  predicate Begins(r: string) {
    && |r| >= 2
    && ((r[0] == 'p' && r[1] == 'a') || (r[0] == 's' && r[1] == 'e') || (r[0] == 't' && r[1] == 'o')
        || (r[0] == '[' && r[1] == 'R'))
  }

  lemma ReplacementBegins(kq: Kind)
    requires Rank(kq) >= 3
    ensures Begins(Replacement(kq))
  {}

  lemma BarsPassword(r: string)
    requires Begins(r)
    ensures FoldBars(r, Word(Passwords)[1..])
  {}

  lemma BarsSecret(r: string)
    requires Begins(r)
    ensures FoldBars(r, Word(Secrets)[1..])
  {}

  lemma BarsToken(r: string)
    requires Begins(r)
    ensures FoldBars(r, Word(Tokens)[1..])
  {}

  /** A later replacement, or its own, cannot begin inside a key word. */
  lemma WordBars(kp: Kind, kq: Kind)
    requires IsAssignment(kp) && Rank(kp) <= Rank(kq)
    ensures FoldBars(Replacement(kq), Word(kp)[1..])
  {
    ReplacementBegins(kq);
    match kp {
      case Passwords => BarsPassword(Replacement(kq));
      case Secrets => BarsSecret(Replacement(kq));
      case Tokens => BarsToken(Replacement(kq));
    }
  }

  lemma PasswordNoSecret()
    ensures Unled(Replacement(Passwords), 0, 's', 'S', 'e', 'E')
  {}

  lemma NoToken(kp: Kind)
    requires kp.Passwords? || kp.Secrets?
    ensures Unled(Replacement(kp), 0, 't', 'T', 'o', 'O')
  {}

  lemma PasswordNoDash()
    ensures '-' !in Replacement(Passwords)
  {}

  lemma OthersNoDash(kp: Kind)
    requires kp.Secrets? || kp.Tokens?
    ensures '-' !in Replacement(kp)
  {}

  lemma NoDashes(kp: Kind)
    requires IsAssignment(kp)
    ensures Dodges(Lit('-'), Lit('-'), Replacement(kp))
  {
    hide Replacement;
    if kp.Passwords? { PasswordNoDash(); } else { OthersNoDash(kp); }
    assert forall i | 0 <= i < |Replacement(kp)| :: Replacement(kp)[i] in Replacement(kp);
  }

  lemma SecretsSkip()
    ensures Dodges(Fold('s'), Fold('e'), Replacement(Passwords)[0..])
  {
    PasswordNoSecret();
    ReplacementPlain(Passwords);
    UnledDodges(Replacement(Passwords), 0, 's', 'S', 'e', 'E');
  }

  lemma TokensSkip(kp: Kind)
    requires kp.Passwords? || kp.Secrets?
    ensures Dodges(Fold('t'), Fold('o'), Replacement(kp)[0..])
  {
    NoToken(kp);
    ReplacementPlain(kp);
    UnledDodges(Replacement(kp), 0, 't', 'T', 'o', 'O');
  }

  /** A later pass has nothing to match inside a masked assignment. */
  lemma MaskDodges(kp: Kind, kq: Kind)
    requires IsAssignment(kp) && Rank(kp) < Rank(kq)
    ensures Dodges(Class(kq, Word(kq)[0]), Class(kq, Word(kq)[1]), Replacement(kp))
  {
    hide Replacement, Dodges;
    assert Replacement(kp)[0..] == Replacement(kp);
    match kq {
      case Secrets => SecretsSkip();
      case Tokens => TokensSkip(kp);
      case PrivateKeys => NoDashes(kp);
    }
  }

  /** No position from i on has the letter a and then the letter b, in either case. */
  predicate Unled(t: string, from: nat, a: char, a': char, b: char, b': char) {
    forall i | from <= i < |t| :: t[i] == a || t[i] == a' ==> i + 1 < |t| && t[i + 1] != b && t[i + 1] != b'
  }

  lemma UnledDodges(t: string, from: nat, a: char, a': char, b: char, b': char)
    requires Plain(t) && from <= |t| && Unled(t, from, a, a', b, b')
    requires 'a' <= a <= 'z' && a' == a - 'a' + 'A' && 'a' <= b <= 'z' && b' == b - 'a' + 'A'
    ensures Dodges(Fold(a), Fold(b), t[from..])
  {
    forall i | 0 <= i < |t| - from && In(Fold(a), t[from..][i])
      ensures i + 1 < |t| - from && !In(Fold(b), t[from..][i + 1])
    {
      assert t[from + i] in t;
    }
  }

  lemma PasswordUnled()
    ensures Unled(Replacement(Passwords), 1, 'p', 'P', 'a', 'A')
    ensures Unled(Replacement(Secrets), 0, 'p', 'P', 'a', 'A')
  {}

  lemma PasswordUnledLater()
    ensures Unled(Replacement(Tokens), 0, 'p', 'P', 'a', 'A')
    ensures Unled(Replacement(PrivateKeys), 0, 'p', 'P', 'a', 'A')
  {}

  lemma SecretUnled()
    ensures Unled(Replacement(Secrets), 1, 's', 'S', 'e', 'E')
  {}

  lemma TokenUnledBySecret()
    ensures Unled(Replacement(Tokens), 0, 's', 'S', 'e', 'E')
  {}

  lemma KeyUnledBySecret()
    ensures Unled(Replacement(PrivateKeys), 0, 's', 'S', 'e', 'E')
  {}

  lemma TokenUnled()
    ensures Unled(Replacement(Tokens), 1, 't', 'T', 'o', 'O')
    ensures Unled(Replacement(PrivateKeys), 0, 't', 'T', 'o', 'O')
  {}

  lemma PasswordWordDodges(kq: Kind)
    requires Rank(Passwords) <= Rank(kq)
    ensures Dodges(Fold('p'), Fold('a'), Replacement(kq)[if kq.Passwords? then 1 else 0..])
  {
    PasswordUnled();
    PasswordUnledLater();
    ReplacementPlain(kq);
    UnledDodges(Replacement(kq), if kq.Passwords? then 1 else 0, 'p', 'P', 'a', 'A');
  }

  lemma SecretWordDodges(kq: Kind)
    requires Rank(Secrets) <= Rank(kq)
    ensures Dodges(Fold('s'), Fold('e'), Replacement(kq)[if kq.Secrets? then 1 else 0..])
  {
    SecretUnled();
    TokenUnledBySecret();
    KeyUnledBySecret();
    ReplacementPlain(kq);
    UnledDodges(Replacement(kq), if kq.Secrets? then 1 else 0, 's', 'S', 'e', 'E');
  }

  lemma TokenWordDodges(kq: Kind)
    requires Rank(Tokens) <= Rank(kq)
    ensures Dodges(Fold('t'), Fold('o'), Replacement(kq)[if kq.Tokens? then 1 else 0..])
  {
    TokenUnled();
    ReplacementPlain(kq);
    UnledDodges(Replacement(kq), if kq.Tokens? then 1 else 0, 't', 'T', 'o', 'O');
  }

  /** A key word does not begin inside a later replacement, nor inside its own after the start. */
  lemma WordDodges(kp: Kind, kq: Kind)
    requires IsAssignment(kp) && Rank(kp) <= Rank(kq)
    ensures var w, r := Word(kp), Replacement(kq);
      Dodges(Fold(w[0]), Fold(w[1]), r[if kp == kq then 1 else 0..])
  {
    hide Replacement, Dodges;
    match kp {
      case Passwords => PasswordWordDodges(kq);
      case Secrets => SecretWordDodges(kq);
      case Tokens => TokenWordDodges(kq);
    }
  }

  lemma OwnPattern(kp: Kind, kq: Kind)
    requires IsAssignment(kp) && Rank(kp) <= Rank(kq)
    ensures RuleFor(kq).pattern == Assignment(Word(kp)) <==> kp == kq
  {
    hide PatternFor, Replacement, Assignment;
    RulePattern(kq);
    RuleParts(kq);
    assert RuleFor(kq).pattern[0] == One(Class(kq, Word(kq)[0]));
    assert Assignment(Word(kp))[0] == One(Fold(Word(kp)[0]));
  }

  lemma OwnText(kp: Kind)
    requires IsAssignment(kp)
    ensures Replacement(kp) == MaskedText(Word(kp))
  {
    AssignmentReplacement(kp);
  }

  lemma Masking(kp: Kind, kq: Kind) returns (w: string, q: Rule)
    requires IsAssignment(kp) && Rank(kp) <= Rank(kq)
    ensures w == Word(kp) && q == RuleFor(kq) && Keeps(w, q) && (q.pattern == Assignment(w) <==> kp == kq)
  {
    hide PatternFor, Word, Replacement, Assignment;
    RuleParts(kq);
    SharpKind(kq);
    WordBars(kp, kq);
    WordDodges(kp, kq);
    OwnPattern(kp, kq);
    OwnText(kp);
    if kp != kq {
      MaskDodges(kp, kq);
      assert Replacement(kq)[0..] == Replacement(kq);
      DodgingVeils(Word(kp), Replacement(kq));
    }
    w, q := Word(kp), RuleFor(kq);
  }

  /** From its own pass on, every value of a key word stays masked. */
  lemma {:induction false} MasksKept(kp: Kind, kinds: seq<Kind>, s: string)
    requires IsAssignment(kp) && forall k <- kinds :: Rank(kp) <= Rank(k)
    requires (kinds != [] && kinds[0] == kp) || Hidden(Word(kp), s)
    ensures Hidden(Word(kp), SubAll(kinds, s))
  {
    if kinds == [] {
    } else {
      var w, q := Masking(kp, kinds[0]);
      PassHides(w, q, s);
      MasksKept(kp, kinds[1..], Pass(kinds[0], s));
    }
  }

  // ---------------------------------------------------------------- cutting a text short

  lemma {:induction false} RunPrefix(k: CharClass, u: string, x: string)
    requires u <= x
    ensures RunLen(k, u) <= RunLen(k, x) && (RunLen(k, u) < |u| ==> RunLen(k, u) == RunLen(k, x))
  {
    if u != "" && In(k, u[0]) {
      RunPrefix(k, u[1..], x[1..]);
    }
  }

  lemma SpacePrefix(u: string, x: string)
    requires u <= x
    ensures AfterSpace(u) <= AfterSpace(x)
  {
    RunPrefix(Space, u, x);
  }

  lemma {:induction false} WordPrefix(w: string, u: string, x: string)
    requires u <= x && FoldPrefix(w, u)
    ensures FoldPrefix(w, x) && |w| <= |u| && u[|w|..] <= x[|w|..]
  {
    if w == "" {
    } else {
      WordPrefix(w[1..], u[1..], x[1..]);
      assert u[1..][|w| - 1..] == u[|w|..] && x[1..][|w| - 1..] == x[|w|..];
    }
  }

  /** A value that survives a cut is a part of the value before it. */
  lemma ShownPrefix(w: string, u: string, x: string)
    requires u <= x
    ensures Shown(w, u) <= Shown(w, x)
  {
    hide FoldPrefix, PySpace, RunLen;
    if FoldPrefix(w, u) {
      WordPrefix(w, u, x);
      var t, y := u[|w|..], x[|w|..];
      SpacePrefix(t, y);
      var a, b := AfterSpace(t), AfterSpace(y);
      if a != "" && In(Assign, a[0]) {
        assert a[1..] <= b[1..];
        SpacePrefix(a[1..], b[1..]);
        RunPrefix(Ink, AfterSpace(a[1..]), AfterSpace(b[1..]));
      }
    }
  }

  lemma HeadVeiled(w: string, s: string, n: nat)
    requires n <= |s| && (Assigned(w, s) == "" || Masked(w, s)) && forall c <- w :: Folded(c) == c
    ensures Shown(w, s[..n]) <= MASK
  {
    if Masked(w, s) { MaskedShows(w, s); }
    ShownPrefix(w, s[..n], s);
  }

  lemma {:induction false} VeiledPrefix(w: string, s: string, n: nat)
    requires Hidden(w, s) && n <= |s| && forall c <- w :: Folded(c) == c
    ensures Veiled(w, s[..n])
  {
    if n == 0 {
    } else {
      HeadVeiled(w, s, n);
      VeiledPrefix(w, s[1..], n - 1);
      assert s[..n][1..] == s[1..][..n - 1];
    }
  }

  // ---------------------------------------------------------------- the whole sequence of passes

  /** The text has no AWS key, no private key block and no shown password, secret or token. */
  predicate Cleansed(s: string) {
    && Free(RuleFor(AwsKeys).pattern, s)
    && Free(RuleFor(PrivateKeys).pattern, s)
    && Veiled(Word(Passwords), s) && Veiled(Word(Secrets), s) && Veiled(Word(Tokens), s)
  }

  /** The text has no API key and no bearer token. */
  predicate TokenFree(s: string) { Free(RuleFor(ApiKeys).pattern, s) && Free(RuleFor(Bearers).pattern, s) }

  /** The kinds from the n-th on, each in its place. */
  predicate InOrder(kinds: seq<Kind>, n: nat) {
    n + |kinds| == 7 && forall i | 0 <= i < |kinds| :: Rank(kinds[i]) == n + i
  }

  lemma KindsInOrder()
    ensures InOrder(KINDS, 0)
  {}

  lemma RankUnique(a: Kind, b: Kind)
    ensures Rank(a) == Rank(b) <==> a == b
  {}

  lemma TailInOrder(kinds: seq<Kind>, n: nat)
    requires InOrder(kinds, n) && kinds != []
    ensures Rank(kinds[0]) == n && InOrder(kinds[1..], n + 1) && forall k <- kinds :: n <= Rank(k)
  {}

  lemma {:induction false} TokenGone(kinds: seq<Kind>, n: nat, kind: Kind, s: string)
    requires InOrder(kinds, n) && n <= Rank(kind) && IsToken(kind) && (kind.AwsKeys? || WellSpelled(s))
    ensures Free(RuleFor(kind).pattern, SubAll(kinds, s))
  {
    TailInOrder(kinds, n);
    if n == Rank(kind) {
      TokenKept(kind, kinds, s);
    } else {
      if !kind.AwsKeys? { KindSpelled(kinds[0], s); }
      TokenGone(kinds[1..], n + 1, kind, Pass(kinds[0], s));
    }
  }

  /** Redaction leaves no AWS key, and no API key and no bearer token unless a key word is spelled with U+017F or
      U+212A. */
  lemma RedactsToken(kind: Kind, text: string)
    requires IsToken(kind) && (kind.AwsKeys? || WellSpelled(text))
    ensures Free(RuleFor(kind).pattern, Redact(text))
  {
    KindsInOrder();
    TokenGone(KINDS, 0, kind, text);
  }

  lemma {:induction false} ValueGone(kinds: seq<Kind>, n: nat, kind: Kind, s: string)
    requires InOrder(kinds, n) && n <= Rank(kind) && IsAssignment(kind)
    ensures Hidden(Word(kind), SubAll(kinds, s))
  {
    TailInOrder(kinds, n);
    if n == Rank(kind) {
      MasksKept(kind, kinds, s);
    } else {
      ValueGone(kinds[1..], n + 1, kind, Pass(kinds[0], s));
    }
  }

  /** After redaction every assignment to a key word is a masked one. */
  lemma RedactsValue(kind: Kind, text: string)
    requires IsAssignment(kind)
    ensures Hidden(Word(kind), Redact(text))
  {
    KindsInOrder();
    ValueGone(KINDS, 0, kind, text);
  }

  lemma LastPass(kinds: seq<Kind>, s: string)
    requires |kinds| == 1
    ensures SubAll(kinds, s) == Pass(kinds[0], s)
  {
    assert kinds[1..] == [];
  }

  lemma {:induction false} PrivateKeyGone(kinds: seq<Kind>, n: nat, kind: Kind, s: string)
    requires InOrder(kinds, n) && kinds != [] && kind.PrivateKeys?
    ensures Free(RuleFor(kind).pattern, SubAll(kinds, s))
  {
    TailInOrder(kinds, n);
    RankUnique(kind, kinds[0]);
    if n == 6 {
      LastPass(kinds, s);
      PrivateKeyPass(kind, s);
    } else {
      PrivateKeyGone(kinds[1..], n + 1, kind, Pass(kinds[0], s));
    }
  }

  /** Redaction leaves no private key block. */
  lemma RedactsPrivateKey(kind: Kind, text: string)
    requires kind.PrivateKeys?
    ensures Free(RuleFor(kind).pattern, Redact(text))
  {
    KindsInOrder();
    PrivateKeyGone(KINDS, 0, kind, text);
  }

  lemma CutIsVeiled(kind: Kind, text: string, n: nat)
    requires IsAssignment(kind) && n <= |Redact(text)|
    ensures Veiled(Word(kind), Redact(text)[..n])
  {
    RedactsValue(kind, text);
    WordLower(kind);
    VeiledPrefix(Word(kind), Redact(text), n);
  }

  /** Redacted text is clean, and so is any part of it from its start; if no key word is spelled with the two letters
      that only case folding turns into ASCII, it is also free of API keys and bearer tokens. */
  lemma RedactedIsClean(text: string, n: nat)
    requires n <= |Redact(text)|
    ensures Cleansed(Redact(text)[..n])
    ensures WellSpelled(text) ==> TokenFree(Redact(text)[..n])
  {
    hide RuleFor, Redact, Word, Veiled, WellSpelled;
    var r := Redact(text);
    RedactsToken(AwsKeys, text);
    RedactsPrivateKey(PrivateKeys, text);
    FreePrefix(RuleFor(AwsKeys).pattern, r, n);
    FreePrefix(RuleFor(PrivateKeys).pattern, r, n);
    CutIsVeiled(Passwords, text, n);
    CutIsVeiled(Secrets, text, n);
    CutIsVeiled(Tokens, text, n);
    if WellSpelled(text) {
      RedactsToken(ApiKeys, text);
      RedactsToken(Bearers, text);
      FreePrefix(RuleFor(ApiKeys).pattern, r, n);
      FreePrefix(RuleFor(Bearers).pattern, r, n);
    }
  }
}
