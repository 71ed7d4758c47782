/** The part of Python's `re` that the redaction rules use: a sequence of character classes, each taken once,
    starred greedily or starred lazily, matched by backtracking; and leftmost, non-overlapping substitution. */
module Patterns {
  import opened Text

  datatype CharClass =
    | Lit(c: char)
    | Fold(lower: char)   // a lower-case ASCII letter, ignoring case
    | Space
    | Ink
    | Assign
    | KeyChar
    | TokenChar
    | AwsChar
    | Capital
    | Any

  datatype Item = One(cls: CharClass) | Star(cls: CharClass) | Lazy(cls: CharClass)

  type Pattern = seq<Item>

  /** `\s` on text: what Python's str.isspace accepts. */
  predicate PySpace(c: char) {
    || '\t' <= c <= '\r' || '\U{001C}' <= c <= ' ' || c == '\U{0085}' || c == '\U{00A0}' || c == '\U{1680}'
    || '\U{2000}' <= c <= '\U{200A}' || c == '\U{2028}' || c == '\U{2029}' || c == '\U{202F}'
    || c == '\U{205F}' || c == '\U{3000}'
  }

  /** The ASCII letter that c matches when case is ignored: the long s and the Kelvin sign match s and k. */
  function Folded(c: char): char {
    if 'A' <= c <= 'Z' then c - 'A' + 'a'
    else if c == '\U{017F}' then 's'
    else if c == '\U{212A}' then 'k'
    else c
  }

  predicate Letter(c: char) { 'a' <= c <= 'z' || 'A' <= c <= 'Z' }

  predicate Digit(c: char) { '0' <= c <= '9' }

  predicate In(k: CharClass, c: char) {
    match k
    case Lit(x) => c == x
    case Fold(x) => Folded(c) == x
    case Space => PySpace(c)
    case Ink => !PySpace(c)
    case Assign => c == '=' || c == ':'
    case KeyChar => Letter(c) || Digit(c) || c == '-' || c == '_'
    case TokenChar => Letter(c) || Digit(c) || c == '-' || c == '_' || c == '.'
    case AwsChar => 'A' <= c <= 'Z' || Digit(c)
    case Capital => 'A' <= c <= 'Z' || c == ' '
    case Any => true
  }

  function Longer(r: Option<nat>): Option<nat> {
    if r.Some? then Some(r.value + 1) else None
  }

  /** How many characters the backtracking matcher takes at the start of s, if it matches there. */
  function Match(p: Pattern, s: string): (r: Option<nat>)
    ensures r.Some? ==> r.value <= |s|
    ensures r.Some? && p != [] && p[0].One? ==> r.value > 0
    decreases |s|, |p|
  {
    if p == [] then Some(0)
    else match p[0]
      case One(k) => if s != "" && In(k, s[0]) then Longer(Match(p[1..], s[1..])) else None
      case Star(k) =>
        var more := if s != "" && In(k, s[0]) then Longer(Match(p, s[1..])) else None;
        if more.Some? then more else Match(p[1..], s)
      case Lazy(k) =>
        var less := Match(p[1..], s);
        if less.Some? then less
        else if s != "" && In(k, s[0]) then Longer(Match(p, s[1..])) else None
  }

  datatype Rule = Rule(pattern: Pattern, replacement: string)

  /** A rule that never matches the empty text. */
  predicate Solid(q: Rule) { q.pattern != [] && q.pattern[0].One? }

  function At(q: Rule, s: string): Option<nat> { Match(q.pattern, s) }

  /** Replaces the leftmost match, then the leftmost match of what follows it, and so on. */
  function Sub(q: Rule, s: string): string
    requires Solid(q)
    decreases |s|
  {
    if s == "" then ""
    else if At(q, s).Some? then q.replacement + Sub(q, s[At(q, s).value..])
    else [s[0]] + Sub(q, s[1..])
  }

  // ---------------------------------------------------------------- what a match means

  /** The language of a pattern. */
  ghost predicate Accepts(p: Pattern, u: string)
    decreases |u|, |p|
  {
    if p == [] then u == ""
    else match p[0]
      case One(k) => u != "" && In(k, u[0]) && Accepts(p[1..], u[1..])
      case _ => Accepts(p[1..], u) || (u != "" && In(p[0].cls, u[0]) && Accepts(p, u[1..]))
  }

  lemma {:induction false} MatchIsAccepted(p: Pattern, s: string)
    requires Match(p, s).Some?
    ensures Accepts(p, s[..Match(p, s).value])
    decreases |s|, |p|
  {
    if p == [] {
    } else {
      var n := Match(p, s).value;
      if s != "" && In(p[0].cls, s[0]) {
        var p' := if p[0].One? then p[1..] else p;
        if Match(p', s[1..]).Some? {
          MatchIsAccepted(p', s[1..]);
          var m := Match(p', s[1..]).value;
          assert s[..m + 1][1..] == s[1..][..m];
        }
      }
      if !p[0].One? && Match(p[1..], s).Some? {
        MatchIsAccepted(p[1..], s);
      }
    }
  }

  lemma {:induction false} AcceptedIsMatched(p: Pattern, s: string, n: nat)
    requires n <= |s| && Accepts(p, s[..n])
    ensures Match(p, s).Some?
    decreases |s|, |p|
  {
    if p == [] {
    } else {
      var u := s[..n];
      if u != "" && In(p[0].cls, u[0]) {
        assert u[1..] == s[1..][..n - 1];
        if p[0].One? {
          AcceptedIsMatched(p[1..], s[1..], n - 1);
        } else if Accepts(p, u[1..]) {
          AcceptedIsMatched(p, s[1..], n - 1);
        }
      }
      if !p[0].One? && Accepts(p[1..], u) {
        AcceptedIsMatched(p[1..], s, n);
      }
    }
  }

  /** No position of s has a match. */
  predicate Free(p: Pattern, s: string) {
    Match(p, s).None? && (s == "" || Free(p, s[1..]))
  }

  lemma {:induction false} FreeAt(p: Pattern, s: string, i: nat)
    requires Free(p, s) && i <= |s|
    ensures Match(p, s[i..]).None? && Free(p, s[i..])
  {
    if i > 0 {
      FreeAt(p, s[1..], i - 1);
      assert s[1..][i - 1..] == s[i..];
    } else {
      assert s[0..] == s;
    }
  }

  lemma {:induction false} NotFreeAt(p: Pattern, s: string) returns (i: nat)
    requires !Free(p, s)
    ensures i <= |s| && Match(p, s[i..]).Some?
  {
    if Match(p, s).Some? {
      i := 0;
      assert s[0..] == s;
    } else {
      var j := NotFreeAt(p, s[1..]);
      i := j + 1;
      assert s[1..][j..] == s[i..];
    }
  }

  /** A text is free of a pattern exactly when no substring of it is in the pattern's language. */
  lemma FreeMeans(p: Pattern, s: string)
    ensures Free(p, s) <==> forall i, j :: 0 <= i <= j <= |s| ==> !Accepts(p, s[i..j])
  {
    if Free(p, s) {
      forall i, j | 0 <= i <= j <= |s| ensures !Accepts(p, s[i..j]) {
        FreeAt(p, s, i);
        assert s[i..][..j - i] == s[i..j];
        if Accepts(p, s[i..j]) {
          AcceptedIsMatched(p, s[i..], j - i);
        }
      }
    } else {
      var i := NotFreeAt(p, s);
      MatchIsAccepted(p, s[i..]);
      var n := Match(p, s[i..]).value;
      assert s[i..][..n] == s[i..i + n];
    }
  }

  lemma {:induction false} MatchInPrefix(p: Pattern, s: string, n: nat)
    requires n <= |s| && Match(p, s[..n]).Some?
    ensures Match(p, s).Some?
  {
    MatchIsAccepted(p, s[..n]);
    var m := Match(p, s[..n]).value;
    assert s[..n][..m] == s[..m];
    AcceptedIsMatched(p, s, m);
  }

  /** Cutting a text short makes no new match. */
  lemma {:induction false} FreePrefix(p: Pattern, s: string, n: nat)
    requires n <= |s| && Free(p, s)
    ensures Free(p, s[..n])
  {
    if Match(p, s[..n]).Some? {
      MatchInPrefix(p, s, n);
    }
    if n > 0 {
      FreePrefix(p, s[1..], n - 1);
      assert s[..n][1..] == s[1..][..n - 1];
    } else {
      assert s[..0] == "";
    }
  }

  // ---------------------------------------------------------------- building patterns

  function Lits(w: string): Pattern { if w == "" then [] else [One(Lit(w[0]))] + Lits(w[1..]) }

  function Folds(w: string): Pattern { if w == "" then [] else [One(Fold(w[0]))] + Folds(w[1..]) }

  function Times(k: CharClass, n: nat): Pattern { if n == 0 then [] else [One(k)] + Times(k, n - 1) }

  function Shift(r: Option<nat>, n: nat): Option<nat> { if r.Some? then Some(r.value + n) else None }

  lemma DropDrop(s: string, n: nat)
    requires 0 < n <= |s|
    ensures s[1..][n - 1..] == s[n..]
  {}

  lemma ConsAppend(x: Item, a: Pattern, b: Pattern)
    ensures var c := ([x] + a) + b; c != [] && c[0] == x && c[1..] == a + b
  {}

  lemma FoldsTail(w: string, p: Pattern)
    requires w != ""
    ensures var c := Folds(w) + p; c != [] && c[0] == One(Fold(w[0])) && c[1..] == Folds(w[1..]) + p
  {
    ConsAppend(One(Fold(w[0])), Folds(w[1..]), p);
  }

  lemma LitsTail(w: string, p: Pattern)
    requires w != ""
    ensures var c := Lits(w) + p; c != [] && c[0] == One(Lit(w[0])) && c[1..] == Lits(w[1..]) + p
  {
    ConsAppend(One(Lit(w[0])), Lits(w[1..]), p);
  }

  lemma {:induction false} MatchLits(w: string, p: Pattern, s: string)
    ensures Match(Lits(w) + p, s) == if w <= s then Shift(Match(p, s[|w|..]), |w|) else None
  {
    if w == "" {
      assert Lits(w) + p == p && s[0..] == s;
    } else {
      LitsTail(w, p);
      if s != "" && s[0] == w[0] {
        MatchLits(w[1..], p, s[1..]);
        assert w <= s <==> w[1..] <= s[1..];
        if w <= s { DropDrop(s, |w|); }
      }
    }
  }

  predicate FoldPrefix(w: string, s: string) {
    w == "" || (s != "" && Folded(s[0]) == w[0] && FoldPrefix(w[1..], s[1..]))
  }

  lemma {:induction false} FoldPrefixLength(w: string, s: string)
    requires FoldPrefix(w, s)
    ensures |w| <= |s|
  {
    if w == "" {
    } else {
      FoldPrefixLength(w[1..], s[1..]);
    }
  }

  lemma {:induction false} MatchFolds(w: string, p: Pattern, s: string)
    ensures FoldPrefix(w, s) ==> |w| <= |s|
    ensures Match(Folds(w) + p, s) == if FoldPrefix(w, s) then Shift(Match(p, s[|w|..]), |w|) else None
  {
    if w == "" {
      assert Folds(w) + p == p && s[0..] == s;
    } else {
      FoldsTail(w, p);
      if s != "" && Folded(s[0]) == w[0] {
        MatchFolds(w[1..], p, s[1..]);
        if FoldPrefix(w, s) { DropDrop(s, |w|); }
      }
    }
  }

  /** The length of the longest run of a class at the start of s. */
  function RunLen(k: CharClass, s: string): (n: nat)
    ensures n <= |s|
  {
    if s != "" && In(k, s[0]) then 1 + RunLen(k, s[1..]) else 0
  }

  lemma {:induction false} RunLenEnds(k: CharClass, s: string)
    ensures var n := RunLen(k, s); n < |s| ==> !In(k, s[n])
  {
    if s != "" && In(k, s[0]) { RunLenEnds(k, s[1..]); }
  }

  lemma {:induction false} MatchStarEnd(k: CharClass, s: string)
    ensures Match([Star(k)], s) == Some(RunLen(k, s))
  {
    if s != "" && In(k, s[0]) { MatchStarEnd(k, s[1..]); }
    assert [Star(k)][1..] == [];
  }

  /** `k{n,}` at the end of a pattern. */
  lemma {:induction false} MatchAtLeast(k: CharClass, n: nat, s: string)
    ensures Match(Times(k, n) + [Star(k)], s) == if RunLen(k, s) >= n then Some(RunLen(k, s)) else None
  {
    if n == 0 {
      assert Times(k, n) + [Star(k)] == [Star(k)];
      MatchStarEnd(k, s);
    } else {
      assert (Times(k, n) + [Star(k)])[1..] == Times(k, n - 1) + [Star(k)];
      if s != "" && In(k, s[0]) { MatchAtLeast(k, n - 1, s[1..]); }
    }
  }

  /** A greedy star before a disjoint class takes the whole run. */
  lemma {:induction false} MatchStarDisjoint(k: CharClass, p: Pattern, s: string)
    requires p != [] && p[0].One?
    requires forall c :: In(k, c) ==> !In(p[0].cls, c)
    ensures Match([Star(k)] + p, s) == Shift(Match(p, s[RunLen(k, s)..]), RunLen(k, s))
  {
    assert ([Star(k)] + p)[1..] == p;
    if s != "" && In(k, s[0]) {
      MatchStarDisjoint(k, p, s[1..]);
      assert s[1..][RunLen(k, s[1..])..] == s[RunLen(k, s)..];
    } else {
      assert s[0..] == s;
    }
  }

  /** Where a run of at least n, after any space, ends. */
  function GapEnd(k: CharClass, n: nat, s: string): Option<nat> {
    var g := RunLen(Space, s);
    if RunLen(k, s[g..]) >= n then Some(g + RunLen(k, s[g..])) else None
  }

  lemma MatchGapRun(k: CharClass, n: nat, s: string)
    requires n > 0 && forall c :: PySpace(c) ==> !In(k, c)
    ensures Match([Star(Space)] + (Times(k, n) + [Star(k)]), s) == GapEnd(k, n, s)
  {
    MatchStarDisjoint(Space, Times(k, n) + [Star(k)], s);
    MatchAtLeast(k, n, s[RunLen(Space, s)..]);
  }

  lemma GapStep(k: CharClass, n: nat, s: string)
    requires s != "" && PySpace(s[0])
    ensures Longer(GapEnd(k, n, s[1..])) == GapEnd(k, n, s)
  {
    var g := RunLen(Space, s);
    assert s[1..][g - 1..] == s[g..];
  }

  /** `\s+k{n,}` at the end of a pattern, for a class k of visible characters. */
  lemma MatchSpacedRun(k: CharClass, n: nat, s: string)
    requires n > 0 && forall c :: PySpace(c) ==> !In(k, c)
    ensures Match([One(Space), Star(Space)] + (Times(k, n) + [Star(k)]), s)
         == if RunLen(Space, s) > 0 then GapEnd(k, n, s) else None
  {
    MatchGap(Times(k, n) + [Star(k)], s);
    if s != "" && PySpace(s[0]) {
      MatchGapRun(k, n, s[1..]);
      GapStep(k, n, s);
    }
  }

  lemma MatchGap(p: Pattern, s: string)
    ensures Match([One(Space), Star(Space)] + p, s)
         == if s != "" && PySpace(s[0]) then Longer(Match([Star(Space)] + p, s[1..])) else None
  {
    assert ([One(Space), Star(Space)] + p)[1..] == [Star(Space)] + p;
  }
}
