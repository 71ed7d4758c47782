/** What the redaction rules match and write, in plain characters: the regular expressions of
    services/reasoner/src/reasoner/redaction.py, read position by position. */
module RedactionPlain {
  import opened Text
  import opened Patterns
  import opened Redaction
  import opened RedactionMasks
  import opened RedactionTwice

  /** What `\s` takes, character by character. */
  lemma SpaceTable(c: char)
    ensures PySpace(c) <==> c in {
      '\t', '\n', '\U{000B}', '\U{000C}', '\r', '\U{001C}', '\U{001D}', '\U{001E}', '\U{001F}', ' ', '\U{0085}',
      '\U{00A0}', '\U{1680}', '\U{2000}', '\U{2001}', '\U{2002}', '\U{2003}', '\U{2004}', '\U{2005}', '\U{2006}',
      '\U{2007}', '\U{2008}', '\U{2009}', '\U{200A}', '\U{2028}', '\U{2029}', '\U{202F}', '\U{205F}', '\U{3000}'}
  {}

  // ---------------------------------------------------------------- runs

  lemma {:induction false} RunTakes(k: CharClass, s: string)
    ensures forall i | 0 <= i < RunLen(k, s) :: In(k, s[i])
  {
    if s != "" && In(k, s[0]) { RunTakes(k, s[1..]); }
  }

  /** A run from a position on, by where it ends. */
  lemma RunAt(k: CharClass, s: string, from: nat, n: nat)
    requires from <= |s|
    ensures from + RunLen(k, s[from..]) == n
            <==> from <= n <= |s| && (forall i | from <= i < n :: In(k, s[i])) && (n == |s| || !In(k, s[n]))
  {
    hide In;
    var m := from + RunLen(k, s[from..]);
    RunTakes(k, s[from..]);
    RunLenEnds(k, s[from..]);
    forall i | from <= i < m ensures In(k, s[i]) { assert s[from..][i - from] == s[i]; }
    assert m < |s| ==> s[from..][m - from] == s[m];
  }

  lemma SpaceRun(s: string, from: nat, n: nat)
    requires from <= |s|
    ensures from + RunLen(Space, s[from..]) == n
            <==> from <= n <= |s| && (forall i | from <= i < n :: PySpace(s[i])) && (n < |s| ==> !PySpace(s[n]))
  {
    hide RunLen, PySpace;
    RunAt(Space, s, from, n);
  }

  lemma InkRun(s: string, from: nat, n: nat)
    requires from <= |s|
    ensures from + RunLen(Ink, s[from..]) == n
            <==> from <= n <= |s| && (forall i | from <= i < n :: !PySpace(s[i])) && (n < |s| ==> PySpace(s[n]))
  {
    hide RunLen, PySpace;
    RunAt(Ink, s, from, n);
  }

  // ---------------------------------------------------------------- tokens

  /** The first n characters are an API key to its end: `sk-ant-[a-zA-Z0-9\-_]{10,}`. */
  predicate ApiKeyText(s: string, n: nat) {
    && "sk-ant-" <= s && 17 <= n <= |s|
    && (forall i | 7 <= i < n ::
          'a' <= s[i] <= 'z' || 'A' <= s[i] <= 'Z' || '0' <= s[i] <= '9' || s[i] == '-' || s[i] == '_')
    && (n < |s| ==>
          !('a' <= s[n] <= 'z' || 'A' <= s[n] <= 'Z' || '0' <= s[n] <= '9' || s[n] == '-' || s[n] == '_'))
  }

  lemma KeyRun(s: string, n: nat)
    requires "sk-ant-" <= s
    ensures ApiKeyText(s, n) <==> 10 <= RunLen(KeyChar, s[7..]) == n - 7
  {
    hide RunLen;
    RunAt(KeyChar, s, 7, n);
  }

  lemma ApiKeyAt(s: string, n: nat)
    ensures At(RuleFor(ApiKeys), s) == Some(n) <==> ApiKeyText(s, n)
  {
    hide In, Match, RuleFor, RunLen, Times;
    RulePattern(ApiKeys);
    MatchLits("sk-ant-", ApiBody(), s);
    if "sk-ant-" <= s {
      MatchAtLeast(KeyChar, 10, s[7..]);
      KeyRun(s, n);
    }
  }

  /** The first n characters are an AWS key: `AKIA[0-9A-Z]{16}`. */
  predicate AwsKeyText(s: string, n: nat) {
    "AKIA" <= s && n == 20 <= |s| && forall i | 4 <= i < 20 :: 'A' <= s[i] <= 'Z' || '0' <= s[i] <= '9'
  }

  lemma SixteenTaken(s: string)
    requires "AKIA" <= s
    ensures AwsKeyText(s, 20) <==> 16 <= |s[4..]| && forall i | 0 <= i < 16 :: In(AwsChar, s[4..][i])
  {
    assert forall i | 0 <= i < |s| - 4 :: s[4..][i] == s[i + 4];
    if |s| >= 20 && forall i | 0 <= i < 16 :: In(AwsChar, s[4..][i]) {
      forall i | 4 <= i < 20 ensures 'A' <= s[i] <= 'Z' || '0' <= s[i] <= '9' { assert In(AwsChar, s[4..][i - 4]); }
    }
  }

  lemma AwsKeyAt(s: string, n: nat)
    ensures At(RuleFor(AwsKeys), s) == Some(n) <==> AwsKeyText(s, n)
  {
    hide In, Match, RuleFor, Times;
    RulePattern(AwsKeys);
    MatchLits("AKIA", AwsBody(), s);
    if "AKIA" <= s {
      MatchTimes(AwsChar, 16, s[4..]);
      SixteenTaken(s);
    }
  }

  lemma {:induction false} MatchTimes(k: CharClass, n: nat, s: string)
    ensures Match(Times(k, n), s) == if n <= |s| && (forall i | 0 <= i < n :: In(k, s[i])) then Some(n) else None
  {
    if n == 0 {
    } else {
      assert Times(k, n)[1..] == Times(k, n - 1);
      if s != "" {
        MatchTimes(k, n - 1, s[1..]);
        if In(k, s[0]) && (forall i | 0 <= i < n - 1 && i < |s| - 1 :: In(k, s[1..][i])) {
          forall i | 0 <= i < n && i < |s| ensures In(k, s[i]) { if i > 0 { assert s[1..][i - 1] == s[i]; } }
        }
      }
    }
  }

  /** The first n characters are a bearer token to its end, with the space up to g: `Bearer\s+[a-zA-Z0-9\-_.]{20,}`. */
  predicate BearerText(s: string, g: nat, n: nat) { "Bearer" <= s && SpacedToken(s, g, n) }

  predicate SpacedToken(s: string, g: nat, n: nat) {
    7 <= g && g + 20 <= n <= |s| && SpacesBetween(s, 6, g) && TokenTo(s, g, n)
  }

  predicate SpacesBetween(s: string, from: nat, to: nat)
    requires to <= |s|
  {
    forall i | from <= i < to :: PySpace(s[i])
  }

  /** Letters, digits, dashes, underscores and dots up to n, and no more of them. */
  predicate TokenTo(s: string, from: nat, n: nat) {
    && from <= n <= |s|
    && (forall i | from <= i < n ::
          'a' <= s[i] <= 'z' || 'A' <= s[i] <= 'Z' || '0' <= s[i] <= '9' || s[i] == '-' || s[i] == '_' || s[i] == '.')
    && (n < |s| ==>
          !('a' <= s[n] <= 'z' || 'A' <= s[n] <= 'Z' || '0' <= s[n] <= '9'
            || s[n] == '-' || s[n] == '_' || s[n] == '.'))
  }

  lemma BearerAt(s: string, n: nat)
    ensures At(RuleFor(Bearers), s) == Some(n) <==> exists g: nat :: BearerText(s, g, n)
  {
    hide In, Match, RuleFor, RunLen, Times, GapEnd, SpacedToken;
    RulePattern(Bearers);
    MatchLits("Bearer", BearerBody(), s);
    if "Bearer" <= s {
      SpaceIsNoToken();
      MatchSpacedRun(TokenChar, 20, s[6..]);
      var g := 6 + RunLen(Space, s[6..]);
      GapIsRun(s, n);
      forall h: nat | BearerText(s, h, n) ensures h == g { OneGap(s, h, n); }
      assert BearerText(s, g, n) <==> SpacedToken(s, g, n);
    }
  }

  lemma SpaceIsNoToken()
    ensures forall c :: PySpace(c) ==> !In(TokenChar, c)
  {}

  lemma OneGap(s: string, g: nat, n: nat)
    requires BearerText(s, g, n)
    ensures g == 6 + RunLen(Space, s[6..])
  {
    hide RunLen, PySpace;
    SpaceIsNoToken();
    SpaceRun(s, 6, g);
  }

  lemma TokenRun(s: string, from: nat, n: nat)
    requires from <= |s|
    ensures from + RunLen(TokenChar, s[from..]) == n <==> TokenTo(s, from, n)
  {
    hide RunLen;
    RunAt(TokenChar, s, from, n);
  }

  lemma GapIsRun(s: string, n: nat)
    requires |s| >= 6
    ensures SpacedToken(s, 6 + RunLen(Space, s[6..]), n)
            <==> RunLen(Space, s[6..]) > 0 && n >= 6 && GapEnd(TokenChar, 20, s[6..]) == Some(n - 6)
  {
    hide RunLen, TokenTo, SpacesBetween;
    var m := RunLen(Space, s[6..]);
    DropTwice(s, 6, m);
    TokenRun(s, 6 + m, n);
    GapSpaces(s);
  }

  lemma DropTwice(s: string, i: nat, j: nat)
    requires i + j <= |s|
    ensures s[i..][j..] == s[i + j..]
  {}

  lemma GapSpaces(s: string)
    requires |s| >= 6
    ensures SpacesBetween(s, 6, 6 + RunLen(Space, s[6..]))
  {
    hide RunLen, PySpace;
    SpaceRun(s, 6, 6 + RunLen(Space, s[6..]));
  }

  // ---------------------------------------------------------------- assignments

  /** c is the lower-case letter x in any case; Python takes U+017F for s and U+212A for k. */
  predicate SameLetter(x: char, c: char) {
    c == x || c as int == x as int - 32 || (x == 's' && c == '\U{017F}') || (x == 'k' && c == '\U{212A}')
  }

  /** s starts with the lower-case word w in any case. */
  predicate AnyCase(w: string, s: string) { |w| <= |s| && forall i | 0 <= i < |w| :: SameLetter(w[i], s[i]) }

  /** The first n characters assign a value to w, with the sign at a and the value from b to its end:
      `(?i)w\s*[=:]\s*\S+`. */
  predicate AssignmentText(w: string, s: string, a: nat, b: nat, n: nat) {
    && AnyCase(w, s) && |w| <= a < b < n <= |s|
    && (forall i | |w| <= i < a :: PySpace(s[i]))
    && (s[a] == '=' || s[a] == ':')
    && (forall i | a < i < b :: PySpace(s[i]))
    && (forall i | b <= i < n :: !PySpace(s[i]))
    && (n < |s| ==> PySpace(s[n]))
  }

  /** The word of each assignment rule. */
  predicate Assigns(kind: Kind, w: string) {
    || (kind.Passwords? && w == "password") || (kind.Secrets? && w == "secret") || (kind.Tokens? && w == "token")
  }

  predicate LowerCase(w: string) { forall i | 0 <= i < |w| :: 'a' <= w[i] <= 'z' }

  lemma FoldedIsSameLetter(x: char, c: char)
    requires 'a' <= x <= 'z'
    ensures SameLetter(x, c) <==> Folded(c) == x
  {}

  lemma {:induction false} AnyCaseIsFold(w: string, s: string)
    requires LowerCase(w)
    ensures AnyCase(w, s) <==> FoldPrefix(w, s)
  {
    hide SameLetter, Folded;
    if w == "" {
    } else if s != "" {
      FoldedIsSameLetter(w[0], s[0]);
      AnyCaseIsFold(w[1..], s[1..]);
      AnyCaseTail(w, s);
    }
  }

  lemma AnyCaseTail(w: string, s: string)
    requires w != "" && s != ""
    ensures AnyCase(w, s) <==> SameLetter(w[0], s[0]) && AnyCase(w[1..], s[1..])
  {
    hide SameLetter;
    if SameLetter(w[0], s[0]) && AnyCase(w[1..], s[1..]) {
      forall i | 0 <= i < |w| ensures SameLetter(w[i], s[i]) {
        if i > 0 { assert w[1..][i - 1] == w[i] && s[1..][i - 1] == s[i]; }
      }
    }
  }

  lemma AssignsWord(kind: Kind, w: string)
    requires Assigns(kind, w)
    ensures IsAssignment(kind) && Word(kind) == w && |w| >= 2 && LowerCase(w)
  {}

  predicate Sign(c: char) { c == '=' || c == ':' }

  function SignAt(w: string, s: string): (a: nat)
    requires |w| <= |s|
    ensures |w| <= a <= |s|
  {
    |w| + RunLen(Space, s[|w|..])
  }

  function ValueAt(s: string, a: nat): (b: nat)
    requires a < |s|
    ensures a < b <= |s|
  {
    a + 1 + RunLen(Space, s[a + 1..])
  }

  function ValueEndAt(s: string, b: nat): nat
    requires b <= |s|
  {
    b + RunLen(Ink, s[b..])
  }

  lemma SignIsInk()
    ensures !PySpace('=') && !PySpace(':')
  {}

  /** Where an assignment's parts can only be. */
  lemma PartsOnly(w: string, s: string, a: nat, b: nat, n: nat)
    requires AssignmentText(w, s, a, b, n)
    ensures AnyCase(w, s) && a < b < |s| && Sign(s[a])
    ensures a == SignAt(w, s) && b == ValueAt(s, a) && n == ValueEndAt(s, b)
  {
    hide RunLen, AnyCase, PySpace;
    assert |w| <= |s|;
    SignIsInk();
    SpaceRun(s, |w|, a);
    SpaceRun(s, a + 1, b);
    InkRun(s, b, n);
  }

  lemma PartsFit(w: string, s: string)
    requires AnyCase(w, s)
    ensures var a := SignAt(w, s);
      a < |s| && Sign(s[a]) && ValueAt(s, a) < |s| ==>
        AssignmentText(w, s, a, ValueAt(s, a), ValueEndAt(s, ValueAt(s, a)))
  {
    hide RunLen, AnyCase, PySpace;
    AnyCaseFits(w, s);
    var a := SignAt(w, s);
    SpaceRun(s, |w|, a);
    if a < |s| && Sign(s[a]) {
      var b := ValueAt(s, a);
      SpaceRun(s, a + 1, b);
      InkRun(s, b, ValueEndAt(s, b));
    }
  }

  lemma AssignedAfter(w: string, s: string)
    requires LowerCase(w) && AnyCase(w, s)
    ensures |w| <= |s| && Assigned(w, s) == AfterSign(s[SignAt(w, s)..])
  {
    hide RunLen, AnyCase, AfterSign, FoldPrefix;
    AnyCaseFits(w, s);
    AnyCaseIsFold(w, s);
    DropTwice(s, |w|, SignAt(w, s) - |w|);
  }

  lemma AfterSignAt(s: string, a: nat)
    requires a <= |s|
    ensures AfterSign(s[a..]) == if a < |s| && Sign(s[a]) then s[ValueAt(s, a)..] else ""
  {
    hide RunLen;
    if a < |s| && Sign(s[a]) {
      DropTwice(s, a, 1);
      DropTwice(s, a + 1, ValueAt(s, a) - a - 1);
    }
  }

  lemma AssignedFrom(w: string, s: string)
    requires LowerCase(w) && AnyCase(w, s)
    ensures var a := SignAt(w, s);
      Assigned(w, s) == if a < |s| && Sign(s[a]) then s[ValueAt(s, a)..] else ""
  {
    hide AnyCase, Assigned, AfterSign, ValueAt, SignAt, LowerCase;
    AssignedAfter(w, s);
    AfterSignAt(s, SignAt(w, s));
  }

  lemma AssignmentAt(kind: Kind, w: string, s: string, n: nat)
    requires Assigns(kind, w)
    ensures At(RuleFor(kind), s) == Some(n) <==> exists a: nat, b: nat :: AssignmentText(w, s, a, b, n)
  {
    hide In, Match, RuleFor, Word, AssignmentText, Assigned, Assigns, SignAt, ValueAt, AnyCase;
    AssignsWord(kind, w);
    RulePattern(kind);
    AssignmentExact(w, s);
    AnyCaseIsFold(w, s);
    forall a: nat, b: nat | AssignmentText(w, s, a, b, n)
      ensures AnyCase(w, s) && a < b < |s| && Sign(s[a])
      ensures |w| <= |s| && a == SignAt(w, s) && b == ValueAt(s, a) && n == ValueEndAt(s, b)
    {
      PartsOnly(w, s, a, b, n);
      AnyCaseFits(w, s);
    }
    if AnyCase(w, s) {
      AnyCaseFits(w, s);
      AssignedFrom(w, s);
      PartsFit(w, s);
    } else {
      NotAssigned(w, s);
    }
  }

  lemma AnyCaseFits(w: string, s: string)
    requires AnyCase(w, s)
    ensures |w| <= |s|
  {}

  lemma NotAssigned(w: string, s: string)
    requires !FoldPrefix(w, s)
    ensures Assigned(w, s) == ""
  {}

  // ---------------------------------------------------------------- private keys

  predicate CapitalsBetween(s: string, from: nat, to: nat)
    requires to <= |s|
  {
    forall i | from <= i < to :: 'A' <= s[i] <= 'Z' || s[i] == ' '
  }

  /** From a position to n stands `[A-Z ]*PRIVATE KEY-----`. */
  predicate TitleText(s: string, from: nat, n: nat) {
    from + 16 <= n <= |s| && CapitalsBetween(s, from, n - 16) && s[n - 16..n] == "PRIVATE KEY-----"
  }

  /** The first h characters are `-----BEGIN[A-Z ]*PRIVATE KEY-----`. */
  predicate HeaderText(s: string, h: nat) { "-----BEGIN" <= s && TitleText(s, 10, h) }

  /** From f to n stands `-----END[A-Z ]*PRIVATE KEY-----`. */
  predicate FooterText(s: string, f: nat, n: nat) {
    f + 8 <= |s| && s[f..f + 8] == "-----END" && TitleText(s, f + 8, n)
  }

  /** The first n characters are a private key block: a header, and from f the first footer after it. */
  ghost predicate PrivateKeyText(s: string, h: nat, f: nat, n: nat) {
    HeaderText(s, h) && h <= f && FooterText(s, f, n) && forall g: nat, m: nat | h <= g < f :: !FooterText(s, g, m)
  }

  /** Every text that starts with the title has a run of k capitals and spaces. */
  ghost predicate EndsRunAt(title: string, k: nat) {
    0 < k <= |title| && forall s: string | title <= s :: RunLen(Capital, s) == k
  }

  lemma TitleRun()
    ensures EndsRunAt("PRIVATE KEY-----", 11)
  {
    forall s: string | "PRIVATE KEY-----" <= s ensures RunLen(Capital, s) == 11 {
      assert s[0..] == s;
      RunAt(Capital, s, 0, 11);
    }
  }

  /** What follows a title that ends a run at k. */
  function AfterTitle(title: string, k: nat, p: Pattern, s: string): Option<nat>
    requires k <= |title|
  {
    var r := RunLen(Capital, s);
    if r >= k && title <= s[r - k..] then Shift(Match(p, s[r - k + |title|..]), r - k + |title|) else None
  }

  lemma RunStep(k: CharClass, s: string)
    requires s != "" && In(k, s[0])
    ensures RunLen(k, s) == 1 + RunLen(k, s[1..])
  {}

  lemma AfterTitleTail(title: string, k: nat, p: Pattern, s: string)
    requires 0 < k <= |title| && s != "" && In(Capital, s[0]) && RunLen(Capital, s) > k
    ensures AfterTitle(title, k, p, s) == Longer(AfterTitle(title, k, p, s[1..]))
  {
    hide Match, In, RunLen;
    RunStep(Capital, s);
    var i := RunLen(Capital, s) - k;
    DropDrop(s, i);
    if title <= s[i..] { DropDrop(s, i + |title|); }
  }

  lemma TitleHere(title: string, k: nat, p: Pattern, s: string)
    requires EndsRunAt(title, k)
    ensures title <= s ==> RunLen(Capital, s) == k
                           && AfterTitle(title, k, p, s) == Shift(Match(p, s[|title|..]), |title|)
    ensures !(title <= s) && RunLen(Capital, s) <= k ==> AfterTitle(title, k, p, s).None?
    ensures RunLen(Capital, s) < k ==> AfterTitle(title, k, p, s).None?
  {
    hide In, Match, RunLen;
    assert s[0..] == s;
  }

  /** Capitals and such a title can only be matched in one way. */
  lemma {:induction false} MatchTitle(title: string, k: nat, p: Pattern, s: string)
    requires EndsRunAt(title, k)
    ensures Match([Star(Capital)] + (Lits(title) + p), s) == AfterTitle(title, k, p, s)
  {
    hide In, Lits, AfterTitle;
    var q := Lits(title) + p;
    assert ([Star(Capital)] + q)[1..] == q;
    MatchLits(title, p, s);
    TitleHere(title, k, p, s);
    if s != "" && In(Capital, s[0]) {
      MatchTitle(title, k, p, s[1..]);
      if RunLen(Capital, s) > k {
        AfterTitleTail(title, k, p, s);
      } else {
        TitleHere(title, k, p, s[1..]);
      }
    }
  }

  /** The first place in s from which p matches. */
  predicate FirstAt(p: Pattern, s: string, j: nat) {
    j <= |s| && Match(p, s[j..]).Some? && forall i | 0 <= i < j :: Match(p, s[i..]).None?
  }

  lemma FirstTail(p: Pattern, s: string, j: nat)
    requires FirstAt(p, s, j) && j > 0
    ensures s != "" && Match(p, s).None? && FirstAt(p, s[1..], j - 1) && s[1..][j - 1..] == s[j..]
  {
    hide Match;
    assert s[0..] == s && Match(p, s[0..]).None?;
    assert s[1..][j - 1..] == s[j..];
    forall i | 0 <= i < j - 1 ensures Match(p, s[1..][i..]).None? { assert s[1..][i..] == s[i + 1..]; }
  }

  /** A lazy gap takes the first place from which the rest matches. */
  lemma {:induction false} MatchLazy(p: Pattern, s: string, j: nat)
    requires FirstAt(p, s, j)
    ensures Match([Lazy(Any)] + p, s) == Shift(Match(p, s[j..]), j)
  {
    assert ([Lazy(Any)] + p)[1..] == p && s[0..] == s;
    if j == 0 {
    } else {
      FirstTail(p, s, j);
      MatchLazy(p, s[1..], j - 1);
    }
  }

  lemma {:induction false} LazyTakes(p: Pattern, s: string) returns (j: nat)
    requires Match([Lazy(Any)] + p, s).Some?
    ensures FirstAt(p, s, j)
  {
    assert ([Lazy(Any)] + p)[1..] == p && s[0..] == s;
    if Match(p, s).Some? {
      j := 0;
    } else {
      var k := LazyTakes(p, s[1..]);
      j := k + 1;
      FirstLater(p, s, k);
    }
  }

  lemma FirstLater(p: Pattern, s: string, k: nat)
    requires s != "" && Match(p, s).None? && FirstAt(p, s[1..], k)
    ensures FirstAt(p, s, k + 1)
  {
    hide Match;
    assert s[1..][k..] == s[k + 1..] && s[0..] == s;
    forall i | 0 <= i < k + 1 ensures Match(p, s[i..]).None? {
      if i > 0 { assert s[1..][i - 1..] == s[i..]; }
    }
  }

  predicate RunTitle(s: string, n: nat) {
    var r := RunLen(Capital, s);
    r >= 11 && "PRIVATE KEY-----" <= s[r - 11..] && n == r + 5
  }

  lemma CapitalRun(s: string, from: nat, n: nat)
    requires from <= n < |s|
    ensures from + RunLen(Capital, s[from..]) == n
            <==> CapitalsBetween(s, from, n) && !('A' <= s[n] <= 'Z' || s[n] == ' ')
  {
    hide RunLen;
    RunAt(Capital, s, from, n);
  }

  lemma TitleCapitals(s: string, n: nat)
    requires 16 <= n <= |s| && s[n - 16..n] == "PRIVATE KEY-----"
    ensures CapitalsBetween(s, n - 16, n - 5) && !('A' <= s[n - 5] <= 'Z' || s[n - 5] == ' ')
  {
    forall i | n - 16 <= i < n - 4 ensures s[i] == "PRIVATE KEY-----"[i - n + 16] {
      assert s[n - 16..n][i - n + 16] == s[i];
    }
  }

  lemma TitleEnds(s: string, from: nat, n: nat)
    requires from <= n <= |s|
    ensures TitleText(s, from, n) <==> RunTitle(s[from..], n - from)
  {
    hide RunLen;
    var title, r := "PRIVATE KEY-----", RunLen(Capital, s[from..]);
    if TitleText(s, from, n) {
      TitleCapitals(s, n);
      CapitalRun(s, from, n - 5);
      assert s[from..][r - 11..][..16] == s[n - 16..n];
    } else if RunTitle(s[from..], n - from) {
      assert s[from..][r - 11..] == s[n - 16..];
      assert s[n - 16..][..16] == s[n - 16..n];
      TitleCapitals(s, n);
      CapitalRun(s, from, n - 5);
    }
  }

  /** The pattern of a footer, and of what follows a header. */
  function Footer(): Pattern { Lits("-----END") + ([Star(Capital)] + Lits("PRIVATE KEY-----")) }

  lemma TitleAlone(t: string, n: nat)
    ensures Match([Star(Capital)] + Lits("PRIVATE KEY-----"), t) == Some(n) <==> RunTitle(t, n)
  {
    hide RunLen, In, Lits;
    assert Lits("PRIVATE KEY-----") + [] == Lits("PRIVATE KEY-----");
    TitleRun();
    MatchTitle("PRIVATE KEY-----", 11, [], t);
  }

  lemma FooterAt(s: string, f: nat, n: nat)
    requires f <= n <= |s|
    ensures Match(Footer(), s[f..]) == Some(n - f) <==> FooterText(s, f, n)
  {
    hide RunLen, In, Match, TitleText, RunTitle, Lits;
    var rest := [Star(Capital)] + Lits("PRIVATE KEY-----");
    MatchLits("-----END", rest, s[f..]);
    if "-----END" <= s[f..] {
      assert s[f..][8..] == s[f + 8..] && s[f..][..8] == s[f..f + 8];
      if n >= f + 8 {
        TitleAlone(s[f + 8..], n - f - 8);
        TitleEnds(s, f + 8, n);
      } else {
        ShortTitle(s, f + 8, n);
      }
    } else {
      FooterStarts(s, f, n);
    }
  }

  lemma FooterStarts(s: string, f: nat, n: nat)
    ensures FooterText(s, f, n) ==> f <= |s| && "-----END" <= s[f..]
  {
    if FooterText(s, f, n) { assert s[f..][..8] == s[f..f + 8]; }
  }

  lemma ShortTitle(s: string, from: nat, n: nat)
    requires n < from + 16
    ensures !TitleText(s, from, n)
  {}

  lemma FooterWithin(s: string, f: nat, n: nat)
    requires FooterText(s, f, n)
    ensures f + 24 <= n <= |s|
  {}

  function Tail(): Pattern { [Lazy(Any)] + Footer() }

  lemma NoFooterHere(s: string, g: nat)
    requires g <= |s| && forall m: nat :: !FooterText(s, g, m)
    ensures Match(Footer(), s[g..]).None?
  {
    hide FooterText, Footer, Match;
    if Match(Footer(), s[g..]).Some? {
      FooterAt(s, g, g + Match(Footer(), s[g..]).value);
    }
  }

  lemma TailThen(s: string, h: nat, f: nat, n: nat)
    requires h <= f && FooterText(s, f, n) && forall g: nat, m: nat | h <= g < f :: !FooterText(s, g, m)
    ensures n <= |s| && f <= n && Match(Tail(), s[h..]) == Some(n - h)
  {
    hide FooterText, Footer, Match;
    FooterWithin(s, f, n);
    forall i | 0 <= i < f - h ensures Match(Footer(), s[h..][i..]).None? {
      assert s[h..][i..] == s[h + i..];
      NoFooterHere(s, h + i);
    }
    assert s[h..][f - h..] == s[f..];
    FooterAt(s, f, n);
    MatchLazy(Footer(), s[h..], f - h);
  }

  lemma TailFinds(s: string, h: nat) returns (f: nat, n: nat)
    requires h <= |s| && Match(Tail(), s[h..]).Some?
    ensures h <= f && FooterText(s, f, n) && forall g: nat, m: nat | h <= g < f :: !FooterText(s, g, m)
  {
    hide FooterText, Footer, Match;
    var j := LazyTakes(Footer(), s[h..]);
    f := h + j;
    assert s[h..][j..] == s[f..];
    n := f + Match(Footer(), s[f..]).value;
    FooterAt(s, f, n);
    forall g: nat, m: nat | h <= g < f ensures !FooterText(s, g, m) {
      assert s[h..][g - h..] == s[g..];
      if FooterText(s, g, m) {
        FooterWithin(s, g, m);
        FooterAt(s, g, m);
      }
    }
  }

  lemma KeyPattern(s: string)
    ensures At(RuleFor(PrivateKeys), s)
         == if "-----BEGIN" <= s then Shift(AfterTitle("PRIVATE KEY-----", 11, Tail(), s[10..]), 10) else None
  {
    hide RuleFor, Match, AfterTitle, Lits;
    var title := "PRIVATE KEY-----";
    TitleRun();
    RulePattern(PrivateKeys);
    MatchLits("-----BEGIN", Body(PrivateKeys), s);
    assert Lits("-----END") + ([Star(Capital)] + Lits(title)) == Footer();
    assert Body(PrivateKeys) == [Star(Capital)] + (Lits(title) + Tail());
    if "-----BEGIN" <= s { MatchTitle(title, 11, Tail(), s[10..]); }
  }

  lemma HeaderThen(s: string, h: nat)
    requires HeaderText(s, h)
    ensures h <= |s| && At(RuleFor(PrivateKeys), s) == Shift(Match(Tail(), s[h..]), h)
  {
    hide RuleFor, Match, Tail, RunLen;
    KeyPattern(s);
    TitleEnds(s, 10, h);
    assert s[10..][h - 10..] == s[h..];
  }

  lemma HeaderFound(s: string) returns (h: nat)
    requires At(RuleFor(PrivateKeys), s).Some?
    ensures HeaderText(s, h)
  {
    hide RuleFor, Match, Tail, RunLen;
    KeyPattern(s);
    h := 15 + RunLen(Capital, s[10..]);
    TitleEnds(s, 10, h);
  }

  /** `-----BEGIN[A-Z ]*PRIVATE KEY-----[\s\S]*?-----END[A-Z ]*PRIVATE KEY-----`. */
  lemma PrivateKeyAt(s: string, n: nat)
    ensures At(RuleFor(PrivateKeys), s) == Some(n) <==> exists h: nat, f: nat :: PrivateKeyText(s, h, f, n)
  {
    hide RuleFor, Match, Tail, HeaderText, FooterText;
    forall h: nat, f: nat | PrivateKeyText(s, h, f, n) ensures At(RuleFor(PrivateKeys), s) == Some(n) {
      HeaderThen(s, h);
      TailThen(s, h, f, n);
    }
    if At(RuleFor(PrivateKeys), s) == Some(n) {
      var h := HeaderFound(s);
      HeaderThen(s, h);
      var f, m := TailFinds(s, h);
      TailThen(s, h, f, m);
      assert PrivateKeyText(s, h, f, n);
    }
  }

  // ---------------------------------------------------------------- passes

  /** What each rule writes. */
  lemma Replaces(kind: Kind)
    ensures RuleFor(kind).replacement == Replacement(kind)
  {
    hide PatternFor, Replacement;
  }

  lemma Written()
    ensures RuleFor(ApiKeys).replacement == "[REDACTED_API_KEY]"
    ensures RuleFor(Bearers).replacement == "Bearer [REDACTED_TOKEN]"
    ensures RuleFor(AwsKeys).replacement == "[REDACTED_AWS_KEY]"
    ensures RuleFor(Passwords).replacement == "password=[REDACTED]"
    ensures RuleFor(Secrets).replacement == "secret=[REDACTED]"
    ensures RuleFor(Tokens).replacement == "token=[REDACTED]"
    ensures RuleFor(PrivateKeys).replacement == "[REDACTED_PRIVATE_KEY]"
  {
    hide RuleFor;
    Replaces(ApiKeys);
    Replaces(Bearers);
    Replaces(AwsKeys);
    Replaces(Passwords);
    Replaces(Secrets);
    Replaces(Tokens);
    Replaces(PrivateKeys);
  }

  /** The seven passes in their order. */
  lemma SevenPasses(text: string)
    ensures Redact(text)
         == Pass(PrivateKeys, Pass(Tokens, Pass(Secrets, Pass(Passwords,
              Pass(AwsKeys, Pass(Bearers, Pass(ApiKeys, text)))))))
  {
    hide Pass;
    SubAllStep(KINDS, 0, text);
    var r1 := Pass(ApiKeys, text);
    SubAllStep(KINDS, 1, r1);
    var r2 := Pass(Bearers, r1);
    SubAllStep(KINDS, 2, r2);
    var r3 := Pass(AwsKeys, r2);
    SubAllStep(KINDS, 3, r3);
    var r4 := Pass(Passwords, r3);
    SubAllStep(KINDS, 4, r4);
    var r5 := Pass(Secrets, r4);
    SubAllStep(KINDS, 5, r5);
    SubAllStep(KINDS, 6, Pass(Tokens, r5));
    assert KINDS[0..] == KINDS && KINDS[7..] == [];
  }

  /** A substitution keeps the text up to the first match, writes the replacement for it, and goes on behind it. */
  lemma {:induction false} SubAtFirst(q: Rule, s: string, i: nat, n: nat)
    requires Solid(q) && i + n <= |s| && At(q, s[i..]) == Some(n) && forall j | 0 <= j < i :: At(q, s[j..]).None?
    ensures Sub(q, s) == s[..i] + q.replacement + Sub(q, s[i + n..])
  {
    hide At;
    assert s[0..] == s;
    if i == 0 {
      NoEmptyMatch(q);
    } else {
      assert At(q, s[0..]).None?;
      assert s[1..][i - 1..] == s[i..] && s[1..][i - 1 + n..] == s[i + n..];
      forall j | 0 <= j < i - 1 ensures At(q, s[1..][j..]).None? { assert s[1..][j..] == s[j + 1..]; }
      SubAtFirst(q, s[1..], i - 1, n);
      assert [s[0]] + s[1..][..i - 1] == s[..i];
    }
  }

  lemma NoEmptyMatch(q: Rule)
    requires Solid(q)
    ensures At(q, "").None?
  {}

  /** A substitution leaves a text alone in which nothing matches. */
  lemma {:induction false} SubWithoutMatch(q: Rule, s: string)
    requires Solid(q) && forall j | 0 <= j <= |s| :: At(q, s[j..]).None?
    ensures Sub(q, s) == s
  {
    hide At;
    if s == "" {
    } else {
      assert s[0..] == s;
      assert At(q, s[0..]).None?;
      forall j | 0 <= j <= |s| - 1 ensures At(q, s[1..][j..]).None? { assert s[1..][j..] == s[j + 1..]; }
      SubWithoutMatch(q, s[1..]);
    }
  }

  /** A pass is the substitution of its rule. */
  lemma PassIsSub(kind: Kind, s: string)
    ensures Solid(RuleFor(kind)) && Pass(kind, s) == Sub(RuleFor(kind), s)
  {}

  // ---------------------------------------------------------------- what is left

  lemma NowhereAt(kind: Kind, s: string, i: nat)
    requires i <= |s| && Free(RuleFor(kind).pattern, s)
    ensures At(RuleFor(kind), s[i..]).None?
  {
    hide RuleFor;
    FreeAt(RuleFor(kind).pattern, s, i);
  }

  lemma {:induction false} RunAtLeast(k: CharClass, s: string, m: nat)
    requires m <= |s| && forall i | 0 <= i < m :: In(k, s[i])
    ensures RunLen(k, s) >= m
  {
    hide In;
    if m == 0 {
    } else {
      forall i | 0 <= i < m - 1 ensures In(k, s[1..][i]) { assert s[1..][i] == s[i + 1]; }
      RunAtLeast(k, s[1..], m - 1);
    }
  }

  /** Nowhere in a redacted text do 16 capitals or digits follow "AKIA". */
  lemma NoAwsKeyLeft(text: string, i: nat)
    ensures var r := Redact(text);
      !(i + 20 <= |r| && r[i..i + 4] == "AKIA"
        && forall j | i + 4 <= j < i + 20 :: 'A' <= r[j] <= 'Z' || '0' <= r[j] <= '9')
  {
    hide Redact, RuleFor;
    var r := Redact(text);
    if i <= |r| {
      RedactsToken(AwsKeys, text);
      NowhereAt(AwsKeys, r, i);
      AwsKeyAt(r[i..], 20);
      assert i + 4 <= |r| ==> r[i..][..4] == r[i..i + 4];
      assert forall j | i <= j < |r| :: r[i..][j - i] == r[j];
    }
  }

  /** Unless the text spells a key word with one of the two letters: nowhere in the redacted text do 10 letters,
      digits, dashes or underscores follow "sk-ant-". */
  lemma NoApiKeyLeft(text: string, i: nat)
    requires WellSpelled(text)
    ensures var r := Redact(text);
      !(i + 17 <= |r| && r[i..i + 7] == "sk-ant-"
        && forall j | i + 7 <= j < i + 17 ::
             'a' <= r[j] <= 'z' || 'A' <= r[j] <= 'Z' || '0' <= r[j] <= '9' || r[j] == '-' || r[j] == '_')
  {
    hide Redact, RuleFor, RunLen, WellSpelled, ApiKeyText;
    var r := Redact(text);
    if i + 17 <= |r| && r[i..i + 7] == "sk-ant-" && forall j | i + 7 <= j < i + 17 ::
      'a' <= r[j] <= 'z' || 'A' <= r[j] <= 'Z' || '0' <= r[j] <= '9' || r[j] == '-' || r[j] == '_'
    {
      var s := r[i..];
      assert s[..7] == r[i..i + 7];
      forall j | 0 <= j < 10 ensures In(KeyChar, s[7..][j]) { assert s[7..][j] == r[i + 7 + j]; }
      RunAtLeast(KeyChar, s[7..], 10);
      var n := 7 + RunLen(KeyChar, s[7..]);
      KeyRun(s, n);
      ApiKeyAt(s, n);
      RedactsToken(ApiKeys, text);
      NowhereAt(ApiKeys, r, i);
    }
  }

  /** Likewise: nowhere do space and 20 letters, digits, dashes, underscores or dots follow "Bearer". */
  lemma NoBearerTokenLeft(text: string, i: nat, g: nat)
    requires WellSpelled(text)
    ensures var r := Redact(text);
      !(i + 7 <= g && g + 20 <= |r| && r[i..i + 6] == "Bearer"
        && (forall j | i + 6 <= j < g :: PySpace(r[j]))
        && (forall j | g <= j < g + 20 ::
              'a' <= r[j] <= 'z' || 'A' <= r[j] <= 'Z' || '0' <= r[j] <= '9'
              || r[j] == '-' || r[j] == '_' || r[j] == '.'))
  {
    hide Redact, RuleFor, RunLen, WellSpelled, BearerText, PySpace;
    var r := Redact(text);
    if i + 7 <= g && g + 20 <= |r| && r[i..i + 6] == "Bearer"
      && (forall j | i + 6 <= j < g :: PySpace(r[j]))
      && (forall j | g <= j < g + 20 ::
            'a' <= r[j] <= 'z' || 'A' <= r[j] <= 'Z' || '0' <= r[j] <= '9'
            || r[j] == '-' || r[j] == '_' || r[j] == '.')
    {
      var n := BearerHere(r, i, g);
      BearerAt(r[i..], n);
      RedactsToken(Bearers, text);
      NowhereAt(Bearers, r, i);
    }
  }

  lemma BearerHere(r: string, i: nat, g: nat) returns (n: nat)
    requires i + 7 <= g && g + 20 <= |r| && r[i..i + 6] == "Bearer"
    requires forall j | i + 6 <= j < g :: PySpace(r[j])
    requires forall j | g <= j < g + 20 ::
      'a' <= r[j] <= 'z' || 'A' <= r[j] <= 'Z' || '0' <= r[j] <= '9' || r[j] == '-' || r[j] == '_' || r[j] == '.'
    ensures BearerText(r[i..], g - i, n)
  {
    hide RunLen;
    var s := r[i..];
    assert s[..6] == r[i..i + 6];
    assert forall j | i <= j < |r| :: s[j - i] == r[j];
    assert forall j | 6 <= j < g - i :: s[j] == r[i + j];
    var t := s[g - i..];
    forall j | 0 <= j < 20 ensures In(TokenChar, t[j]) { assert t[j] == r[g + j]; }
    RunAtLeast(TokenChar, t, 20);
    n := g - i + RunLen(TokenChar, s[g - i..]);
    TokenRun(s, g - i, n);
  }

  /** Nowhere in a redacted text does a private key's header come before a footer. */
  lemma NoPrivateKeyLeft(text: string, i: nat, h: nat, f: nat, n: nat)
    requires i <= |Redact(text)|
    ensures var s := Redact(text)[i..]; !(HeaderText(s, h) && h <= f && FooterText(s, f, n))
  {
    hide Redact, RuleFor, HeaderText, FooterText;
    var s := Redact(text)[i..];
    if HeaderText(s, h) && h <= f && FooterText(s, f, n) {
      var f1, n1 := FirstFooter(s, h, f, n);
      assert PrivateKeyText(s, h, f1, n1);
      PrivateKeyAt(s, n1);
      RedactsPrivateKey(PrivateKeys, text);
      NowhereAt(PrivateKeys, Redact(text), i);
    }
  }

  lemma {:induction false} FirstFooter(s: string, h: nat, f: nat, n: nat) returns (f1: nat, n1: nat)
    requires h <= f && FooterText(s, f, n)
    ensures h <= f1 && FooterText(s, f1, n1) && forall g: nat, m: nat | h <= g < f1 :: !FooterText(s, g, m)
    decreases f
  {
    hide FooterText;
    if g: nat, m: nat :| h <= g < f && FooterText(s, g, m) {
      f1, n1 := FirstFooter(s, h, g, m);
    } else {
      f1, n1 := f, n;
    }
  }

  /** Wherever a redacted text assigns to a key word, it reads word=[REDACTED], and the value ends there. */
  lemma OnlyMasksLeft(kind: Kind, w: string, text: string, i: nat, a: nat, b: nat, n: nat)
    requires Assigns(kind, w) && i <= |Redact(text)| && AssignmentText(w, Redact(text)[i..], a, b, n)
    ensures n == |w| + 11 && Redact(text)[i..][..n] == w + "=[REDACTED]"
  {
    hide Redact, RuleFor, Match, Word, AssignmentText, Assigned, Assigns, Masked, SignAt, ValueAt, AnyCase, LowerCase;
    var r := Redact(text);
    var s := r[i..];
    AssignsWord(kind, w);
    RedactsValue(kind, text);
    HiddenAt(w, r, i);
    PartsOnly(w, s, a, b, n);
    AnyCaseFits(w, s);
    AssignedFrom(w, s);
    LowerIsFolded(w);
    RulePattern(kind);
    MaskedMatch(w, s);
    AssignmentAt(kind, w, s, n);
    MaskReads(w, s);
  }

  lemma LowerIsFolded(w: string)
    requires LowerCase(w)
    ensures forall c <- w :: Folded(c) == c
  {}

  lemma MaskReads(w: string, s: string)
    requires Masked(w, s)
    ensures |MaskedText(w)| == |w| + 11 <= |s| && s[..|w| + 11] == w + "=[REDACTED]"
  {
    assert MaskedText(w) == w + "=[REDACTED]";
  }

  lemma {:induction false} HiddenAt(w: string, s: string, i: nat)
    requires Hidden(w, s) && i <= |s|
    ensures Assigned(w, s[i..]) == "" || Masked(w, s[i..])
  {
    hide Assigned, Masked;
    if i == 0 {
      assert s[0..] == s;
      if s == "" { NothingAssigned(w); }
    } else {
      HiddenAt(w, s[1..], i - 1);
      assert s[1..][i - 1..] == s[i..];
    }
  }

  lemma NothingAssigned(w: string)
    ensures Assigned(w, "") == ""
  {}

  /** If s starts with the word in any case, it is spelled there without the two letters. */
  predicate SpelledPlainly(w: string, s: string) {
    AnyCase(w, s) ==> forall i | 0 <= i < |w| :: s[i] != '\U{017F}' && s[i] != '\U{212A}'
  }

  predicate WordsSpelledPlainly(s: string) {
    SpelledPlainly("password", s) && SpelledPlainly("secret", s) && SpelledPlainly("token", s)
  }

  lemma SpelledPlainlyHere(w: string, s: string)
    requires LowerCase(w)
    ensures Spells(w, s) <==> SpelledPlainly(w, s)
  {
    AnyCaseIsFold(w, s);
    if AnyCase(w, s) { assert forall i | 0 <= i < |w| :: s[..|w|][i] == s[i]; }
  }

  /** What WellSpelled asks of a text, at each of its positions. */
  lemma {:induction false} WellSpelledMeans(s: string)
    ensures WellSpelled(s) <==> forall i | 0 <= i <= |s| :: WordsSpelledPlainly(s[i..])
  {
    hide AnyCase, SpelledPlainly, Spells;
    assert s[0..] == s;
    SpelledPlainlyHere("password", s);
    SpelledPlainlyHere("secret", s);
    SpelledPlainlyHere("token", s);
    if s == "" {
      NoWordInNothing();
    } else {
      WellSpelledMeans(s[1..]);
      forall i | 1 <= i <= |s| ensures s[1..][i - 1..] == s[i..] {}
      if WellSpelled(s) {
        forall i | 0 <= i <= |s| ensures WordsSpelledPlainly(s[i..]) {
          if i > 0 { assert WordsSpelledPlainly(s[1..][i - 1..]); }
        }
      }
    }
  }

  lemma NoWordInNothing()
    ensures WordsSpelledPlainly("")
  {}
}
