/** The string operations of the runbook parser's host library, on sequences of Unicode scalar values. */
module Text {

  datatype Option<+T> = None | Some(value: T)

  datatype Result<+T, +E> = Ok(value: T) | Err(error: E)

  /** Unicode's White_Space property. */
  predicate IsSpace(c: char) {
    || '\t' <= c <= '\r' || c == ' ' || c == '\U{0085}' || c == '\U{00A0}' || c == '\U{1680}'
    || '\U{2000}' <= c <= '\U{200A}' || c == '\U{2028}' || c == '\U{2029}' || c == '\U{202F}'
    || c == '\U{205F}' || c == '\U{3000}'
  }

  /** Lower-casing, exact for comparison with ASCII text: U+0130 and U+212A are the only
      non-ASCII letters whose lower-case form is ASCII, and other letters stay non-ASCII. */
  function LowerChar(c: char): char {
    if 'A' <= c <= 'Z' then c - 'A' + 'a'
    else if c == '\U{0130}' then 'i'
    else if c == '\U{212A}' then 'k'
    else c
  }

  function Lower(s: string): string {
    seq(|s|, i requires 0 <= i < |s| => LowerChar(s[i]))
  }

  function TrimLeft(s: string): string {
    if s != "" && IsSpace(s[0]) then TrimLeft(s[1..]) else s
  }

  function TrimRight(s: string): string {
    if s != "" && IsSpace(s[|s| - 1]) then TrimRight(s[..|s| - 1]) else s
  }

  function Trim(s: string): string {
    TrimRight(TrimLeft(s))
  }

  predicate LeftTrimmed(s: string) { s == "" || !IsSpace(s[0]) }

  predicate RightTrimmed(s: string) { s == "" || !IsSpace(s[|s| - 1]) }

  predicate Trimmed(s: string) { LeftTrimmed(s) && RightTrimmed(s) }

  /** All pieces between separators; never empty. */
  function Split(s: string, sep: char): (parts: seq<string>)
    ensures |parts| >= 1
  {
    if s == "" then [""]
    else
      var rest := Split(s[1..], sep);
      if s[0] == sep then [""] + rest else Prepend(s[0], rest)
  }

  function Prepend(c: char, parts: seq<string>): seq<string>
    requires |parts| >= 1
  {
    [[c] + parts[0]] + parts[1..]
  }

  function Join(parts: seq<string>, sep: char): string {
    if |parts| == 0 then ""
    else if |parts| == 1 then parts[0]
    else parts[0] + [sep] + Join(parts[1..], sep)
  }

  /** The text before and after the first separator, if there is one. */
  function Cut(s: string, sep: char): (r: Option<(string, string)>)
    ensures r.None? <==> sep !in s
    ensures r.Some? ==> s == r.value.0 + [sep] + r.value.1 && sep !in r.value.0
  {
    if s == "" then None
    else if s[0] == sep then Some(("", s[1..]))
    else match Cut(s[1..], sep)
      case None => None
      case Some((a, b)) => Some(([s[0]] + a, b))
  }

  function SeqMap<A, B>(f: A -> B, s: seq<A>): (r: seq<B>)
    ensures |r| == |s| && forall i :: 0 <= i < |s| ==> r[i] == f(s[i])
  {
    seq(|s|, i requires 0 <= i < |s| => f(s[i]))
  }

  // ---------------------------------------------------------------- trimming

  lemma {:induction false} TrimLeftProps(s: string)
    ensures LeftTrimmed(TrimLeft(s))
    ensures |TrimLeft(s)| <= |s| && TrimLeft(s) == s[|s| - |TrimLeft(s)|..]
  {
    if s != "" && IsSpace(s[0]) {
      TrimLeftProps(s[1..]);
    }
  }

  lemma {:induction false} TrimRightProps(s: string)
    ensures RightTrimmed(TrimRight(s))
    ensures TrimRight(s) <= s
    ensures LeftTrimmed(s) ==> LeftTrimmed(TrimRight(s))
    ensures forall i :: |TrimRight(s)| <= i < |s| ==> IsSpace(s[i])
  {
    if s != "" && IsSpace(s[|s| - 1]) {
      TrimRightProps(s[..|s| - 1]);
    }
  }

  lemma TrimProps(s: string)
    ensures Trimmed(Trim(s))
    ensures forall c :: c !in s ==> c !in Trim(s)
  {
    TrimLeftProps(s);
    TrimRightProps(TrimLeft(s));
  }

  lemma TrimOfTrimmed(s: string)
    requires Trimmed(s)
    ensures Trim(s) == s
  {}

  /** A trimmed text that starts with p starts with p before trimming on the right, and conversely. */
  lemma TrimKeepsInkedPrefix(s: string, p: string)
    requires p != "" && !IsSpace(p[|p| - 1])
    ensures p <= TrimRight(s) <==> p <= s
  {
    TrimRightProps(s);
    if p <= s {
      assert s[|p| - 1] == p[|p| - 1];
      assert |TrimRight(s)| > |p| - 1;
    }
  }

  // ---------------------------------------------------------------- splitting and joining

  lemma PrependConcat(c: char, a: seq<string>, b: seq<string>)
    requires |a| >= 1
    ensures Prepend(c, a + b) == Prepend(c, a) + b
  {
    assert (a + b)[1..] == a[1..] + b;
  }

  lemma {:induction false} SplitAtSeparator(a: string, sep: char, b: string)
    ensures Split(a + [sep] + b, sep) == Split(a, sep) + Split(b, sep)
  {
    var s := a + [sep] + b;
    if a == "" {
      assert s[1..] == b;
    } else {
      assert s[1..] == a[1..] + [sep] + b && s[0] == a[0];
      SplitAtSeparator(a[1..], sep, b);
      PrependConcat(a[0], Split(a[1..], sep), Split(b, sep));
      assert a[0] == sep ==> [""] + (Split(a[1..], sep) + Split(b, sep)) == ([""] + Split(a[1..], sep)) + Split(b, sep);
    }
  }

  lemma {:induction false} SplitWithoutSeparator(s: string, sep: char)
    requires sep !in s
    ensures Split(s, sep) == [s]
  {
    if s == "" {
    } else {
      SplitWithoutSeparator(s[1..], sep);
      assert [s[0]] + s[1..] == s;
    }
  }

  lemma {:induction false} SplitJoin(parts: seq<string>, sep: char)
    requires |parts| >= 1
    requires forall p :: p in parts ==> sep !in p
    ensures Split(Join(parts, sep), sep) == parts
  {
    SplitWithoutSeparator(parts[0], sep);
    if |parts| > 1 {
      SplitJoin(parts[1..], sep);
      SplitAtSeparator(parts[0], sep, Join(parts[1..], sep));
    }
  }

  lemma {:induction false} JoinSplit(s: string, sep: char)
    ensures Join(Split(s, sep), sep) == s
  {
    if s == "" {
    } else {
      JoinSplit(s[1..], sep);
      var rest := Split(s[1..], sep);
      if s[0] == sep {
        assert ([""] + rest)[1..] == rest;
        assert Join([""] + rest, sep) == "" + [sep] + Join(rest, sep);
      } else {
        var parts := [[s[0]] + rest[0]] + rest[1..];
        if |rest| > 1 {
          assert parts[1..] == rest[1..];
          assert Join(parts, sep) == [s[0]] + (rest[0] + [sep] + Join(rest[1..], sep));
        }
        assert Join(parts, sep) == [s[0]] + Join(rest, sep);
      }
    }
  }

  /** The pieces hold no separator and no character that the text lacks; the first piece starts the text. */
  lemma {:induction false} SplitPieces(s: string, sep: char)
    ensures Split(s, sep)[0] <= s
    ensures forall p :: p in Split(s, sep) ==> sep !in p
    ensures forall p, c :: p in Split(s, sep) && c !in s ==> c !in p
    ensures |Split(s, sep)| == 1 ==> Split(s, sep)[0] == s
  {
    if s == "" {
    } else {
      SplitPieces(s[1..], sep);
    }
  }

  lemma {:induction false} JoinChars(parts: seq<string>, sep: char, c: char)
    requires c != sep
    requires forall p :: p in parts ==> c !in p
    ensures c !in Join(parts, sep)
  {
    if |parts| > 1 {
      JoinChars(parts[1..], sep, c);
    }
  }

  /** A joined list of trimmed pieces ends in ink, unless its last piece is empty. */
  lemma {:induction false} JoinRightTrimmed(parts: seq<string>, sep: char)
    requires !IsSpace(sep)
    requires forall p :: p in parts ==> Trimmed(p)
    ensures RightTrimmed(Join(parts, sep))
  {
    if |parts| == 1 {
      assert Trimmed(parts[0]);
    } else if |parts| > 1 {
      JoinRightTrimmed(parts[1..], sep);
      var rest := Join(parts[1..], sep);
      var all := Join(parts, sep);
      assert all[|all| - 1] == if rest == "" then sep else rest[|rest| - 1];
    }
  }

  // ---------------------------------------------------------------- character by character

  /** The white space of Go's unicode.IsSpace. */
  lemma SpaceTable(c: char)
    ensures IsSpace(c) <==> c in {
      '\t', '\n', '\U{000B}', '\U{000C}', '\r', ' ', '\U{0085}', '\U{00A0}', '\U{1680}', '\U{2000}', '\U{2001}',
      '\U{2002}', '\U{2003}', '\U{2004}', '\U{2005}', '\U{2006}', '\U{2007}', '\U{2008}', '\U{2009}', '\U{200A}',
      '\U{2028}', '\U{2029}', '\U{202F}', '\U{205F}', '\U{3000}'}
  {}

  /** Every character of a text is lower-cased in its place; A to Z become a to z, other ASCII characters stay, and
      of the others only U+0130 and U+212A become ASCII, namely i and k. */
  lemma LowerTable(s: string, i: nat)
    requires i < |s|
    ensures |Lower(s)| == |s|
    ensures var c, d := s[i] as int, Lower(s)[i] as int;
      && (65 <= c <= 90 ==> d == c + 32)
      && (c < 65 || 90 < c < 128 ==> d == c)
      && (s[i] == '\U{0130}' ==> Lower(s)[i] == 'i') && (s[i] == '\U{212A}' ==> Lower(s)[i] == 'k')
      && (c >= 128 && s[i] != '\U{0130}' && s[i] != '\U{212A}' ==> d >= 128)
  {}

  /** Trimming leaves what stands between the white space at both ends. */
  lemma TrimMeans(s: string) returns (i: nat, j: nat)
    ensures i <= j <= |s| && Trim(s) == s[i..j]
    ensures forall k | 0 <= k < i || j <= k < |s| :: IsSpace(s[k])
    ensures i < j ==> !IsSpace(s[i]) && !IsSpace(s[j - 1])
  {
    i := LeftEnd(s);
    var t := TrimLeft(s);
    TrimRightProps(t);
    j := i + |TrimRight(t)|;
    assert TrimRight(t) == t[..|TrimRight(t)|] == s[i..j];
    forall k | j <= k < |s| ensures IsSpace(s[k]) { assert t[k - i] == s[k]; }
    TrimLeftProps(s);
  }

  lemma {:induction false} LeftEnd(s: string) returns (i: nat)
    ensures i <= |s| && TrimLeft(s) == s[i..] && forall k | 0 <= k < i :: IsSpace(s[k])
  {
    if s != "" && IsSpace(s[0]) {
      var n := LeftEnd(s[1..]);
      i := n + 1;
      forall k | 0 <= k < i ensures IsSpace(s[k]) { if k > 0 { assert s[1..][k - 1] == s[k]; } }
    } else {
      i := 0;
    }
  }
}
