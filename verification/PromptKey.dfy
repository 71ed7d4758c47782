/** The prompt cache's key before hashing (services/reasoner/src/reasoner/cache.py): the alert, a colon, and the
    evidence as JSON with sorted keys, written as in sections 4 and 7 of RFC 8259 with every character outside
    printable ASCII escaped. */
module PromptKey {

  /** A dictionary in insertion order. */
  type Items = seq<(string, string)>

  predicate DistinctKeys(items: Items) {
    forall i, j :: 0 <= i < j < |items| ==> items[i].0 != items[j].0
  }

  function ToMap(items: Items): map<string, string> {
    if items == [] then map[] else ToMap(items[..|items| - 1])[items[|items| - 1].0 := items[|items| - 1].1]
  }

  // ---------------------------------------------------------------- JSON text

  function Hex(d: nat): char
    requires d < 16
  {
    if d < 10 then '0' + d as char else 'a' + (d - 10) as char
  }

  function Hex4(n: nat): string
    requires n < 0x1_0000
  {
    [Hex(n / 16 / 16 / 16), Hex(n / 16 / 16 % 16), Hex(n / 16 % 16), Hex(n % 16)]
  }

  function Escape(c: char): string {
    if c == '\"' then "\\\""
    else if c == '\\' then "\\\\"
    else if c == '\n' then "\\n"
    else if c == '\r' then "\\r"
    else if c == '\t' then "\\t"
    else if c == '\U{0008}' then "\\b"
    else if c == '\U{000C}' then "\\f"
    else if ' ' <= c <= '~' then [c]
    else if c as int < 0x1_0000 then "\\u" + Hex4(c as int)
    else
      var v := c as int - 0x1_0000;
      "\\u" + Hex4(0xD800 + v / 1024) + "\\u" + Hex4(0xDC00 + v % 1024)
  }

  function Escapes(s: string): string {
    if s == "" then "" else Escape(s[0]) + Escapes(s[1..])
  }

  function Quoted(s: string): string { "\"" + Escapes(s) + "\"" }

  function Pair(item: (string, string)): string { Quoted(item.0) + (": " + Quoted(item.1)) }

  function More(items: Items): string {
    if items == [] then "}" else ", " + (Pair(items[0]) + More(items[1..]))
  }

  /** The object with these members, in this order. */
  function Object(items: Items): string {
    if items == [] then "{}" else "{" + (Pair(items[0]) + More(items[1..]))
  }

  // ---------------------------------------------------------------- sorted keys

  /** The order of code points. */
  predicate Less(a: string, b: string) {
    b != "" && (a == "" || a[0] < b[0] || (a[0] == b[0] && Less(a[1..], b[1..])))
  }

  function Insert(item: (string, string), items: Items): Items {
    if items == [] || Less(item.0, items[0].0) then [item] + items else [items[0]] + Insert(item, items[1..])
  }

  function Sort(items: Items): Items {
    if items == [] then [] else Insert(items[0], Sort(items[1..]))
  }

  /** json.dumps with sort_keys. */
  function Dumps(items: Items): string { Object(Sort(items)) }

  function Raw(alert: string, items: Items): string { alert + [':'] + Dumps(items) }

  predicate Sorted(items: Items) {
    forall i, j :: 0 <= i < j < |items| ==> Less(items[i].0, items[j].0)
  }

  lemma {:induction false} LessOrder(a: string, b: string, c: string)
    ensures !(Less(a, b) && Less(b, a))
    ensures Less(a, b) || Less(b, a) || a == b
    ensures Less(a, b) && Less(b, c) ==> Less(a, c)
  {
    if a != "" && b != "" && a[0] == b[0] {
      LessOrder(a[1..], b[1..], if c == "" then "" else c[1..]);
      assert a == [a[0]] + a[1..] && b == [b[0]] + b[1..];
    } else if a != "" && b != "" && c != "" && b[0] == c[0] {
      assert !(Less(a, b) && Less(b, a));
    }
  }

  lemma {:induction false} InsertElements(item: (string, string), items: Items)
    ensures multiset(Insert(item, items)) == multiset(items) + multiset{item}
  {
    if items != [] && !Less(item.0, items[0].0) {
      InsertElements(item, items[1..]);
      assert items == [items[0]] + items[1..];
    }
  }

  predicate AllAbove(k: string, items: Items) { forall i :: 0 <= i < |items| ==> Less(k, items[i].0) }

  lemma {:induction false} InsertAbove(item: (string, string), items: Items, k: string)
    requires AllAbove(k, items) && Less(k, item.0)
    ensures AllAbove(k, Insert(item, items))
  {
    if items != [] && !Less(item.0, items[0].0) {
      InsertAbove(item, items[1..], k);
    }
  }

  lemma {:induction false} InsertSorted(item: (string, string), items: Items)
    requires Sorted(items) && forall i :: 0 <= i < |items| ==> items[i].0 != item.0
    ensures Sorted(Insert(item, items))
  {
    if items == [] {
    } else {
      LessOrder(item.0, items[0].0, "");
      if Less(item.0, items[0].0) {
        forall i | 0 <= i < |items| ensures Less(item.0, items[i].0) {
          LessOrder(item.0, items[0].0, items[i].0);
        }
      } else {
        InsertSorted(item, items[1..]);
        InsertAbove(item, items[1..], items[0].0);
      }
    }
  }

  lemma HeadKeyIsNew(items: Items, rest: Items)
    requires DistinctKeys(items) && items != [] && multiset(rest) == multiset(items[1..])
    ensures forall i :: 0 <= i < |rest| ==> rest[i].0 != items[0].0
  {
    forall i | 0 <= i < |rest| ensures rest[i].0 != items[0].0 {
      assert rest[i] in multiset(rest);
      assert rest[i] in items[1..];
    }
  }

  lemma MultisetOfTail(items: Items)
    requires items != []
    ensures multiset(items) == multiset(items[1..]) + multiset{items[0]}
  {
    assert items == [items[0]] + items[1..];
  }

  lemma DistinctTail(items: Items)
    requires DistinctKeys(items) && items != []
    ensures DistinctKeys(items[1..])
  {}

  lemma {:induction false} SortProps(items: Items)
    requires DistinctKeys(items)
    ensures Sorted(Sort(items)) && multiset(Sort(items)) == multiset(items)
  {
    if items == [] {
    } else {
      hide Less, Insert, Sorted, DistinctKeys;
      var rest := Sort(items[1..]);
      DistinctTail(items);
      SortProps(items[1..]);
      HeadKeyIsNew(items, rest);
      InsertElements(items[0], rest);
      InsertSorted(items[0], rest);
      MultisetOfTail(items);
    }
  }

  lemma SortedHead(a: Items, b: Items)
    requires Sorted(a) && Sorted(b) && a != [] && b != []
    requires forall x :: x in a <==> x in b
    ensures a[0] == b[0]
  {
    assert a[0] in b && b[0] in a;
    var i :| 0 <= i < |b| && b[i] == a[0];
    var j :| 0 <= j < |a| && a[j] == b[0];
    LessOrder(a[0].0, b[0].0, "");
  }

  lemma HeadIsMember(a: Items)
    ensures a == [] || a[0] in a
  {}

  /** A set of items has one sorted arrangement. */
  lemma {:induction false} SortedUnique(a: Items, b: Items)
    requires Sorted(a) && Sorted(b)
    requires forall x :: x in a <==> x in b
    ensures a == b
  {
    HeadIsMember(a);
    HeadIsMember(b);
    if a == [] {
    } else {
      SortedHead(a, b);
      forall x ensures x in a[1..] <==> x in b[1..] {
        TailMembers(a, x);
        TailMembers(b, x);
      }
      SortedUnique(a[1..], b[1..]);
      assert a == [a[0]] + a[1..] && b == [b[0]] + b[1..];
    }
  }

  lemma TailMembers(a: Items, x: (string, string))
    requires Sorted(a) && a != []
    ensures x in a[1..] <==> x in a && x != a[0]
  {
    LessOrder(a[0].0, a[0].0, "");
    if x in a && x != a[0] {
      var i :| 0 <= i < |a| && a[i] == x;
      assert a[1..][i - 1] == x;
    }
  }

  lemma KeyDetermines(items: Items, x: (string, string), y: (string, string))
    requires DistinctKeys(items)
    ensures x in items && y in items && x.0 == y.0 ==> x == y
  {
    if x in items && y in items && x.0 == y.0 {
      var i :| 0 <= i < |items| && items[i] == x;
      var j :| 0 <= j < |items| && items[j] == y;
      assert i == j;
    }
  }

  lemma {:induction false} MapMembers(items: Items, x: (string, string))
    requires DistinctKeys(items)
    ensures x in items <==> x.0 in ToMap(items) && ToMap(items)[x.0] == x.1
  {
    if items == [] {
    } else {
      MapMembers(items[..|items| - 1], x);
      KeyDetermines(items, x, items[|items| - 1]);
    }
  }

  /** Insertion order does not matter: equal dictionaries give the same text. */
  lemma {:induction false} EqualMapsEqualText(a: Items, b: Items)
    requires DistinctKeys(a) && DistinctKeys(b) && ToMap(a) == ToMap(b)
    ensures Sort(a) == Sort(b)
  {
    SortProps(a);
    SortProps(b);
    forall x ensures x in Sort(a) <==> x in Sort(b) {
      MapMembers(a, x);
      MapMembers(b, x);
      assert x in Sort(a) <==> x in multiset(Sort(a));
      assert x in Sort(b) <==> x in multiset(Sort(b));
    }
    SortedUnique(Sort(a), Sort(b));
  }

  // ---------------------------------------------------------------- the text determines the members

  lemma HexInjective(m: nat, n: nat)
    requires m < 0x1_0000 && n < 0x1_0000 && Hex4(m) == Hex4(n)
    ensures m == n
  {
    assert Hex4(m)[0] == Hex4(n)[0] && Hex4(m)[1] == Hex4(n)[1] && Hex4(m)[2] == Hex4(n)[2] && Hex4(m)[3] == Hex4(n)[3];
    NibbleInjective(m / 16 / 16 / 16, n / 16 / 16 / 16);
    NibbleInjective(m / 16 / 16 % 16, n / 16 / 16 % 16);
    NibbleInjective(m / 16 % 16, n / 16 % 16);
    NibbleInjective(m % 16, n % 16);
  }

  lemma NibbleInjective(a: nat, b: nat)
    requires a < 16 && b < 16 && Hex(a) == Hex(b)
    ensures a == b
  {}

  predicate IsUnicodeEscape(c: char) { Escape(c)[0] == '\\' && |Escape(c)| >= 6 }

  lemma EscapeShape(c: char)
    ensures |Escape(c)| >= 1 && Escape(c)[0] != '\"'
    ensures Escape(c)[0] != '\\' ==> Escape(c) == [c]
    ensures Escape(c)[0] == '\\' ==> |Escape(c)| >= 2 && (Escape(c)[1] == 'u' <==> |Escape(c)| >= 6)
    ensures Escape(c)[0] == '\\' && Escape(c)[1] != 'u' ==> |Escape(c)| == 2
  {}

  lemma ShortEscapeInjective(c: char, d: char)
    requires Escape(c)[0] == '\\' && Escape(d)[0] == '\\' && |Escape(c)| >= 2 && |Escape(d)| >= 2
    requires Escape(c)[1] == Escape(d)[1] != 'u'
    ensures c == d
  {}

  /** The UTF-16 code units of a character, the second only above U+FFFF. */
  function Unit1(c: char): (u: nat)
    ensures u < 0x1_0000
  {
    if c as int < 0x1_0000 then c as int else 0xD800 + (c as int - 0x1_0000) / 1024
  }

  function Unit2(c: char): (u: nat)
    ensures u < 0x1_0000
  {
    if c as int < 0x1_0000 then 0 else 0xDC00 + (c as int - 0x1_0000) % 1024
  }

  function UnitText(u: nat): string
    requires u < 0x1_0000
  {
    "\\u" + Hex4(u)
  }

  lemma UnicodeEscapeShape(c: char)
    requires IsUnicodeEscape(c)
    ensures Escape(c) == UnitText(Unit1(c)) + if c as int < 0x1_0000 then "" else UnitText(Unit2(c))
  {}

  lemma UnitsInjective(c: char, d: char)
    requires Unit1(c) == Unit1(d)
    ensures (c as int < 0x1_0000) == (d as int < 0x1_0000)
    ensures Unit2(c) == Unit2(d) ==> c == d
  {}

  lemma UnitPrefix(m: nat, s: string, n: nat, t: string)
    requires m < 0x1_0000 && n < 0x1_0000 && UnitText(m) + s == UnitText(n) + t
    ensures m == n && s == t
  {
    var x, y := UnitText(m) + s, UnitText(n) + t;
    assert x[2..6] == Hex4(m) && y[2..6] == Hex4(n);
    HexInjective(m, n);
    assert x[6..] == s && y[6..] == t;
  }

  lemma UnicodeEscapeInjective(c: char, s: string, d: char, t: string)
    requires IsUnicodeEscape(c) && IsUnicodeEscape(d)
    requires Escape(c) + s == Escape(d) + t
    ensures c == d
  {
    hide Escape, Hex4, UnitText;
    UnicodeEscapeShape(c);
    UnicodeEscapeShape(d);
    var tc := if c as int < 0x1_0000 then "" else UnitText(Unit2(c));
    var td := if d as int < 0x1_0000 then "" else UnitText(Unit2(d));
    assert Escape(c) + s == UnitText(Unit1(c)) + (tc + s) && Escape(d) + t == UnitText(Unit1(d)) + (td + t);
    UnitPrefix(Unit1(c), tc + s, Unit1(d), td + t);
    UnitsInjective(c, d);
    if c as int >= 0x1_0000 {
      UnitPrefix(Unit2(c), s, Unit2(d), t);
    }
  }

  /** No escape of one character is the start of another's. */
  lemma EscapePrefixFree(c: char, s: string, d: char, t: string)
    requires Escape(c) + s == Escape(d) + t
    ensures c == d && s == t
  {
    EscapeShape(c);
    EscapeShape(d);
    var x, y := Escape(c) + s, Escape(d) + t;
    assert x[0] == Escape(c)[0] && y[0] == Escape(d)[0];
    if Escape(c)[0] == '\\' {
      assert x[1] == Escape(c)[1] && y[1] == Escape(d)[1];
      if Escape(c)[1] == 'u' {
        UnicodeEscapeInjective(c, s, d, t);
      } else {
        ShortEscapeInjective(c, d);
      }
    }
    assert c == d;
    assert s == x[|Escape(c)|..] && t == y[|Escape(d)|..];
  }

  lemma EscapesEnd(a: string, s: string)
    ensures (Escapes(a) + ("\"" + s))[0] == '\"' <==> a == ""
  {
    if a != "" {
      EscapeShape(a[0]);
      assert (Escapes(a) + ("\"" + s))[0] == Escape(a[0])[0];
    }
  }

  lemma EscapesStep(a: string, tail: string)
    requires a != ""
    ensures Escapes(a) + tail == Escape(a[0]) + (Escapes(a[1..]) + tail)
  {}

  lemma {:induction false} EscapesUnique(a: string, s: string, b: string, t: string)
    requires Escapes(a) + ("\"" + s) == Escapes(b) + ("\"" + t)
    ensures a == b && s == t
  {
    EscapesEnd(a, s);
    EscapesEnd(b, t);
    if a == "" {
      assert ("" + ("\"" + s))[1..] == s && ("" + ("\"" + t))[1..] == t;
    } else {
      var x, y := Escapes(a[1..]) + ("\"" + s), Escapes(b[1..]) + ("\"" + t);
      EscapesStep(a, "\"" + s);
      EscapesStep(b, "\"" + t);
      EscapePrefixFree(a[0], x, b[0], y);
      EscapesUnique(a[1..], s, b[1..], t);
      assert a == [a[0]] + a[1..] && b == [b[0]] + b[1..];
    }
  }

  lemma QuotedStep(a: string, s: string)
    ensures Quoted(a) + s == "\"" + (Escapes(a) + ("\"" + s))
  {}

  lemma QuotedUnique(a: string, s: string, b: string, t: string)
    requires Quoted(a) + s == Quoted(b) + t
    ensures a == b && s == t
  {
    QuotedStep(a, s);
    QuotedStep(b, t);
    var x, y := Escapes(a) + ("\"" + s), Escapes(b) + ("\"" + t);
    assert ("\"" + x)[1..] == x && ("\"" + y)[1..] == y;
    EscapesUnique(a, s, b, t);
  }

  lemma PairStep(p: (string, string), s: string)
    ensures Pair(p) + s == Quoted(p.0) + (": " + (Quoted(p.1) + s))
  {}

  lemma PairUnique(p: (string, string), s: string, q: (string, string), t: string)
    requires Pair(p) + s == Pair(q) + t
    ensures p == q && s == t
  {
    PairStep(p, s);
    PairStep(q, t);
    var x, y := ": " + (Quoted(p.1) + s), ": " + (Quoted(q.1) + t);
    QuotedUnique(p.0, x, q.0, y);
    assert x[2..] == Quoted(p.1) + s && y[2..] == Quoted(q.1) + t;
    QuotedUnique(p.1, s, q.1, t);
  }

  lemma Starts(items: Items)
    ensures |More(items)| >= 1 && (More(items)[0] == ',' <==> items != [])
    ensures |Object(items)| >= 2 && (Object(items)[1] == '\"' <==> items != [])
  {
    if items != [] {
      assert Pair(items[0])[0] == '\"';
    }
  }

  lemma {:induction false} MoreUnique(a: Items, b: Items)
    requires More(a) == More(b)
    ensures a == b
  {
    hide Pair;
    Starts(a);
    Starts(b);
    if a == [] {
    } else {
      assert More(a)[2..] == Pair(a[0]) + More(a[1..]) && More(b)[2..] == Pair(b[0]) + More(b[1..]);
      PairUnique(a[0], More(a[1..]), b[0], More(b[1..]));
      MoreUnique(a[1..], b[1..]);
      assert a == [a[0]] + a[1..] && b == [b[0]] + b[1..];
    }
  }

  lemma ObjectUnique(a: Items, b: Items)
    requires Object(a) == Object(b)
    ensures a == b
  {
    Starts(a);
    Starts(b);
    if a != [] {
      assert Object(a)[1..] == Pair(a[0]) + More(a[1..]) && Object(b)[1..] == Pair(b[0]) + More(b[1..]);
      PairUnique(a[0], More(a[1..]), b[0], More(b[1..]));
      MoreUnique(a[1..], b[1..]);
      assert a == [a[0]] + a[1..] && b == [b[0]] + b[1..];
    }
  }

  // ---------------------------------------------------------------- where the alert ends

  /** A scanner of JSON text: outside strings only structural characters are allowed, and a colon there is
      followed by a space. */
  datatype Scanner = Outside | AfterColon | InString | Escaped | Bad

  function Move(q: Scanner, c: char): Scanner {
    match q
    case Outside =>
      if c == '\"' then InString else if c == ':' then AfterColon
      else if c == '{' || c == '}' || c == ',' || c == ' ' then Outside else Bad
    case AfterColon => if c == ' ' then Outside else Bad
    case InString => if c == '\"' then Outside else if c == '\\' then Escaped else InString
    case Escaped => InString
    case Bad => Bad
  }

  function Scan(q: Scanner, s: string): Scanner
    decreases |s|
  {
    if s == "" then q else Scan(Move(q, s[0]), s[1..])
  }

  lemma {:induction false} ScanConcat(q: Scanner, a: string, b: string)
    ensures Scan(q, a + b) == Scan(Scan(q, a), b)
    decreases |a|
  {
    if a == "" {
      assert a + b == b;
    } else {
      assert (a + b)[1..] == a[1..] + b;
      ScanConcat(Move(q, a[0]), a[1..], b);
    }
  }

  lemma {:induction false} BadStays(s: string)
    ensures Scan(Bad, s) == Bad
  {
    if s == "" {
    } else {
      BadStays(s[1..]);
    }
  }

  lemma {:induction false} ScanPlain(s: string)
    requires forall i :: 0 <= i < |s| ==> s[i] != '\"' && s[i] != '\\'
    ensures Scan(InString, s) == InString
  {
    if s == "" {
    } else {
      ScanPlain(s[1..]);
    }
  }

  lemma HexPlain(n: nat)
    requires n < 0x1_0000
    ensures Scan(InString, UnitText(n)) == InString
  {
    var s := UnitText(n);
    assert s[1..] == "u" + Hex4(n) && s[1..][1..] == Hex4(n);
    ScanPlain(Hex4(n));
    assert Scan(InString, s) == Scan(Escaped, s[1..]) == Scan(InString, Hex4(n));
  }

  lemma ScanEscape(c: char)
    ensures Scan(InString, Escape(c)) == InString
  {
    EscapeShape(c);
    var e := Escape(c);
    if e[0] != '\\' {
      assert e[1..] == "";
    } else if e[1] != 'u' {
      assert e[1..][1..] == "";
      assert Scan(InString, e) == Scan(Escaped, e[1..]);
    } else {
      UnicodeEscapeShape(c);
      HexPlain(Unit1(c));
      HexPlain(Unit2(c));
      ScanConcat(InString, UnitText(Unit1(c)), if c as int < 0x1_0000 then "" else UnitText(Unit2(c)));
    }
  }

  lemma {:induction false} ScanEscapes(s: string)
    ensures Scan(InString, Escapes(s)) == InString
  {
    if s == "" {
    } else {
      ScanEscape(s[0]);
      ScanEscapes(s[1..]);
      ScanConcat(InString, Escape(s[0]), Escapes(s[1..]));
    }
  }

  lemma ScanQuoted(s: string, rest: string)
    ensures Scan(Outside, Quoted(s) + rest) == Scan(Outside, rest)
  {
    hide Escapes;
    ScanEscapes(s);
    var t := Quoted(s) + rest;
    assert t[1..] == Escapes(s) + ("\"" + rest);
    ScanConcat(InString, Escapes(s), "\"" + rest);
    assert ("\"" + rest)[1..] == rest;
  }

  lemma ScanPair(p: (string, string), rest: string)
    ensures Scan(Outside, Pair(p) + rest) == Scan(Outside, rest)
  {
    var tail := ": " + (Quoted(p.1) + rest);
    assert Pair(p) + rest == Quoted(p.0) + tail;
    ScanQuoted(p.0, tail);
    assert tail[1..][1..] == Quoted(p.1) + rest;
    ScanQuoted(p.1, rest);
  }

  lemma {:induction false} ScanMore(items: Items)
    ensures Scan(Outside, More(items)) == Outside
  {
    if items == [] {
      assert More(items)[1..] == "";
    } else {
      ScanPair(items[0], More(items[1..]));
      assert More(items)[1..][1..] == Pair(items[0]) + More(items[1..]);
      ScanMore(items[1..]);
    }
  }

  lemma ScanObject(items: Items)
    ensures Scan(Outside, Object(items)) == Outside && Object(items) != "" && Object(items)[0] == '{'
  {
    if items == [] {
      assert Object(items)[1..] == "}" && "}"[1..] == "";
    } else {
      assert Object(items)[1..] == Pair(items[0]) + More(items[1..]);
      ScanPair(items[0], More(items[1..]));
      ScanMore(items[1..]);
    }
  }

  /** The quote-parity argument: no text can be read to its end both from outside a string and from inside one. */
  lemma {:induction false} NoTwoReadings(p: Scanner, q: Scanner, s: string)
    requires (p in {Outside, AfterColon} && q == InString) || (p == InString && q in {Outside, AfterColon})
    ensures !(Scan(p, s) == Outside && Scan(q, s) == Outside)
    decreases |s|
  {
    if s == "" {
    } else {
      var p1, q1 := Move(p, s[0]), Move(q, s[0]);
      if p1 == Bad || q1 == Bad {
        BadStays(s[1..]);
      } else {
        NoTwoReadings(p1, q1, s[1..]);
      }
    }
  }

  /** Whatever stands before a colon, the object after it can be read to its end only from inside a string. */
  lemma ReadAfterColon(q: Scanner, b: Items)
    ensures Scan(Move(q, ':'), Object(b)) != Outside
  {
    ScanObject(b);
    var j, q1 := Object(b), Move(q, ':');
    if q1 == Bad {
      BadStays(j);
    } else if q1 == AfterColon {
      BadStays(j[1..]);
    } else {
      NoTwoReadings(q1, Outside, j);
    }
  }

  /** No object's text ends in a colon and another object's text. */
  lemma ObjectNotSuffix(a: Items, b: Items, p: string)
    ensures Object(a) != p + [':'] + Object(b)
  {
    var j := Object(b);
    ScanObject(a);
    ReadAfterColon(Scan(Outside, p), b);
    assert p + [':'] + j == p + ([':'] + j) && ([':'] + j)[1..] == j;
    ScanConcat(Outside, p, [':'] + j);
  }

  lemma RawSplits(alert1: string, j1: string, alert2: string, j2: string) returns (p: string)
    requires alert1 + [':'] + j1 == alert2 + [':'] + j2 && |j1| > |j2|
    ensures j1 == p + [':'] + j2
  {
    var raw := alert1 + [':'] + j1;
    var k := |j1| - |j2| - 1;
    p := j1[..k];
    assert j1 == raw[|raw| - |j1|..] && j2 == raw[|raw| - |j2|..];
    assert raw[|raw| - |j2| - 1] == ':';
    assert j1[k] == ':' && j1[k + 1..] == j2;
  }

  /** The raw key determines and is determined by the alert and the evidence, even when the alert itself holds
      colons, braces or quotes, and whatever order the evidence was inserted in. */
  lemma RawKeyExact(alert1: string, items1: Items, alert2: string, items2: Items)
    requires DistinctKeys(items1) && DistinctKeys(items2)
    ensures Raw(alert1, items1) == Raw(alert2, items2) <==> alert1 == alert2 && ToMap(items1) == ToMap(items2)
  {
    var j1, j2 := Dumps(items1), Dumps(items2);
    if Raw(alert1, items1) == Raw(alert2, items2) {
      if |j1| > |j2| {
        var p := RawSplits(alert1, j1, alert2, j2);
        ObjectNotSuffix(Sort(items1), Sort(items2), p);
      } else if |j2| > |j1| {
        var p := RawSplits(alert2, j2, alert1, j1);
        ObjectNotSuffix(Sort(items2), Sort(items1), p);
      } else {
        var raw := Raw(alert1, items1);
        assert j1 == raw[|raw| - |j1|..] && j2 == raw[|raw| - |j2|..];
        assert alert1 == raw[..|raw| - |j1| - 1] && alert2 == raw[..|raw| - |j2| - 1];
        ObjectUnique(Sort(items1), Sort(items2));
        EqualTextEqualMaps(items1, items2);
      }
    }
    if alert1 == alert2 && ToMap(items1) == ToMap(items2) {
      EqualMapsEqualText(items1, items2);
    }
  }

  lemma {:induction false} SameLookup(a: Items, b: Items, k: string)
    requires DistinctKeys(a) && DistinctKeys(b) && multiset(a) == multiset(b)
    ensures k in ToMap(a) ==> k in ToMap(b) && ToMap(b)[k] == ToMap(a)[k]
  {
    if k in ToMap(a) {
      var x := (k, ToMap(a)[k]);
      MapMembers(a, x);
      MapMembers(b, x);
      assert x in multiset(a) && x in multiset(b);
    }
  }

  lemma {:induction false} EqualTextEqualMaps(a: Items, b: Items)
    requires DistinctKeys(a) && DistinctKeys(b) && Sort(a) == Sort(b)
    ensures ToMap(a) == ToMap(b)
  {
    SortProps(a);
    SortProps(b);
    forall k
      ensures k in ToMap(a) ==> k in ToMap(b) && ToMap(b)[k] == ToMap(a)[k]
      ensures k in ToMap(b) ==> k in ToMap(a)
    {
      SameLookup(a, b, k);
      SameLookup(b, a, k);
    }
  }

  // ---------------------------------------------------------------- the text, written out

  /** The value of a lower-case hexadecimal digit. */
  function HexValue(c: char): int { if c <= '9' then c as int - '0' as int else c as int - 'a' as int + 10 }

  predicate HexDigit(c: char) { '0' <= c <= '9' || 'a' <= c <= 'f' }

  /** A backslash, a u, and four lower-case hexadecimal digits of the given value. */
  predicate UnitWritten(t: string, value: int) {
    && |t| == 6 && t[0] == '\\' && t[1] == 'u' && HexDigit(t[2]) && HexDigit(t[3]) && HexDigit(t[4]) && HexDigit(t[5])
    && value == 4096 * HexValue(t[2]) + 256 * HexValue(t[3]) + 16 * HexValue(t[4]) + HexValue(t[5])
  }

  lemma HexReads(d: nat)
    requires d < 16
    ensures HexDigit(Hex(d)) && HexValue(Hex(d)) == d
  {}

  lemma Hex4Reads(n: nat)
    requires n < 0x1_0000
    ensures UnitWritten("\\u" + Hex4(n), n)
  {
    hide Hex, HexValue, HexDigit;
    var a, b, c, d := n / 16 / 16 / 16, n / 16 / 16 % 16, n / 16 % 16, n % 16;
    assert n == 4096 * a + 256 * b + 16 * c + d;
    HexReads(a);
    HexReads(b);
    HexReads(c);
    HexReads(d);
    assert "\\u" + Hex4(n) == ['\\', 'u', Hex(a), Hex(b), Hex(c), Hex(d)];
  }

  /** How each character is written: printable ASCII as it is but for the quote and the backslash, five control
      characters by a letter, the rest by their UTF-16 code units. */
  lemma EscapeTable(c: char)
    ensures ' ' <= c <= '~' && c != '\"' && c != '\\' ==> Escape(c) == [c]
    ensures c == '\"' ==> Escape(c) == ['\\', '\"']
    ensures c == '\\' ==> Escape(c) == ['\\', '\\']
    ensures c == '\n' ==> Escape(c) == ['\\', 'n']
    ensures c == '\r' ==> Escape(c) == ['\\', 'r']
    ensures c == '\t' ==> Escape(c) == ['\\', 't']
    ensures c as int == 8 ==> Escape(c) == ['\\', 'b']
    ensures c as int == 12 ==> Escape(c) == ['\\', 'f']
    ensures (c < ' ' && c as int !in {8, 9, 10, 12, 13}) || 126 < c as int < 0x1_0000 ==>
      UnitWritten(Escape(c), c as int)
    ensures c as int >= 0x1_0000 ==>
      && |Escape(c)| == 12
      && UnitWritten(Escape(c)[..6], 0xD800 + (c as int - 0x1_0000) / 1024)
      && UnitWritten(Escape(c)[6..], 0xDC00 + (c as int - 0x1_0000) % 1024)
  {
    hide UnitWritten, Hex4;
    if c as int < 0x1_0000 {
      Hex4Reads(c as int);
    } else {
      var v := c as int - 0x1_0000;
      Hex4Reads(0xD800 + v / 1024);
      Hex4Reads(0xDC00 + v % 1024);
      TwoUnits(0xD800 + v / 1024, 0xDC00 + v % 1024);
    }
  }

  lemma TwoUnits(a: nat, b: nat)
    requires a < 0x1_0000 && b < 0x1_0000
    ensures var t := "\\u" + Hex4(a) + "\\u" + Hex4(b);
      |t| == 12 && t[..6] == "\\u" + Hex4(a) && t[6..] == "\\u" + Hex4(b)
  {}

  /** The order of the keys: by the first code point in which they differ, a prefix first. */
  lemma {:induction false} LessMeans(a: string, b: string)
    ensures Less(a, b)
            <==> exists i | 0 <= i <= |a| && i < |b| :: a[..i] == b[..i] && (i == |a| || a[i] < b[i])
  {
    if b == "" || a == "" {
      if b != "" { assert a[..0] == b[..0]; }
    } else {
      LessMeans(a[1..], b[1..]);
      if a[0] == b[0] {
        forall i | 0 <= i < |a| && i < |b|
          ensures a[..i + 1] == b[..i + 1] <==> a[1..][..i] == b[1..][..i]
        {
          assert a[..i + 1] == [a[0]] + a[1..][..i] && b[..i + 1] == [b[0]] + b[1..][..i];
        }
      }
    }
  }

  lemma PairWritten(x: (string, string))
    ensures Pair(x) == "\"" + Escapes(x.0) + "\": \"" + Escapes(x.1) + "\""
  {
    hide Escapes;
  }

  lemma TwoSorted(a: (string, string), b: (string, string))
    requires Less(a.0, b.0)
    ensures Sort([a, b]) == [a, b] && Sort([b, a]) == [a, b] && Sort([a]) == [a]
  {
    hide Less;
    LessOrder(a.0, b.0, "");
    assert [a, b][1..] == [b] && [b, a][1..] == [a] && [a][1..] == [] && [b][1..] == [];
    assert Sort([a]) == [a] && Sort([b]) == [b];
    assert [a] + Insert(b, []) == [a, b];
  }

  lemma OneMember(a: (string, string))
    ensures Dumps([]) == "{}" && Dumps([a]) == "{" + Pair(a) + "}"
  {
    hide Pair, Less;
    assert [a][1..] == [] && Sort([a]) == [a];
    assert Object([a]) == "{" + (Pair(a) + "}");
  }

  lemma TwoMembers(a: (string, string), b: (string, string))
    requires Less(a.0, b.0)
    ensures Dumps([a, b]) == Dumps([b, a]) == "{" + Pair(a) + ", " + Pair(b) + "}"
  {
    hide Pair, Less, Sort;
    TwoSorted(a, b);
    assert [a, b][1..] == [b] && [b][1..] == [];
    assert More([b]) == ", " + (Pair(b) + "}");
    assert Object([a, b]) == "{" + (Pair(a) + More([b]));
  }

  /** The whole text for dictionaries of no, one and two members: braces, quotes, a colon and a space, a comma and a
      space, and the keys in order. */
  lemma RawWritten(alert: string, items: Items, a: (string, string), b: (string, string))
    ensures Raw(alert, items) == alert + ":" + Dumps(items)
    ensures var p := "\"" + Escapes(a.0) + "\": \"" + Escapes(a.1) + "\"";
      var q := "\"" + Escapes(b.0) + "\": \"" + Escapes(b.1) + "\"";
      && Dumps([]) == "{}"
      && Dumps([a]) == "{" + p + "}"
      && (Less(a.0, b.0) ==> Dumps([a, b]) == Dumps([b, a]) == "{" + p + ", " + q + "}")
  {
    hide Escapes, Less, Pair, Dumps;
    PairWritten(a);
    PairWritten(b);
    OneMember(a);
    if Less(a.0, b.0) { TwoMembers(a, b); }
  }
}
