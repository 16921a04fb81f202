/** Strings as the source uses them: decimal text, substring search, joining, and code-point order. */
module Text {

  // Decimal text of an integer: CAST(id AS TEXT)

  function Digit(d: nat): char
    requires d < 10
  {
    "0123456789"[d]
  }

  function NatText(n: nat): (s: string)
    ensures |s| > 0
    ensures forall i :: 0 <= i < |s| ==> '0' <= s[i] <= '9'
  {
    if n < 10 then [Digit(n)] else NatText(n / 10) + [Digit(n % 10)]
  }

  function IntText(n: int): (s: string)
    ensures |s| > 0
    ensures forall i :: 0 <= i < |s| ==> s[i] != ','
  {
    if n < 0 then "-" + NatText(-n) else NatText(n)
  }

  lemma NatTextEnds(n: nat)
    ensures NatText(n)[|NatText(n)| - 1] == Digit(n % 10)
    ensures NatText(n)[..|NatText(n)| - 1] == if n < 10 then "" else NatText(n / 10)
  {
  }

  lemma DigitInjective(a: nat, b: nat)
    requires a < 10 && b < 10 && Digit(a) == Digit(b)
    ensures a == b
  {
  }

  lemma {:induction false} NatTextInjective(a: nat, b: nat)
    requires NatText(a) == NatText(b)
    ensures a == b
  {
    hide NatText, Digit;
    NatTextEnds(a);
    NatTextEnds(b);
    DigitInjective(a % 10, b % 10);
    if a >= 10 && b >= 10 {
      NatTextInjective(a / 10, b / 10);
    }
  }

  lemma IntTextInjective(a: int, b: int)
    requires IntText(a) == IntText(b)
    ensures a == b
  {
    var s, t := IntText(a), IntText(b);
    assert a < 0 <==> s[0] == '-';
    assert b < 0 <==> t[0] == '-';
    if a < 0 {
      assert s[1..] == NatText(-a) && t[1..] == NatText(-b);
      NatTextInjective(-a, -b);
    } else {
      NatTextInjective(a, b);
    }
  }

  // Substring search: SQLite instr(haystack, needle), PostgreSQL POSITION(needle IN haystack)

  /** The 1-based position of the first match, or 0. */
  function Instr(haystack: string, needle: string): nat
    decreases |haystack|
  {
    if |needle| > |haystack| then 0
    else if haystack[..|needle|] == needle then 1
    else if |haystack| == 0 then 0
    else
      var rest := Instr(haystack[1..], needle);
      if rest == 0 then 0 else rest + 1
  }

  ghost predicate MatchesAt(haystack: string, needle: string, k: nat) {
    k + |needle| <= |haystack| && haystack[k..k + |needle|] == needle
  }

  lemma {:induction false} InstrFinds(haystack: string, needle: string)
    ensures Instr(haystack, needle) > 0 <==> exists k: nat :: MatchesAt(haystack, needle, k)
    decreases |haystack|
  {
    if |needle| > |haystack| {
    } else if haystack[..|needle|] == needle {
      assert MatchesAt(haystack, needle, 0);
    } else if |haystack| == 0 {
    } else {
      var tail := haystack[1..];
      InstrFinds(tail, needle);
      if k: nat :| MatchesAt(tail, needle, k) {
        assert haystack[k + 1..k + 1 + |needle|] == tail[k..k + |needle|];
        assert MatchesAt(haystack, needle, k + 1);
      }
      if k: nat :| MatchesAt(haystack, needle, k) {
        assert k > 0;
        assert tail[k - 1..k - 1 + |needle|] == haystack[k..k + |needle|];
        assert MatchesAt(tail, needle, k - 1);
      }
    }
  }

  // The comma-joined path a recursive query carries to detect cycles

  function VisitedText(ids: seq<int>): (s: string)
    ensures |s| > 0 && s[0] == ',' && s[|s| - 1] == ','
  {
    if |ids| == 0 then ","
    else VisitedText(ids[..|ids| - 1]) + IntText(ids[|ids| - 1]) + ","
  }

  function Quoted(id: int): string {
    "," + IntText(id) + ","
  }

  lemma MatchInPrefix(a: string, b: string, needle: string, k: nat)
    requires k + |needle| <= |a|
    ensures MatchesAt(a + b, needle, k) <==> MatchesAt(a, needle, k)
  {
    assert (a + b)[k..k + |needle|] == a[k..k + |needle|];
  }

  /** A quoted comma-free word that ends past `before` can only be the last word. */
  lemma MatchAtEnd(before: string, t: string, u: string, k: nat)
    requires |before| > 0 && before[|before| - 1] == ','
    requires ',' !in t && ',' !in u
    requires MatchesAt(before + t + ",", "," + u + ",", k)
    requires k + |u| + 2 > |before|
    ensures u == t
  {
    var all, needle, m := before + t + ",", "," + u + ",", |before|;
    assert forall j :: 0 <= j < |needle| ==> all[k + j] == needle[j];
    assert forall j :: 0 <= j < |t| ==> all[m + j] == t[j];
    assert forall j :: 0 <= j < |u| ==> needle[1 + j] == u[j];
    var last := |u| + 1;
    assert all[k + last] == ',';
    assert k + last == |all| - 1;
    assert all[k + 0] == ',';
    assert all[m - 1] == ',';
    assert k == m - 1;
    assert forall j :: 0 <= j < |u| ==> u[j] == all[k + (1 + j)] == t[j];
  }

  lemma LastWordMatches(before: string, t: string)
    requires |before| > 0 && before[|before| - 1] == ','
    ensures MatchesAt(before + t + ",", "," + t + ",", |before| - 1)
  {
    var k := |before| - 1;
    assert (before + t + ",")[k..k + |t| + 2] == "," + t + ",";
  }

  lemma {:induction false} VisitedMember(ids: seq<int>, i: nat)
    requires i < |ids|
    ensures exists k: nat :: MatchesAt(VisitedText(ids), Quoted(ids[i]), k)
    decreases |ids|
  {
    var n := |ids| - 1;
    var before, t := VisitedText(ids[..n]), IntText(ids[n]);
    assert VisitedText(ids) == before + t + ",";
    assert Quoted(ids[n]) == "," + t + ",";
    hide IntText, VisitedText, Quoted;
    if i == n {
      LastWordMatches(before, t);
    } else {
      VisitedMember(ids[..n], i);
      var k: nat :| MatchesAt(before, Quoted(ids[i]), k);
      assert before + (t + ",") == before + t + ",";
      MatchInPrefix(before, t + ",", Quoted(ids[i]), k);
    }
  }

  lemma {:induction false} VisitedMatch(ids: seq<int>, id: int, k: nat)
    requires MatchesAt(VisitedText(ids), Quoted(id), k)
    ensures id in ids
    decreases |ids|
  {
    if |ids| == 0 {
    } else {
      var n := |ids| - 1;
      var before, t := VisitedText(ids[..n]), IntText(ids[n]);
      assert VisitedText(ids) == before + (t + ",");
      if k + |Quoted(id)| <= |before| {
        MatchInPrefix(before, t + ",", Quoted(id), k);
        VisitedMatch(ids[..n], id, k);
      } else {
        MatchAtEnd(before, t, IntText(id), k);
        IntTextInjective(id, ids[n]);
      }
    }
  }

  /** Looking for ",id," in the visited text is membership of id in the visited ids. */
  lemma VisitedSearchIsMembership(ids: seq<int>, id: int)
    ensures Instr(VisitedText(ids), Quoted(id)) > 0 <==> id in ids
  {
    InstrFinds(VisitedText(ids), Quoted(id));
    if id in ids {
      var i :| 0 <= i < |ids| && ids[i] == id;
      VisitedMember(ids, i);
    }
    if k: nat :| MatchesAt(VisitedText(ids), Quoted(id), k) {
      VisitedMatch(ids, id, k);
    }
  }

  // Whitespace

  /** The characters str.strip() and str.isspace() treat as white space. */
  predicate IsSpace(c: char) {
    var n := c as int;
    || 0x09 <= n <= 0x0D || 0x1C <= n <= 0x20 || n == 0x85 || n == 0xA0 || n == 0x1680
    || 0x2000 <= n <= 0x200A || n == 0x2028 || n == 0x2029 || n == 0x202F || n == 0x205F || n == 0x3000
  }

  predicate Trimmed(s: string) {
    |s| > 0 ==> !IsSpace(s[0]) && !IsSpace(s[|s| - 1])
  }

  // str.strip, str.lstrip and str.rstrip

  function Leading(s: string): (n: nat)
    ensures n <= |s|
    ensures forall i :: 0 <= i < n ==> IsSpace(s[i])
    ensures n < |s| ==> !IsSpace(s[n])
  {
    if |s| == 0 || !IsSpace(s[0]) then 0 else 1 + Leading(s[1..])
  }

  function RStripLength(s: string): (n: nat)
    ensures n <= |s|
    ensures forall i :: n <= i < |s| ==> IsSpace(s[i])
    ensures n > 0 ==> !IsSpace(s[n - 1])
  {
    if |s| == 0 || !IsSpace(s[|s| - 1]) then |s| else RStripLength(s[..|s| - 1])
  }

  predicate Blank(s: string) {
    Leading(s) == |s|
  }

  function Strip(s: string): (t: string)
    ensures Trimmed(t) && (t == "" <==> Blank(s))
  {
    if Blank(s) then "" else s[Leading(s)..RStripLength(s)]
  }

  lemma BlankExact(s: string)
    ensures Blank(s) <==> forall i :: 0 <= i < |s| ==> IsSpace(s[i])
    ensures Blank(s) <==> RStripLength(s) == 0
    ensures !Blank(s) ==> Leading(s) < RStripLength(s)
  {
    var n := Leading(s);
    assert n < |s| ==> !IsSpace(s[n]);
  }

  // Joining

  function Join(separator: string, parts: seq<string>): string {
    if |parts| == 0 then ""
    else if |parts| == 1 then parts[0]
    else parts[0] + separator + Join(separator, parts[1..])
  }

  // Code-point order on strings

  predicate LexLe(a: string, b: string) {
    if |a| == 0 then true
    else if |b| == 0 then false
    else a[0] < b[0] || (a[0] == b[0] && LexLe(a[1..], b[1..]))
  }

  lemma {:induction false} LexTotal(a: string, b: string)
    ensures LexLe(a, b) || LexLe(b, a)
  {
    if |a| == 0 || |b| == 0 || a[0] != b[0] {
    } else {
      LexTotal(a[1..], b[1..]);
    }
  }

  lemma {:induction false} LexTransitive(a: string, b: string, c: string)
    requires LexLe(a, b) && LexLe(b, c)
    ensures LexLe(a, c)
  {
    if |a| == 0 || a[0] < b[0] || b[0] < c[0] {
    } else {
      LexTransitive(a[1..], b[1..], c[1..]);
    }
  }

  lemma {:induction false} LexAntisymmetric(a: string, b: string)
    requires LexLe(a, b) && LexLe(b, a)
    ensures a == b
  {
    if |a| == 0 || |b| == 0 {
    } else {
      LexAntisymmetric(a[1..], b[1..]);
      assert a == [a[0]] + a[1..] && b == [b[0]] + b[1..];
    }
  }

  lemma LexIsOrder()
    ensures forall a, b :: LexLe(a, b) || LexLe(b, a)
    ensures forall a, b, c :: LexLe(a, b) && LexLe(b, c) ==> LexLe(a, c)
    ensures forall a, b :: LexLe(a, b) && LexLe(b, a) ==> a == b
  {
    forall a, b ensures LexLe(a, b) || LexLe(b, a) {
      LexTotal(a, b);
    }
    forall a, b, c | LexLe(a, b) && LexLe(b, c) ensures LexLe(a, c) {
      LexTransitive(a, b, c);
    }
    forall a, b | LexLe(a, b) && LexLe(b, a) ensures a == b {
      LexAntisymmetric(a, b);
    }
  }
}
