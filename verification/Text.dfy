/** The Go string functions the modelled code calls. A string is its sequence of runes. */
module Text {
  import opened Common

  /** unicode.IsSpace: the White_Space property. */
  predicate IsSpace(c: char) {
    var n := c as int;
    (0x09 <= n <= 0x0D) || n == 0x20 || n == 0x85 || n == 0xA0 || n == 0x1680 ||
    (0x2000 <= n <= 0x200A) || n == 0x2028 || n == 0x2029 || n == 0x202F || n == 0x205F || n == 0x3000
  }

  function TrimLeft(s: string): (r: string)
    ensures r != [] ==> !IsSpace(r[0])
    ensures |r| <= |s|
  {
    if s != [] && IsSpace(s[0]) then TrimLeft(s[1..]) else s
  }

  function TrimRight(s: string): (r: string)
    ensures r != [] ==> !IsSpace(r[|r| - 1])
    ensures |r| <= |s| && (r != [] ==> r[0] == s[0])
  {
    if s != [] && IsSpace(s[|s| - 1]) then TrimRight(s[..|s| - 1]) else s
  }

  /** strings.TrimSpace. */
  function TrimSpace(s: string): (r: string)
    ensures r != [] ==> !IsSpace(r[0]) && !IsSpace(r[|r| - 1])
  {
    TrimRight(TrimLeft(s))
  }

  predicate AllSpace(s: string) {
    forall i :: 0 <= i < |s| ==> IsSpace(s[i])
  }

  lemma {:induction false} TrimLeftIs(s: string) returns (before: string)
    ensures s == before + TrimLeft(s) && AllSpace(before)
  {
    if s != [] && IsSpace(s[0]) {
      before := TrimLeftIs(s[1..]);
      before := [s[0]] + before;
    } else {
      before := "";
    }
  }

  lemma {:induction false} TrimRightIs(s: string) returns (after: string)
    ensures s == TrimRight(s) + after && AllSpace(after)
  {
    if s != [] && IsSpace(s[|s| - 1]) {
      after := TrimRightIs(s[..|s| - 1]);
      after := after + [s[|s| - 1]];
    } else {
      after := "";
    }
  }

  /** Only white space at the ends is lost. */
  lemma TrimSpaceIs(s: string) returns (before: string, after: string)
    ensures s == before + TrimSpace(s) + after && AllSpace(before) && AllSpace(after)
  {
    before := TrimLeftIs(s);
    after := TrimRightIs(TrimLeft(s));
  }

  predicate Trimmed(s: string) {
    s != [] ==> !IsSpace(s[0]) && !IsSpace(s[|s| - 1])
  }

  lemma TrimTrimmed(s: string)
    requires Trimmed(s)
    ensures TrimSpace(s) == s
  {
  }

  predicate StartsWith(s: string, prefix: string) {
    prefix <= s
  }

  // ----- Decimal numbers -----

  predicate IsDigit(c: char) {
    '0' <= c <= '9'
  }

  predicate AllDigits(s: string) {
    forall i :: 0 <= i < |s| ==> IsDigit(s[i])
  }

  function DigitChar(d: nat): (c: char)
    requires d < 10
    ensures IsDigit(c) && c as int == '0' as int + d
  {
    ('0' as int + d) as char
  }

  /** strconv.FormatInt in base 10 of a non-negative number. */
  function Digits(n: nat): (s: string)
    ensures s != [] && AllDigits(s)
  {
    if n < 10 then [DigitChar(n)] else Digits(n / 10) + [DigitChar(n % 10)]
  }

  function FormatInt(n: int): (s: string)
    ensures s != [] && (s[0] == '-' <==> n < 0)
  {
    if n < 0 then "-" + Digits(-n) else Digits(n)
  }

  /** The number a string of digits denotes. */
  function ParseDigits(s: string): nat
    requires AllDigits(s)
  {
    if s == [] then 0 else ParseDigits(s[..|s| - 1]) * 10 + (s[|s| - 1] as int - '0' as int)
  }

  lemma {:induction false} ParseDigitsInverts(n: nat)
    ensures ParseDigits(Digits(n)) == n
  {
    if n >= 10 {
      ParseDigitsInverts(n / 10);
      assert Digits(n)[..|Digits(n)| - 1] == Digits(n / 10);
    }
  }

  lemma FormatIntInjective(a: int, b: int)
    requires FormatInt(a) == FormatInt(b)
    ensures a == b
  {
    if a < 0 && b < 0 {
      assert FormatInt(a)[1..] == Digits(-a) && FormatInt(b)[1..] == Digits(-b);
      ParseDigitsInverts(-a);
      ParseDigitsInverts(-b);
    } else if a >= 0 && b >= 0 {
      ParseDigitsInverts(a);
      ParseDigitsInverts(b);
    }
  }

  // ----- Searching, splitting and joining -----

  predicate OccursAt(s: string, sep: string, i: int) {
    0 <= i <= |s| - |sep| && s[i..i + |sep|] == sep
  }

  ghost predicate Contains(s: string, sep: string) {
    exists i :: OccursAt(s, sep, i)
  }

  /** strings.Index: the first occurrence of sep in s, or -1. */
  method Index(s: string, sep: string) returns (i: int)
    ensures i == -1 <==> !Contains(s, sep)
    ensures i != -1 ==> OccursAt(s, sep, i) && forall k :: k < i ==> !OccursAt(s, sep, k)
  {
    i := 0;
    while i + |sep| <= |s|
      invariant 0 <= i && forall k :: k < i ==> !OccursAt(s, sep, k)
    {
      if s[i..i + |sep|] == sep {
        assert OccursAt(s, sep, i);
        return;
      }
      i := i + 1;
    }
    return -1;
  }

  /** strings.Join. */
  function Join(parts: seq<string>, sep: string): string {
    if parts == [] then ""
    else if |parts| == 1 then parts[0]
    else parts[0] + sep + Join(parts[1..], sep)
  }

  predicate Free(s: string, c: char) {
    forall i :: 0 <= i < |s| ==> s[i] != c
  }

  /** Two strings cut at their first c agree piece by piece. */
  lemma CutAtFirst(a: string, b: string, x: string, y: string, c: char)
    requires Free(a, c) && Free(b, c) && a + [c] + x == b + [c] + y
    ensures a == b && x == y
  {
    var s := a + [c] + x;
    assert s[|a|] == c && forall i :: 0 <= i < |a| ==> s[i] == a[i];
    var t := b + [c] + y;
    assert t[|b|] == c && forall i :: 0 <= i < |b| ==> t[i] == b[i];
    assert |a| == |b|;
    assert s[..|a|] == a && t[..|b|] == b;
    assert s[|a| + 1..] == x && t[|b| + 1..] == y;
  }

  lemma FreeNeverHasSeparator(a: string, b: string, y: string, c: char)
    requires Free(a, c)
    ensures a != b + [c] + y
  {
    assert (b + [c] + y)[|b|] == c;
  }

  /** Joining with a separator no part contains loses nothing. */
  lemma {:induction false} JoinInjective(a: seq<string>, b: seq<string>, c: char)
    requires a != [] && b != []
    requires forall i :: 0 <= i < |a| ==> Free(a[i], c)
    requires forall i :: 0 <= i < |b| ==> Free(b[i], c)
    requires Join(a, [c]) == Join(b, [c])
    ensures a == b
    decreases |a|
  {
    if |a| == 1 && |b| == 1 {
    } else if |a| == 1 {
      FreeNeverHasSeparator(a[0], b[0], Join(b[1..], [c]), c);
    } else if |b| == 1 {
      FreeNeverHasSeparator(b[0], a[0], Join(a[1..], [c]), c);
    } else {
      CutAtFirst(a[0], b[0], Join(a[1..], [c]), Join(b[1..], [c]), c);
      JoinInjective(a[1..], b[1..], c);
      assert a == [a[0]] + a[1..] && b == [b[0]] + b[1..];
    }
  }

  lemma {:induction false} JoinFree(parts: seq<string>, sep: string, c: char)
    requires Free(sep, c) && forall i :: 0 <= i < |parts| ==> Free(parts[i], c)
    ensures Free(Join(parts, sep), c)
  {
    if |parts| > 1 { JoinFree(parts[1..], sep, c); }
  }

  /** The pieces between the occurrences of c, none of which contains it. */
  function Cut(s: string, c: char): (pieces: seq<string>)
    ensures pieces != []
  {
    if s == "" then [""]
    else
      var rest := Cut(s[1..], c);
      if s[0] == c then [""] + rest else [[s[0]] + rest[0]] + rest[1..]
  }

  predicate AllFree(parts: seq<string>, c: char) {
    forall i :: 0 <= i < |parts| ==> Free(parts[i], c)
  }

  lemma {:induction false} CutJoins(s: string, c: char)
    ensures Join(Cut(s, c), [c]) == s && AllFree(Cut(s, c), c)
  {
    if s != "" {
      CutJoins(s[1..], c);
      var rest := Cut(s[1..], c);
      if s[0] == c {
        assert ([""] + rest)[1..] == rest;
        assert "" + [c] + s[1..] == s;
      } else {
        assert ([[s[0]] + rest[0]] + rest[1..])[1..] == rest[1..];
        assert [s[0]] + Join(rest, [c]) == s;
        if |rest| > 1 {
          var later := [c] + Join(rest[1..], [c]);
          assert [s[0]] + (rest[0] + later) == ([s[0]] + rest[0]) + later;
        }
      }
    }
  }

  /** What a text starts with before its first c, its first piece starts with. */
  lemma {:induction false} CutKeepsStart(s: string, start: string, c: char)
    requires start <= s && Free(start, c)
    ensures start <= Cut(s, c)[0]
  {
    if start != "" {
      assert s[0] == start[0];
      CutKeepsStart(s[1..], start[1..], c);
      assert start == [start[0]] + start[1..];
    }
  }

  function CutAll(parts: seq<string>, c: char): (pieces: seq<string>)
    ensures parts != [] ==> pieces != []
  {
    if parts == [] then [] else Cut(parts[0], c) + CutAll(parts[1..], c)
  }

  lemma {:induction false} JoinConcat(a: seq<string>, b: seq<string>, sep: string)
    requires a != [] && b != []
    ensures Join(a + b, sep) == Join(a, sep) + sep + Join(b, sep)
  {
    assert (a + b)[1..] == a[1..] + b;
    if |a| > 1 {
      JoinConcat(a[1..], b, sep);
      var x, y := Join(a[1..], sep), Join(b, sep);
      assert a[0] + sep + (x + sep + y) == a[0] + sep + x + sep + y;
    } else {
      assert a[1..] + b == b;
    }
  }

  lemma {:induction false} CutAllJoins(parts: seq<string>, c: char)
    ensures Join(CutAll(parts, c), [c]) == Join(parts, [c]) && AllFree(CutAll(parts, c), c)
  {
    if parts != [] {
      CutJoins(parts[0], c);
      CutAllJoins(parts[1..], c);
      if |parts| > 1 {
        JoinConcat(Cut(parts[0], c), CutAll(parts[1..], c), [c]);
      } else {
        assert CutAll(parts, c) == Cut(parts[0], c);
      }
    }
  }

  lemma {:induction false} CutAllKeepsStart(parts: seq<string>, part: string, start: string, c: char)
    requires part in parts && start <= part && Free(start, c)
    ensures exists k :: 0 <= k < |CutAll(parts, c)| && start <= CutAll(parts, c)[k]
  {
    var first := Cut(parts[0], c);
    if part == parts[0] {
      CutKeepsStart(part, start, c);
      assert start <= CutAll(parts, c)[0];
    } else {
      CutAllKeepsStart(parts[1..], part, start, c);
      var k :| 0 <= k < |CutAll(parts[1..], c)| && start <= CutAll(parts[1..], c)[k];
      assert CutAll(parts, c)[|first| + k] == CutAll(parts[1..], c)[k];
    }
  }

  // ----- strings.Fields -----

  /** The first space of s, or its length. */
  function WordEnd(s: string): (n: nat)
    ensures n <= |s| && (forall i :: 0 <= i < n ==> !IsSpace(s[i])) && (n < |s| ==> IsSpace(s[n]))
  {
    if s == [] || IsSpace(s[0]) then 0 else
      var n := 1 + WordEnd(s[1..]);
      assert forall i :: 1 <= i < n ==> s[i] == s[1..][i - 1];
      n
  }

  /** strings.Fields: the pieces between runs of white space. */
  function Fields(s: string): seq<string>
    decreases |s|
  {
    var t := TrimLeft(s);
    if t == [] then [] else [t[..WordEnd(t)]] + Fields(t[WordEnd(t)..])
  }

  predicate IsWord(s: string) {
    s != [] && forall i :: 0 <= i < |s| ==> !IsSpace(s[i])
  }

  lemma WordEndIs(w: string, rest: string)
    requires IsWord(w) && (rest != [] ==> IsSpace(rest[0]))
    ensures WordEnd(w + rest) == |w|
  {
    var s := w + rest;
    var n := WordEnd(s);
    assert forall i :: 0 <= i < |w| ==> s[i] == w[i];
    assert rest != [] ==> s[|w|] == rest[0];
  }

  lemma FieldsOfWord(w: string)
    requires IsWord(w)
    ensures Fields(w) == [w]
  {
    WordEndIs(w, "");
    assert w + "" == w && w[..|w|] == w && w[|w|..] == "";
    assert Fields("") == [];
  }

  lemma FieldsOfTwoWords(a: string, b: string)
    requires IsWord(a) && IsWord(b)
    ensures Fields(a + " " + b) == [a, b]
  {
    var rest := " " + b;
    var s := a + rest;
    assert s == a + " " + b;
    assert Fields(rest) == [b] by {
      assert rest[1..] == b && TrimLeft(b) == b;
      assert TrimLeft(rest) == b;
      FieldsOfWord(b);
      assert Fields(rest) == [b[..WordEnd(b)]] + Fields(b[WordEnd(b)..]);
    }
    assert TrimLeft(s) == s by { assert s[0] == a[0]; }
    WordEndIs(a, rest);
    assert s[..|a|] == a && s[|a|..] == rest;
    assert Fields(s) == [s[..WordEnd(s)]] + Fields(s[WordEnd(s)..]);
  }
}
