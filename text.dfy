/** The JavaScript string operations the components rely on, over Dafny strings
    (sequences of Unicode scalar values): `toLowerCase` (ASCII letters),
    `trim`, `startsWith`, `includes`, `split`/`join` with a non-empty
    separator, and the decimal rendering of integers. */
module Text {

  // ---------------------------------------------------------------------------
  // Case

  function LowerChar(c: char): char {
    if 'A' <= c <= 'Z' then (c as int + 32) as char else c
  }

  /** `s.toLowerCase()` restricted to ASCII letters. */
  function Lower(s: string): (r: string)
    ensures |r| == |s|
    ensures forall i :: 0 <= i < |s| ==> r[i] == LowerChar(s[i])
  {
    seq(|s|, i requires 0 <= i < |s| => LowerChar(s[i]))
  }

  lemma LowerConcat(a: string, b: string)
    ensures Lower(a + b) == Lower(a) + Lower(b)
  {
    assert forall i :: 0 <= i < |a + b| ==> Lower(a + b)[i] == (Lower(a) + Lower(b))[i];
  }

  /** Lowering is the identity on text that has no ASCII capital letters. */
  lemma LowerNoCapitals(s: string)
    requires forall i :: 0 <= i < |s| ==> !('A' <= s[i] <= 'Z')
    ensures Lower(s) == s
  {
  }

  /** Lowering twice is lowering once. */
  lemma LowerIdempotent(s: string)
    ensures Lower(Lower(s)) == Lower(s)
  {
  }

  // ---------------------------------------------------------------------------
  // Whitespace and trim

  /** ECMAScript WhiteSpace and LineTerminator code points, which `trim` removes. */
  predicate IsWhitespace(c: char) {
    c == '\t' || c == '\n' || c == '\U{000B}' || c == '\U{000C}' || c == '\r' || c == ' '
    || c == '\U{00A0}' || c == '\U{1680}' || ('\U{2000}' <= c <= '\U{200A}')
    || c == '\U{2028}' || c == '\U{2029}' || c == '\U{202F}' || c == '\U{205F}'
    || c == '\U{3000}' || c == '\U{FEFF}'
  }

  function TrimStart(s: string): string
    decreases |s|
  {
    if s != [] && IsWhitespace(s[0]) then TrimStart(s[1..]) else s
  }

  function TrimEnd(s: string): string
    decreases |s|
  {
    if s != [] && IsWhitespace(s[|s| - 1]) then TrimEnd(s[..|s| - 1]) else s
  }

  /** `s.trim()`. */
  function Trim(s: string): string {
    TrimEnd(TrimStart(s))
  }

  lemma {:induction false} TrimStartIsSuffix(s: string) returns (k: nat)
    ensures k <= |s| && TrimStart(s) == s[k..]
    ensures forall j :: 0 <= j < k ==> IsWhitespace(s[j])
    ensures k < |s| ==> !IsWhitespace(s[k])
    decreases |s|
  {
    if s != [] && IsWhitespace(s[0]) {
      var k' := TrimStartIsSuffix(s[1..]);
      k := k' + 1;
      assert s[1..][k'..] == s[k..];
    } else {
      k := 0;
    }
  }

  lemma {:induction false} TrimEndIsPrefix(s: string) returns (m: nat)
    ensures m <= |s| && TrimEnd(s) == s[..m]
    ensures forall j :: m <= j < |s| ==> IsWhitespace(s[j])
    ensures m > 0 ==> !IsWhitespace(s[m - 1])
    decreases |s|
  {
    if s != [] && IsWhitespace(s[|s| - 1]) {
      m := TrimEndIsPrefix(s[..|s| - 1]);
      assert s[..|s| - 1][..m] == s[..m];
    } else {
      m := |s|;
    }
  }

  /** What `trim` leaves: the text from the first to the last non-whitespace
      character. It is empty iff the text is all whitespace; otherwise it
      starts with the first non-whitespace character, and it keeps every
      non-whitespace character of the text. */
  lemma TrimFacts(s: string)
    ensures Trim(s) == [] <==> forall j :: 0 <= j < |s| ==> IsWhitespace(s[j])
    ensures Trim(s) != [] ==> exists k :: 0 <= k < |s| && Trim(s)[0] == s[k] && !IsWhitespace(s[k])
                                 && forall j :: 0 <= j < k ==> IsWhitespace(s[j])
    ensures forall c :: !IsWhitespace(c) ==> (c in Trim(s) <==> c in s)
  {
    var k := TrimStartIsSuffix(s);
    var t := s[k..];
    var m := TrimEndIsPrefix(t);
    assert Trim(s) == t[..m];
    if m == 0 {
      assert k == |s|;
    } else {
      assert Trim(s)[0] == s[k];
    }
    forall c | !IsWhitespace(c) && c in s ensures c in Trim(s) {
      var j :| 0 <= j < |s| && s[j] == c;
      assert j >= k;
      assert t[j - k] == c;
      assert j - k < m;
      assert t[..m][j - k] == c;
    }
  }

  // ---------------------------------------------------------------------------
  // Prefixes and substrings

  /** `s.startsWith(prefix)`. */
  predicate StartsWith(s: string, prefix: string) {
    |prefix| <= |s| && s[..|prefix|] == prefix
  }

  /** `s.includes(sub)`: `sub` occurs in `s` at some position. */
  predicate Contains(s: string, sub: string)
    decreases |s|
  {
    StartsWith(s, sub) || (s != [] && Contains(s[1..], sub))
  }

  lemma {:induction false} ContainsAt(s: string, sub: string, i: nat)
    requires i + |sub| <= |s| && s[i..i + |sub|] == sub
    ensures Contains(s, sub)
    decreases i
  {
    if i > 0 {
      assert s[1..][i - 1..i - 1 + |sub|] == sub;
      ContainsAt(s[1..], sub, i - 1);
    }
  }

  lemma {:induction false} ContainsWitness(s: string, sub: string) returns (i: nat)
    requires Contains(s, sub)
    ensures i + |sub| <= |s| && s[i..i + |sub|] == sub
    decreases |s|
  {
    if StartsWith(s, sub) {
      i := 0;
    } else {
      var i' := ContainsWitness(s[1..], sub);
      i := i' + 1;
      assert s[1..][i'..i' + |sub|] == s[i..i + |sub|];
    }
  }

  /** `sub` occurs in `s` starting at position `i`. */
  predicate OccursAt(s: string, sub: string, i: int) {
    0 <= i && i + |sub| <= |s| && s[i..i + |sub|] == sub
  }

  /** Substring containment, stated positionally. */
  lemma ContainsIff(s: string, sub: string)
    ensures Contains(s, sub) <==> exists i :: OccursAt(s, sub, i)
  {
    if Contains(s, sub) {
      var i := ContainsWitness(s, sub);
      assert OccursAt(s, sub, i);
    }
    if exists i :: OccursAt(s, sub, i) {
      var i :| OccursAt(s, sub, i);
      ContainsAt(s, sub, i);
    }
  }

  /** A single character is contained iff it occurs. */
  lemma ContainsChar(s: string, c: char)
    ensures Contains(s, [c]) <==> c in s
  {
    ContainsIff(s, [c]);
    if c in s {
      var i :| 0 <= i < |s| && s[i] == c;
      assert s[i..i + 1] == [c];
      assert OccursAt(s, [c], i);
    }
    if Contains(s, [c]) {
      var i :| OccursAt(s, [c], i);
      assert s[i] == s[i..i + 1][0];
    }
  }

  /** A string containing `sub` contains its first character. */
  lemma ContainsFirstChar(s: string, sub: string)
    ensures Contains(s, sub) && sub != [] ==> sub[0] in s
  {
    if Contains(s, sub) && sub != [] {
      var i := ContainsWitness(s, sub);
      assert s[i] == s[i..i + |sub|][0];
    }
  }

  /** `s.indexOf(sub)`: the first position where `sub` occurs, or -1. */
  function IndexOf(s: string, sub: string): (r: int)
    ensures -1 <= r <= |s|
    ensures r >= 0 ==> OccursAt(s, sub, r)
    ensures forall j :: 0 <= j && (r < 0 || j < r) ==> !OccursAt(s, sub, j)
    decreases |s|
  {
    if StartsWith(s, sub) then 0
    else if s == [] then -1
    else
      var k := IndexOf(s[1..], sub);
      assert forall j :: 1 <= j && OccursAt(s, sub, j) ==> OccursAt(s[1..], sub, j - 1) by {
        forall j | 1 <= j && OccursAt(s, sub, j) ensures OccursAt(s[1..], sub, j - 1) {
          assert s[1..][j - 1..j - 1 + |sub|] == s[j..j + |sub|];
        }
      }
      if k < 0 then -1
      else
        assert s[k + 1..k + 1 + |sub|] == s[1..][k..k + |sub|];
        k + 1
  }

  /** `s.lastIndexOf(c)` for one character: the last position holding `c`, or -1. */
  function LastIndexOf(s: string, c: char): (r: int)
    ensures -1 <= r < |s|
    ensures r >= 0 ==> s[r] == c
    ensures forall j :: r < j < |s| ==> s[j] != c
    decreases |s|
  {
    if s == [] then -1
    else if s[|s| - 1] == c then |s| - 1
    else LastIndexOf(s[..|s| - 1], c)
  }

  /** The last `c` of `x + c + u` is the one before `u` when `u` has none. */
  lemma {:induction false} LastIndexOfBefore(x: string, c: char, u: string)
    requires c !in u
    ensures LastIndexOf(x + [c] + u, c) == |x|
    decreases |u|
  {
    var s := x + [c] + u;
    if u != [] {
      var u' := u[..|u| - 1];
      assert s[..|s| - 1] == x + [c] + u';
      assert s[|s| - 1] == u[|u| - 1];
      LastIndexOfBefore(x, c, u');
    }
  }

  // ---------------------------------------------------------------------------
  // split and join

  /** The scan behind `s.split(sep)`: `cur` is the piece being built. At each
      position a match of `sep` ends the current piece; otherwise one character
      moves into it. This is ECMAScript's left-to-right, non-overlapping search. */
  function SplitFrom(s: string, sep: string, cur: string): (r: seq<string>)
    requires |sep| > 0
    ensures |r| >= 1
    decreases |s|
  {
    if s == [] then [cur]
    else if StartsWith(s, sep) then [cur] + SplitFrom(s[|sep|..], sep, [])
    else SplitFrom(s[1..], sep, cur + [s[0]])
  }

  /** `s.split(sep)` for a non-empty separator: never an empty array. */
  function Split(s: string, sep: string): (r: seq<string>)
    requires |sep| > 0
    ensures |r| >= 1
  {
    SplitFrom(s, sep, [])
  }

  /** `parts.join(sep)`. */
  function Join(parts: seq<string>, sep: string): string
    decreases |parts|
  {
    if parts == [] then ""
    else if |parts| == 1 then parts[0]
    else parts[0] + sep + Join(parts[1..], sep)
  }

  lemma {:induction false} JoinSplitFrom(s: string, sep: string, cur: string)
    requires |sep| > 0
    ensures Join(SplitFrom(s, sep, cur), sep) == cur + s
    decreases |s|
  {
    if s == [] {
    } else if StartsWith(s, sep) {
      JoinSplitFrom(s[|sep|..], sep, []);
      var rest := SplitFrom(s[|sep|..], sep, []);
      assert SplitFrom(s, sep, cur) == [cur] + rest;
      assert ([cur] + rest)[1..] == rest;
      assert s == sep + s[|sep|..];
    } else {
      JoinSplitFrom(s[1..], sep, cur + [s[0]]);
      assert cur + [s[0]] + s[1..] == cur + s;
    }
  }

  /** Joining the pieces of a split with the same separator restores the text. */
  lemma JoinSplit(s: string, sep: string)
    requires |sep| > 0
    ensures Join(Split(s, sep), sep) == s
  {
    JoinSplitFrom(s, sep, []);
  }

  lemma {:induction false} SplitFromNoMatch(p: string, t: string, c: char, cur: string)
    requires c !in p
    ensures SplitFrom(p + t, [c], cur) == SplitFrom(t, [c], cur + p)
    decreases |p|
  {
    if p != [] {
      assert (p + t)[0] == p[0] && p[0] != c;
      assert (p + t)[..1] != [c];
      assert (p + t)[1..] == p[1..] + t;
      SplitFromNoMatch(p[1..], t, c, cur + [p[0]]);
      assert cur + [p[0]] + p[1..] == cur + p;
    } else {
      assert p + t == t;
      assert cur + p == cur;
    }
  }

  /** For a one-character separator, splitting its own join gives back the
      pieces, provided no piece contains the separator. */
  lemma {:induction false} SplitJoin(parts: seq<string>, c: char)
    requires |parts| >= 1
    requires forall i :: 0 <= i < |parts| ==> c !in parts[i]
    ensures Split(Join(parts, [c]), [c]) == parts
    decreases |parts|
  {
    if |parts| == 1 {
      SplitFromNoMatch(parts[0], [], c, []);
      assert parts[0] + [] == parts[0];
    } else {
      var rest := Join(parts[1..], [c]);
      assert Join(parts, [c]) == parts[0] + ([c] + rest);
      SplitFromNoMatch(parts[0], [c] + rest, c, []);
      assert [] + parts[0] == parts[0];
      assert StartsWith([c] + rest, [c]);
      assert ([c] + rest)[1..] == rest;
      SplitJoin(parts[1..], c);
      assert [parts[0]] + parts[1..] == parts;
    }
  }

  lemma {:induction false} SplitFromPiecesFree(s: string, c: char, cur: string)
    requires c !in cur
    ensures forall i :: 0 <= i < |SplitFrom(s, [c], cur)| ==> c !in SplitFrom(s, [c], cur)[i]
    decreases |s|
  {
    if s == [] {
    } else if StartsWith(s, [c]) {
      SplitFromPiecesFree(s[1..], c, []);
    } else {
      assert s[0] != c;
      SplitFromPiecesFree(s[1..], c, cur + [s[0]]);
    }
  }

  /** No piece of a split on one character contains that character. */
  lemma SplitPiecesFree(s: string, c: char)
    ensures forall i :: 0 <= i < |Split(s, [c])| ==> c !in Split(s, [c])[i]
  {
    SplitFromPiecesFree(s, c, []);
  }

  lemma {:induction false} SplitFromPieces(s: string, sep: string, cur: string)
    requires |sep| > 0
    ensures !Contains(s, sep) ==> SplitFrom(s, sep, cur) == [cur + s]
    ensures Contains(s, sep) ==> |SplitFrom(s, sep, cur)| > 1
    decreases |s|
  {
    if s == [] {
      assert cur + s == cur;
    } else if StartsWith(s, sep) {
    } else {
      SplitFromPieces(s[1..], sep, cur + [s[0]]);
      assert cur + [s[0]] + s[1..] == cur + s;
    }
  }

  /** A split yields more than one piece iff the separator occurs, and the
      text itself when it does not. */
  lemma SplitPieces(s: string, sep: string)
    requires |sep| > 0
    ensures |Split(s, sep)| > 1 <==> Contains(s, sep)
    ensures !Contains(s, sep) ==> Split(s, sep) == [s]
  {
    SplitFromPieces(s, sep, []);
    assert [] + s == s;
  }

  lemma {:induction false} SplitFromFirst(s: string, sep: string, cur: string)
    requires |sep| > 0
    ensures SplitFrom(s, sep, cur)[0] ==
            cur + (if IndexOf(s, sep) < 0 then s else s[..IndexOf(s, sep)])
    decreases |s|
  {
    if s == [] {
      assert cur + s == cur;
    } else if StartsWith(s, sep) {
      assert cur + s[..0] == cur;
    } else {
      SplitFromFirst(s[1..], sep, cur + [s[0]]);
      var k := IndexOf(s[1..], sep);
      if k < 0 {
        assert cur + [s[0]] + s[1..] == cur + s;
      } else {
        assert cur + [s[0]] + s[1..][..k] == cur + s[..k + 1];
      }
    }
  }

  /** The first piece of a split is the text before the first separator. */
  lemma SplitFirst(s: string, sep: string)
    requires |sep| > 0
    ensures Split(s, sep)[0] == if IndexOf(s, sep) < 0 then s else s[..IndexOf(s, sep)]
  {
    SplitFromFirst(s, sep, []);
    assert [] + s == s;
    if IndexOf(s, sep) >= 0 {
      assert [] + s[..IndexOf(s, sep)] == s[..IndexOf(s, sep)];
    }
  }

  /** The separator occurs iff `indexOf` finds it. */
  lemma IndexOfContains(s: string, sub: string)
    ensures IndexOf(s, sub) >= 0 <==> Contains(s, sub)
  {
    ContainsIff(s, sub);
  }

  // ---------------------------------------------------------------------------
  // The last element of a split on one character

  function Last(parts: seq<string>): string
    requires |parts| >= 1
  {
    parts[|parts| - 1]
  }

  lemma {:induction false} SplitFromLast(x: string, u: string, c: char, cur: string)
    requires c !in u
    ensures Last(SplitFrom(x + [c] + u, [c], cur)) == u
    decreases |x|
  {
    if x == [] {
      assert x + [c] + u == [c] + u;
      assert ([c] + u)[1..] == u;
      SplitFromNoMatch(u, [], c, []);
      assert u + [] == u;
    } else {
      assert (x + [c] + u)[1..] == x[1..] + [c] + u;
      if x[0] == c {
        SplitFromLast(x[1..], u, c, []);
      } else {
        SplitFromLast(x[1..], u, c, cur + [x[0]]);
      }
    }
  }

  /** `(x + c + u).split(c).pop()` is `u` when `u` has no `c`. */
  lemma SplitLast(x: string, u: string, c: char)
    requires c !in u
    ensures Last(Split(x + [c] + u, [c])) == u
  {
    SplitFromLast(x, u, c, []);
  }

  /** Without the separator, a split yields the text itself. */
  lemma SplitNoSeparator(s: string, c: char)
    requires c !in s
    ensures Split(s, [c]) == [s]
  {
    SplitFromNoMatch(s, [], c, []);
    assert s + [] == s;
    assert [] + s == s;
  }

  // ---------------------------------------------------------------------------
  // Decimal digits

  predicate IsDigit(c: char) {
    '0' <= c <= '9'
  }

  function DigitChar(d: nat): (c: char)
    requires d < 10
    ensures IsDigit(c) && c as int - '0' as int == d
  {
    ('0' as int + d) as char
  }

  /** `Number.prototype.toString()` of a non-negative integer. */
  function NatToString(n: nat): (r: string)
    ensures |r| >= 1
    decreases n
  {
    if n < 10 then [DigitChar(n)] else NatToString(n / 10) + [DigitChar(n % 10)]
  }

  /** `Number.prototype.toString()` of an integer. */
  function IntToString(i: int): string {
    if i < 0 then "-" + NatToString(-i) else NatToString(i)
  }

  /** The value of a string of decimal digits (the inverse of `NatToString`). */
  function ParseNat(s: string): nat
    requires forall j :: 0 <= j < |s| ==> IsDigit(s[j])
    decreases |s|
  {
    if s == [] then 0 else ParseNat(s[..|s| - 1]) * 10 + DigitValue(s[|s| - 1])
  }

  function DigitValue(c: char): nat
    requires IsDigit(c)
  {
    c as int - '0' as int
  }

  /** Decimal rendering is made of digits, and reading it back gives the number. */
  lemma {:induction false} NatToStringRoundTrip(n: nat)
    ensures forall j :: 0 <= j < |NatToString(n)| ==> IsDigit(NatToString(n)[j])
    ensures ParseNat(NatToString(n)) == n
    decreases n
  {
    if n >= 10 {
      NatToStringRoundTrip(n / 10);
      var s := NatToString(n);
      assert s[..|s| - 1] == NatToString(n / 10);
    }
  }
}
