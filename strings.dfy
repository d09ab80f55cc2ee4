/**
  Character classes and the JavaScript string operations the action relies on:
  `trim`, `split` on one character, `split(/\s+/)`, and the scans that the
  regular expressions of the validators perform.
 */
module Strings {

  /** `\s` and the white space `String.prototype.trim` removes: the WhiteSpace
      and LineTerminator code points of ECMAScript (section 12.2 and 12.3 of ECMA-262). */
  predicate IsSpace(c: char) {
    || c == '\t' || c == '\n' || c == '\U{B}' || c == '\U{C}' || c == '\r' || c == ' '
    || c == '\U{A0}' || c == '\U{1680}' || ('\U{2000}' <= c <= '\U{200A}')
    || c == '\U{2028}' || c == '\U{2029}' || c == '\U{202F}' || c == '\U{205F}'
    || c == '\U{3000}' || c == '\U{FEFF}'
  }

  predicate IsNonSpace(c: char) { !IsSpace(c) }

  /** The characters a regular-expression `.` does not match. */
  predicate IsLineTerminator(c: char) {
    c == '\n' || c == '\r' || c == '\U{2028}' || c == '\U{2029}'
  }

  /** `\d`: an ASCII digit. */
  predicate IsDigit(c: char) { '0' <= c <= '9' }

  predicate IsLower(c: char) { 'a' <= c <= 'z' }

  predicate IsAlpha(c: char) { 'a' <= c <= 'z' || 'A' <= c <= 'Z' }

  /** `\w`: `[A-Za-z0-9_]`. */
  predicate IsWordChar(c: char) { IsAlpha(c) || IsDigit(c) || c == '_' }

  /** `'|"`: either quote character. */
  predicate IsQuote(c: char) { c == '\'' || c == '"' }

  /** Every character of `s` is in the class `p`. */
  predicate All(s: string, p: char -> bool) {
    forall k :: 0 <= k < |s| ==> p(s[k])
  }

  /** The end of the longest run of characters in the class `p` that starts
      at `i`: how far a greedy `p*` reaches from there. */
  function Scan(s: string, i: nat, p: char -> bool): (n: nat)
    requires i <= |s|
    ensures i <= n <= |s|
    ensures forall k :: i <= k < n ==> p(s[k])
    ensures n < |s| ==> !p(s[n])
    decreases |s| - i
  {
    if i == |s| || !p(s[i]) then i else Scan(s, i + 1, p)
  }

  /** A greedy scan stops exactly at the end of a prefix in the class when the
      next character is outside it. */
  lemma ScanOfPrefix(a: string, b: string, p: char -> bool)
    requires All(a, p)
    requires b != [] ==> !p(b[0])
    ensures Scan(a + b, 0, p) == |a|
  {
    assert forall k :: 0 <= k < |a| ==> (a + b)[k] == a[k];
    assert b != [] ==> (a + b)[|a|] == b[0];
  }

  /** A scan stops at the first character outside the class. */
  lemma ScanStopsAt(s: string, i: nat, n: nat, p: char -> bool)
    requires i <= n <= |s|
    requires forall k :: i <= k < n ==> p(s[k])
    requires n < |s| ==> !p(s[n])
    ensures Scan(s, i, p) == n
  {
    var r := Scan(s, i, p);
    assert r < |s| ==> !p(s[r]);
  }

  /** `ScanStopsAt` with the run given as a slice. */
  lemma ScanOverSlice(s: string, i: nat, n: nat, p: char -> bool)
    requires i <= n <= |s|
    requires All(s[i..n], p)
    requires n < |s| ==> !p(s[n])
    ensures Scan(s, i, p) == n
  {
    forall k | i <= k < n ensures p(s[k]) { assert s[k] == s[i..n][k - i]; }
    ScanStopsAt(s, i, n, p);
  }

  lemma Regroup(a: string, b: string, c: string, d: string)
    ensures a + b + c + d == a + (b + (c + d))
  {
  }

  lemma Regroup6(a: string, b: string, c: string, d: string, e: string, f: string)
    ensures a + b + c + d + e + f == a + (b + (c + (d + (e + f))))
  {
  }

  /** A run of characters in a class is a slice all in the class. */
  lemma AllSlice(s: string, i: nat, j: nat, p: char -> bool)
    requires i <= j <= |s|
    requires forall k :: i <= k < j ==> p(s[k])
    ensures All(s[i..j], p)
  {
    assert forall k :: 0 <= k < j - i ==> s[i..j][k] == s[i + k];
  }

  /** `s.indexOf(c)`, with `|s|` standing for "not found". */
  function IndexOf(s: string, c: char): (i: nat)
    ensures i <= |s|
    ensures forall k :: 0 <= k < i ==> s[k] != c
    ensures i < |s| ==> s[i] == c
    ensures i == |s| <==> c !in s
  {
    if |s| == 0 then 0 else if s[0] == c then 0 else 1 + IndexOf(s[1..], c)
  }

  /** Searching past a prefix that does not contain `c`. */
  lemma IndexOfAfter(a: string, b: string, c: char)
    requires c !in a
    ensures IndexOf(a + b, c) == |a| + IndexOf(b, c)
  {
    var i, j := IndexOf(a + b, c), IndexOf(b, c);
    assert forall k :: 0 <= k < |a| ==> (a + b)[k] == a[k];
    assert forall k :: 0 <= k < |b| ==> (a + b)[|a| + k] == b[k];
    assert i >= |a|;
    assert j < |b| ==> (a + b)[|a| + j] == c;
  }

  /** `s.split(c)` for a one-character separator: the pieces between
      consecutive occurrences of `c`; `""` splits into `[""]`. */
  function SplitOn(s: string, c: char): (parts: seq<string>)
    ensures |parts| >= 1 && parts[0] == s[..IndexOf(s, c)]
    decreases |s|
  {
    var i := IndexOf(s, c);
    if i == |s| then [s] else [s[..i]] + SplitOn(s[i + 1..], c)
  }

  /** `parts.join(c)`. */
  function Join(parts: seq<string>, c: char): string
  {
    if |parts| == 0 then ""
    else if |parts| == 1 then parts[0]
    else parts[0] + [c] + Join(parts[1..], c)
  }

  /** Splitting and joining again gives back the string. */
  lemma {:induction false} JoinSplit(s: string, c: char)
    ensures Join(SplitOn(s, c), c) == s
    decreases |s|
  {
    var i := IndexOf(s, c);
    if i < |s| {
      SplitStep(s, c);
      JoinSplit(s[i + 1..], c);
      CutAt(s, i);
    } else {
      SplitOnNone(s, c);
    }
  }

  /** A string is the part before position `i`, the character there, and the
      part after it. */
  lemma CutAt(s: string, i: nat)
    requires i < |s|
    ensures s[..i] + [s[i]] + s[i + 1..] == s
  {
  }

  /** A string without the separator is its own single piece. */
  lemma SplitOnNone(s: string, c: char)
    requires IndexOf(s, c) == |s|
    ensures SplitOn(s, c) == [s] && Join(SplitOn(s, c), c) == s
  {
  }

  /** Joining the pieces of a string with a separator in it: the piece before
      the first separator, the separator, and the join of the rest. */
  lemma SplitStep(s: string, c: char)
    requires IndexOf(s, c) < |s|
    ensures var i := IndexOf(s, c);
            Join(SplitOn(s, c), c) == s[..i] + [c] + Join(SplitOn(s[i + 1..], c), c)
  {
    var i := IndexOf(s, c);
    SplitOnAt(s, c);
    JoinCons(s[..i], SplitOn(s[i + 1..], c), c);
  }

  /** The pieces of a string with a separator in it. */
  lemma SplitOnAt(s: string, c: char)
    requires IndexOf(s, c) < |s|
    ensures var i := IndexOf(s, c);
            SplitOn(s, c) == [s[..i]] + SplitOn(s[i + 1..], c)
  {
  }

  /** Joining a piece in front of at least one more. */
  lemma JoinCons(head: string, rest: seq<string>, c: char)
    requires |rest| >= 1
    ensures Join([head] + rest, c) == head + [c] + Join(rest, c)
  {
    assert ([head] + rest)[1..] == rest;
  }

  /** Joining pieces that do not contain the separator and splitting again
      gives back the pieces. */
  lemma {:induction false} SplitJoin(parts: seq<string>, c: char)
    requires |parts| >= 1
    requires forall k :: 0 <= k < |parts| ==> c !in parts[k]
    ensures SplitOn(Join(parts, c), c) == parts
    decreases |parts|
  {
    if |parts| > 1 {
      var rest := Join(parts[1..], c);
      assert Join(parts, c) == parts[0] + [c] + rest;
      SplitOnFirst(parts[0], rest, c);
      SplitJoin(parts[1..], c);
      assert parts == [parts[0]] + parts[1..];
    }
  }

  /** Splitting a piece without the separator, the separator and more text
      splits off that piece. */
  lemma SplitOnFirst(p: string, rest: string, c: char)
    requires c !in p
    ensures SplitOn(p + [c] + rest, c) == [p] + SplitOn(rest, c)
  {
    var s := p + [c] + rest;
    assert s == p + ([c] + rest);
    IndexOfAfter(p, [c] + rest, c);
    assert IndexOf(s, c) == |p|;
    assert s[..|p|] == p;
    assert s[|p| + 1..] == rest;
  }

  /** A character in none of the pieces, other than the separator, is not in
      their join. */
  lemma {:induction false} JoinAvoids(parts: seq<string>, c: char, d: char)
    requires d != c
    requires forall k :: 0 <= k < |parts| ==> d !in parts[k]
    ensures d !in Join(parts, c)
    decreases |parts|
  {
    if |parts| > 1 {
      JoinAvoids(parts[1..], c, d);
    }
  }

  /** The join begins with the first piece. */
  lemma {:induction false} JoinStartsWith(parts: seq<string>, c: char)
    requires |parts| >= 1
    ensures |parts[0]| <= |Join(parts, c)|
    ensures Join(parts, c)[..|parts[0]|] == parts[0]
  {
    if |parts| > 1 {
      assert Join(parts, c) == parts[0] + ([c] + Join(parts[1..], c));
    }
  }

  /** `s.trimStart()`. */
  function TrimStart(s: string): (r: string)
    ensures |r| <= |s|
    ensures forall k :: 0 <= k < |s| - |r| ==> IsSpace(s[k])
    ensures r != [] ==> !IsSpace(r[0])
  {
    if |s| > 0 && IsSpace(s[0]) then TrimStart(s[1..]) else s
  }

  /** `s.trimEnd()`. */
  function TrimEnd(s: string): (r: string)
    ensures |r| <= |s|
    ensures forall k :: |r| <= k < |s| ==> IsSpace(s[k])
    ensures r != [] ==> !IsSpace(r[|r| - 1])
  {
    if |s| > 0 && IsSpace(s[|s| - 1]) then TrimEnd(s[..|s| - 1]) else s
  }

  /** `s.trim()`: `s` without its leading and trailing white space. */
  function Trim(s: string): (r: string)
    ensures |r| <= |s|
    ensures r != [] ==> !IsSpace(r[0]) && !IsSpace(r[|r| - 1])
    ensures r == [] <==> All(s, IsSpace)
  {
    var t := TrimStart(s);
    var r := TrimEnd(t);
    TrimStartIsSuffix(s);
    TrimEndIsPrefix(t);
    assert r != [] ==> r[0] == t[0];
    r
  }

  /** What `trimStart` keeps is a suffix of the string. */
  lemma {:induction false} TrimStartIsSuffix(s: string)
    ensures TrimStart(s) == s[|s| - |TrimStart(s)|..]
    decreases |s|
  {
    if |s| > 0 && IsSpace(s[0]) {
      TrimStartIsSuffix(s[1..]);
      assert s[1..][|s| - 1 - |TrimStart(s)|..] == s[|s| - |TrimStart(s)|..];
    }
  }

  /** What `trimEnd` keeps is a prefix of the string. */
  lemma {:induction false} TrimEndIsPrefix(s: string)
    ensures TrimEnd(s) == s[..|TrimEnd(s)|]
    decreases |s|
  {
    if |s| > 0 && IsSpace(s[|s| - 1]) {
      TrimEndIsPrefix(s[..|s| - 1]);
      assert s[..|s| - 1][..|TrimEnd(s)|] == s[..|TrimEnd(s)|];
    }
  }

  /** `trimStart` removes exactly the white space before a string that does
      not begin with white space. */
  lemma {:induction false} TrimStartPadded(p: string, r: string)
    requires All(p, IsSpace)
    requires r != [] ==> !IsSpace(r[0])
    ensures TrimStart(p + r) == r
    decreases |p|
  {
    if p != [] {
      assert (p + r)[1..] == p[1..] + r;
      TrimStartPadded(p[1..], r);
    }
  }

  /** `trimEnd` removes exactly the white space after a string that does not
      end with white space. */
  lemma {:induction false} TrimEndPadded(r: string, q: string)
    requires All(q, IsSpace)
    requires r != [] ==> !IsSpace(r[|r| - 1])
    ensures TrimEnd(r + q) == r
    decreases |q|
  {
    if q != [] {
      assert (r + q)[..|r + q| - 1] == r + q[..|q| - 1];
      TrimEndPadded(r, q[..|q| - 1]);
    }
  }

  /** Trimming removes exactly the white space around a string that neither
      begins nor ends with white space. */
  lemma TrimPadded(p: string, r: string, q: string)
    requires All(p, IsSpace) && All(q, IsSpace)
    requires r != [] ==> !IsSpace(r[0]) && !IsSpace(r[|r| - 1])
    ensures Trim(p + r + q) == r
  {
    if r == [] {
      assert p + r + q == p + q;
      TrimStartPadded(p + q, []);
      assert All(p + q, IsSpace) by {
        forall k | 0 <= k < |p + q| ensures IsSpace((p + q)[k]) {
          if k < |p| { assert (p + q)[k] == p[k]; } else { assert (p + q)[k] == q[k - |p|]; }
        }
      }
      assert p + q + [] == p + q;
    } else {
      assert p + r + q == p + (r + q);
      TrimStartPadded(p, r + q);
      TrimEndPadded(r, q);
    }
  }

  /** `s.split(/\s+/)`: the pieces between maximal runs of white space. */
  function SplitOnSpaces(s: string): (parts: seq<string>)
    ensures |parts| >= 1
    ensures |parts[0]| == Scan(s, 0, IsNonSpace) && parts[0] == s[..|parts[0]|]
    ensures |parts| >= 2 <==> !All(s, IsNonSpace)
    ensures forall k :: 0 <= k < |parts| ==> All(parts[k], IsNonSpace)
    decreases |s|
  {
    var i := Scan(s, 0, IsNonSpace);
    if i == |s| then [s]
    else
      var j := Scan(s, i, IsSpace);
      assert j > i;
      [s[..i]] + SplitOnSpaces(s[j..])
  }

  /** The first of the white-space separated tokens is `key` exactly when the
      text starts with `key` followed by white space, provided `key` is a
      non-empty run of non-space characters. */
  lemma {:induction false} FirstToken(t: string, key: string)
    requires key != [] && All(key, IsNonSpace)
    ensures (|SplitOnSpaces(t)| >= 2 && SplitOnSpaces(t)[0] == key)
        <==> (|t| > |key| && t[..|key|] == key && IsSpace(t[|key|]))
  {
    var parts := SplitOnSpaces(t);
    if |t| > |key| && t[..|key|] == key && IsSpace(t[|key|]) {
      assert t == key + t[|key|..];
      ScanOfPrefix(key, t[|key|..], IsNonSpace);
    }
  }
}
