/**
  The line parser of `metadata.rb` (`metadata` in src/metadata.ts): it keeps
  the significant lines, collects every `supports` line in file order and,
  for each of nine known scalar keys, records the body of the leftmost match
  of `(\w+)\s+('|")(.*?)('|")` on the line (or `""` when nothing matches),
  the last occurrence of a key winning.
 */
module MetadataFile {
  import opened Wrappers
  import opened Strings

  /** A value of the parsed map: a scalar field or the list of `supports` entries. */
  datatype Value = Scalar(text: string) | List(items: seq<string>)

  /** The scalar keys the parser records, in the order the source lists them. */
  const AllowedKeys: seq<string> := [
    "name", "maintainer", "maintainer_email", "license", "description",
    "source_url", "issues_url", "chef_version", "version"
  ]

  const SupportsKey: string := "supports"

  // ---------------------------------------------------------------------------
  // The filter over the raw lines

  /** A line survives the filter unless its trimmed text is empty, starts with
      `#`, or matches `/^%\b/` (a `%` followed by a word character, as in `%w(`). */
  predicate Kept(line: string) {
    var t := Trim(line);
    t != [] && t[0] != '#' && !(|t| >= 2 && t[0] == '%' && IsWordChar(t[1]))
  }

  /** `lines.filter(Kept)`. */
  function KeptLines(lines: seq<string>): (r: seq<string>)
    ensures |r| <= |lines|
    ensures forall line :: line in r <==> line in lines && Kept(line)
  {
    if lines == [] then []
    else
      var last := lines[|lines| - 1];
      KeptLines(lines[..|lines| - 1]) + (if Kept(last) then [last] else [])
  }

  // ---------------------------------------------------------------------------
  // The regular expression /(\w+)\s+('|")(.*?)('|")/ applied with String.match

  /** The class of characters the lazy `(.*?)` may pass over before it reaches
      the closing quote. */
  predicate IsLazyBodyChar(c: char) { !IsQuote(c) && !IsLineTerminator(c) }

  /** `s[i..j]`, `s[j..k]`, `s[k]`, `s[k+1..m]`, `s[m]` spell `\w+`, `\s+`, a
      quote, `.*?` and a quote: one way the expression matches at position `i`. */
  ghost predicate IsMatch(s: string, i: nat, j: nat, k: nat, m: nat) {
    && i < j < k < m < |s|
    && (forall x :: i <= x < j ==> IsWordChar(s[x]))
    && (forall x :: j <= x < k ==> IsSpace(s[x]))
    && IsQuote(s[k])
    && (forall x :: k < x < m ==> !IsLineTerminator(s[x]))
    && IsQuote(s[m])
  }

  /** The match the backtracking engine commits to at position `i`: greedy
      `\w+` and `\s+`, and the lazy `.*?` stopping at the first quote. */
  ghost predicate IsChosenMatch(s: string, i: nat, j: nat, k: nat, m: nat) {
    IsMatch(s, i, j, k, m) && forall x :: k < x < m ==> !IsQuote(s[x])
  }

  /** The third capture group of the expression when a match starts at `i`:
      greedy `\w+`, greedy `\s+`, a quote, then the body up to the first
      quote or line terminator, which must be a quote. */
  function MatchAt(s: string, i: nat): Option<string>
    requires i <= |s|
  {
    if i == |s| || !IsWordChar(s[i]) then None
    else
      var j := Scan(s, i, IsWordChar);
      var k := Scan(s, j, IsSpace);
      if k == j || k == |s| || !IsQuote(s[k]) then None
      else
        var m := Scan(s, k + 1, IsLazyBodyChar);
        if m < |s| && IsQuote(s[m]) then Some(s[k + 1..m]) else None
  }

  /** `MatchAt` yields the capture of the engine's match at `i` when there is
      one, and nothing exactly when no match of the expression starts at `i`. */
  lemma MatchAtSound(s: string, i: nat)
    requires i <= |s|
    ensures MatchAt(s, i).Some? ==>
              exists j: nat, k: nat, m: nat :: IsChosenMatch(s, i, j, k, m) && MatchAt(s, i).value == s[k + 1..m]
    ensures MatchAt(s, i).None? ==> forall j: nat, k: nat, m: nat :: !IsMatch(s, i, j, k, m)
  {
    if i < |s| && IsWordChar(s[i]) {
      var j := Scan(s, i, IsWordChar);
      var k := Scan(s, j, IsSpace);
      MatchesAreAnchored(s, i);
      if k != j && k < |s| && IsQuote(s[k]) {
        var m := Scan(s, k + 1, IsLazyBodyChar);
        if m < |s| && IsQuote(s[m]) {
          assert IsChosenMatch(s, i, j, k, m);
        }
      }
    }
  }

  /** Any match at `i` has its `\w+` and `\s+` ending where the greedy scans
      end, and its closing quote no earlier than the first quote or line
      terminator after the opening one, which is then a quote. */
  lemma MatchIsAnchored(s: string, i: nat, j: nat, k: nat, m: nat)
    requires IsMatch(s, i, j, k, m)
    ensures j == Scan(s, i, IsWordChar)
    ensures k == Scan(s, j, IsSpace)
    ensures Scan(s, k + 1, IsLazyBodyChar) <= m && IsQuote(s[Scan(s, k + 1, IsLazyBodyChar)])
  {
    var j0 := Scan(s, i, IsWordChar);
    assert !IsWordChar(s[j]);
    assert j0 < |s| ==> !IsWordChar(s[j0]);
    assert j0 == j;
    var k0 := Scan(s, j, IsSpace);
    assert !IsSpace(s[k]);
    assert k0 < |s| ==> !IsSpace(s[k0]);
    assert k0 == k;
    var m0 := Scan(s, k + 1, IsLazyBodyChar);
    assert !IsLazyBodyChar(s[m]);
    assert m0 < |s| ==> !IsLazyBodyChar(s[m0]);
    assert m0 <= m;
  }

  lemma MatchesAreAnchored(s: string, i: nat)
    requires i <= |s|
    ensures forall j: nat, k: nat, m: nat :: IsMatch(s, i, j, k, m) ==>
              && j == Scan(s, i, IsWordChar)
              && k == Scan(s, j, IsSpace)
              && Scan(s, k + 1, IsLazyBodyChar) <= m
              && IsQuote(s[Scan(s, k + 1, IsLazyBodyChar)])
  {
    forall j: nat, k: nat, m: nat | IsMatch(s, i, j, k, m)
      ensures j == Scan(s, i, IsWordChar) && k == Scan(s, j, IsSpace)
      ensures Scan(s, k + 1, IsLazyBodyChar) <= m && IsQuote(s[Scan(s, k + 1, IsLazyBodyChar)])
    {
      MatchIsAnchored(s, i, j, k, m);
    }
  }

  /** When the engine's match at `i` is known, `MatchAt` yields its capture. */
  lemma ChosenMatchYields(s: string, i: nat, j: nat, k: nat, m: nat)
    requires IsChosenMatch(s, i, j, k, m)
    ensures MatchAt(s, i) == Some(s[k + 1..m])
  {
    MatchIsAnchored(s, i, j, k, m);
  }

  /** The first of `f(i)`, `f(i + 1)`, ..., `f(n - 1)` that is not `None`. */
  function Leftmost(f: nat -> Option<string>, i: nat, n: nat): Option<string>
    decreases n - i
  {
    if i >= n then None
    else match f(i)
      case Some(v) => Some(v)
      case None => Leftmost(f, i + 1, n)
  }

  /** What `Leftmost` finds is at a position with nothing before it. */
  lemma {:induction false} LeftmostFound(f: nat -> Option<string>, i: nat, n: nat)
    ensures Leftmost(f, i, n).Some? ==>
              exists p :: i <= p < n && f(p) == Leftmost(f, i, n) && forall q :: i <= q < p ==> f(q).None?
    decreases n - i
  {
    if i < n {
      if f(i).Some? {
        assert f(i) == Leftmost(f, i, n);
      } else {
        LeftmostFound(f, i + 1, n);
        if Leftmost(f, i + 1, n).Some? {
          var p :| i + 1 <= p < n && f(p) == Leftmost(f, i + 1, n) && forall q :: i + 1 <= q < p ==> f(q).None?;
          assert forall q :: i <= q < p ==> f(q).None?;
        }
      }
    }
  }

  /** `Leftmost` finds nothing exactly when every position has nothing. */
  lemma {:induction false} LeftmostNone(f: nat -> Option<string>, i: nat, n: nat)
    ensures Leftmost(f, i, n).None? <==> forall q :: i <= q < n ==> f(q).None?
    decreases n - i
  {
    if i < n {
      if f(i).Some? {
        assert Leftmost(f, i, n).Some?;
      } else {
        LeftmostNone(f, i + 1, n);
      }
    }
  }

  /** The match at position `q`, and nothing past the end. */
  function MatchesOf(s: string): nat -> Option<string> {
    (q: nat) => if q <= |s| then MatchAt(s, q) else None
  }

  /** `String.match`: the capture of the match starting at the leftmost
      position from `i` on. */
  function FirstMatch(s: string, i: nat): Option<string>
    requires i <= |s|
  {
    Leftmost(MatchesOf(s), i, |s|)
  }

  /** `FirstMatch` finds the match at the leftmost position that has one, and
      finds nothing exactly when no position has one. */
  lemma FirstMatchIsLeftmost(s: string, i: nat)
    requires i <= |s|
    ensures FirstMatch(s, i).Some? ==>
              exists p :: i <= p < |s| && MatchAt(s, p) == FirstMatch(s, i)
                          && forall q :: i <= q < p ==> MatchAt(s, q).None?
    ensures FirstMatch(s, i).None? <==> forall q :: i <= q <= |s| ==> MatchAt(s, q).None?
  {
    var f := MatchesOf(s);
    LeftmostFound(f, i, |s|);
    LeftmostNone(f, i, |s|);
    assert forall q :: 0 <= q <= |s| ==> f(q) == MatchAt(s, q);
    assert MatchAt(s, |s|).None?;
  }

  /** The value the parser stores for a scalar key: `item ? item[3] : ''`. */
  function ScalarValue(line: string): string {
    FirstMatch(line, 0).GetOr("")
  }

  /** For a line that starts with a key, white space and a quote, the stored
      value is the text up to the next quote of either kind. */
  lemma QuotedValueAfterKey(key: string, gap: string, q1: char, v: string, q2: char, rest: string)
    requires key != [] && All(key, IsWordChar)
    requires gap != [] && All(gap, IsSpace)
    requires IsQuote(q1) && IsQuote(q2)
    requires All(v, IsLazyBodyChar)
    ensures ScalarValue(key + gap + [q1] + v + [q2] + rest) == v
  {
    var s := key + gap + [q1] + v + [q2] + rest;
    var j, k := |key|, |key| + |gap|;
    var m := k + 1 + |v|;
    assert forall x :: 0 <= x < j ==> s[x] == key[x];
    assert forall x :: j <= x < k ==> s[x] == gap[x - j];
    assert forall x :: k < x < m ==> s[x] == v[x - k - 1];
    assert s[k] == q1 && s[m] == q2;
    assert s[k + 1..m] == v;
    assert IsChosenMatch(s, 0, j, k, m);
    ChosenMatchYields(s, 0, j, k, m);
  }

  /** The value ends at the first quote of either kind, so an apostrophe
      inside a double-quoted value cuts it short. */
  lemma ApostropheEndsValue()
    ensures ScalarValue("maintainer \"O'Brien\"") == "O"
  {
    QuotedValueAfterKey("maintainer", " ", '"', "O", '\'', "Brien\"");
    assert "maintainer" + " " + ['"'] + "O" + ['\''] + "Brien\"" == "maintainer \"O'Brien\"";
  }

  /** `s[k]` is a quote, `s[j..k]` is white space, and the character before
      it is a word character: where `(\w+)\s+('|")` can end. */
  ghost predicate QuoteAfterWordAndSpace(s: string, j: nat, k: nat) {
    0 < j < k < |s| && IsWordChar(s[j - 1]) && All(s[j..k], IsSpace) && IsQuote(s[k])
  }

  /** A line in which no quote follows a word character and white space,
      such as `name :java` or `name :foo, 'bar'`, has no match anywhere, so
      the stored value is the empty string. */
  lemma UnquotedValueIsEmpty(line: string)
    requires forall j: nat, k: nat :: !QuoteAfterWordAndSpace(line, j, k)
    ensures ScalarValue(line) == ""
  {
    forall q | 0 <= q <= |line| ensures MatchAt(line, q).None? {
      MatchNeedsSpacedQuote(line, q);
    }
    FirstMatchIsLeftmost(line, 0);
  }

  /** Every match has a quote right after white space that follows a word
      character. */
  lemma MatchNeedsSpacedQuote(s: string, i: nat)
    requires i <= |s|
    ensures MatchAt(s, i).Some? ==> exists j: nat, k: nat :: QuoteAfterWordAndSpace(s, j, k)
  {
    if MatchAt(s, i).Some? {
      var j := Scan(s, i, IsWordChar);
      var k := Scan(s, j, IsSpace);
      AllSlice(s, j, k, IsSpace);
      assert QuoteAfterWordAndSpace(s, j, k);
    }
  }

  // ---------------------------------------------------------------------------
  // The loop over the kept lines

  /** The parser's mutable state: the map built so far and the `supports` array. */
  datatype State = State(structure: map<string, Value>, supports: seq<string>)

  const Start: State := State(map[], [])

  /** One iteration of the `for` loop over a kept line. */
  function Step(st: State, element: string): State {
    var trimmed := Trim(element);
    var parts := SplitOnSpaces(trimmed);
    if |parts| < 2 then st
    else
      var key := parts[0];
      if key == SupportsKey then
        st.(supports := st.supports + [Trim(trimmed[|key|..])])
      else if key in AllowedKeys then
        st.(structure := st.structure[key := Scalar(ScalarValue(element))])
      else st
  }

  /** The state after the loop has run over `elements`. */
  function Run(st: State, elements: seq<string>): State {
    if elements == [] then st
    else Step(Run(st, elements[..|elements| - 1]), elements[|elements| - 1])
  }

  /** The map `metadata` returns for a file with these lines: the loop's map
      with `supports` set to the collected entries. */
  function MetadataSpec(lines: seq<string>): map<string, Value> {
    Completed(Run(Start, KeptLines(lines)))
  }

  /** The map after the loop: `supports` bound to the collected entries. */
  function Completed(st: State): map<string, Value> {
    st.structure[SupportsKey := List(st.supports)]
  }

  /** `metadata` over the lines of the file. */
  method Metadata(lines: seq<string>) returns (data: map<string, Value>)
    ensures data == MetadataSpec(lines)
  {
    var metadataStructure: map<string, Value> := map[];
    var supports: seq<string> := [];
    var arr := KeptLines(lines);
    for i := 0 to |arr|
      invariant State(metadataStructure, supports) == Run(Start, arr[..i])
    {
      RunStep(arr, i);
      ghost var before := State(metadataStructure, supports);
      var element := arr[i];
      var trimmedElement := Trim(element);
      var parts := SplitOnSpaces(trimmedElement);
      if |parts| < 2 {
        assert Step(before, element) == before;
        continue;
      }
      var key := parts[0];
      if key == SupportsKey {
        var value := Trim(trimmedElement[|key|..]);
        supports := supports + [value];
        assert State(metadataStructure, supports) == Step(before, element);
      } else if key in AllowedKeys {
        var value := ScalarValue(element);
        metadataStructure := metadataStructure[key := Scalar(value)];
        assert State(metadataStructure, supports) == Step(before, element);
      } else {
        assert Step(before, element) == before;
      }
    }
    assert arr[..|arr|] == arr;
    metadataStructure := metadataStructure[SupportsKey := List(supports)];
    data := metadataStructure;
  }

  /** The loop's state after one more line. */
  lemma RunStep(elements: seq<string>, i: nat)
    requires i < |elements|
    ensures Run(Start, elements[..i + 1]) == Step(Run(Start, elements[..i]), elements[i])
  {
    assert elements[..i + 1][..i] == elements[..i];
  }

  // ---------------------------------------------------------------------------
  // What one line contributes, stated on the line's characters

  /** The trimmed line starts with `key` followed by white space. */
  predicate StartsWithKey(line: string, key: string) {
    var t := Trim(line);
    |t| > |key| && t[..|key|] == key && IsSpace(t[|key|])
  }

  /** A `supports` line. */
  predicate IsSupportsLine(line: string) { StartsWithKey(line, SupportsKey) }

  /** A line declaring the allow-listed scalar key `key`. */
  predicate IsScalarLine(line: string, key: string) {
    key in AllowedKeys && StartsWithKey(line, key)
  }

  /** The entry a `supports` line appends: the trimmed text after the keyword,
      quotes kept. */
  function SupportsEntry(line: string): string
    requires IsSupportsLine(line)
  {
    Trim(Trim(line)[|SupportsKey|..])
  }

  /** The lines that contribute nothing:
      blank, comment, `%w(` loop header, or a single token. */
  predicate IsIgnoredLine(line: string) {
    var t := Trim(line);
    || t == []
    || t[0] == '#'
    || (|t| >= 2 && t[0] == '%' && IsWordChar(t[1]))
    || All(t, IsNonSpace)
  }

  /** The entries of the `supports` list. */
  function Supports(data: map<string, Value>): seq<string> {
    if SupportsKey in data && data[SupportsKey].List? then data[SupportsKey].items else []
  }

  lemma KeysAreWords()
    ensures forall n :: 0 <= n < |AllowedKeys| ==> AllowedKeys[n] != [] && All(AllowedKeys[n], IsNonSpace)
    ensures SupportsKey != [] && All(SupportsKey, IsNonSpace)
    ensures SupportsKey !in AllowedKeys
  {
  }

  /** The step of the loop, stated on the line's characters. */
  lemma StepByLine(st: State, line: string)
    requires Kept(line)
    ensures IsSupportsLine(line) ==> Step(st, line) == st.(supports := st.supports + [SupportsEntry(line)])
    ensures forall key :: IsScalarLine(line, key) ==>
              Step(st, line) == st.(structure := st.structure[key := Scalar(ScalarValue(line))])
    ensures (!IsSupportsLine(line) && forall key :: !IsScalarLine(line, key)) ==> Step(st, line) == st
  {
    var t := Trim(line);
    var parts := SplitOnSpaces(t);
    KeysAreWords();
    FirstToken(t, SupportsKey);
    forall n | 0 <= n < |AllowedKeys| {
      FirstToken(t, AllowedKeys[n]);
    }
    if |parts| >= 2 && parts[0] in AllowedKeys {
      assert IsScalarLine(line, parts[0]);
    }
    forall key | IsScalarLine(line, key)
      ensures Step(st, line) == st.(structure := st.structure[key := Scalar(ScalarValue(line))])
    {
      var n :| 0 <= n < |AllowedKeys| && AllowedKeys[n] == key;
      assert parts[0] == key;
    }
  }

  /** `supports` lines and scalar lines always pass the filter. */
  lemma KindsNeedKept(line: string)
    ensures IsSupportsLine(line) ==> Kept(line)
    ensures forall key :: IsScalarLine(line, key) ==> Kept(line)
  {
    var t := Trim(line);
    if IsSupportsLine(line) {
      assert t[0] == 's';
    }
    forall key | IsScalarLine(line, key) ensures Kept(line) {
      assert t[0] == key[0];
    }
  }

  /** Appending a `supports` line appends exactly its entry and changes
      nothing else. */
  lemma SupportsLineAppends(lines: seq<string>, line: string)
    requires IsSupportsLine(line)
    ensures MetadataSpec(lines + [line]) ==
              MetadataSpec(lines)[SupportsKey := List(Supports(MetadataSpec(lines)) + [SupportsEntry(line)])]
  {
    var st := Run(Start, KeptLines(lines));
    KindsNeedKept(line);
    AppendKept(lines, line);
    StepOfSupportsLine(st, line);
    CompletedAfterPush(st, SupportsEntry(line));
  }

  lemma StepOfSupportsLine(st: State, line: string)
    requires IsSupportsLine(line)
    ensures Step(st, line) == st.(supports := st.supports + [SupportsEntry(line)])
  {
    KindsNeedKept(line);
    StepByLine(st, line);
  }

  lemma CompletedAfterPush(st: State, entry: string)
    ensures Completed(st.(supports := st.supports + [entry]))
         == Completed(st)[SupportsKey := List(Supports(Completed(st)) + [entry])]
  {
  }

  /** Appending a line for a scalar key sets that key to the line's quoted
      value, whatever it held before: the last occurrence wins. */
  lemma ScalarLineSets(lines: seq<string>, line: string, key: string)
    requires IsScalarLine(line, key)
    ensures MetadataSpec(lines + [line]) == MetadataSpec(lines)[key := Scalar(ScalarValue(line))]
  {
    var st := Run(Start, KeptLines(lines));
    KindsNeedKept(line);
    AppendKept(lines, line);
    StepOfScalarLine(st, line, key);
    CompletedAfterSet(st, key, Scalar(ScalarValue(line)));
  }

  lemma StepOfScalarLine(st: State, line: string, key: string)
    requires IsScalarLine(line, key)
    ensures Step(st, line) == st.(structure := st.structure[key := Scalar(ScalarValue(line))])
    ensures key != SupportsKey
  {
    KindsNeedKept(line);
    KeysAreWords();
    StepByLine(st, line);
  }

  lemma CompletedAfterSet(st: State, key: string, v: Value)
    requires key != SupportsKey
    ensures Completed(st.(structure := st.structure[key := v])) == Completed(st)[key := v]
  {
  }

  /** Any other line, and in particular a line of an unknown keyword such as
      `depends` or `gem`, leaves the result as it was. */
  lemma OtherLineInert(lines: seq<string>, line: string)
    requires !IsSupportsLine(line)
    requires forall key :: !IsScalarLine(line, key)
    ensures MetadataSpec(lines + [line]) == MetadataSpec(lines)
  {
    var st := Run(Start, KeptLines(lines));
    AppendKept(lines, line);
    if Kept(line) {
      StepByLine(st, line);
    }
    assert Run(Start, KeptLines(lines + [line])) == st;
  }

  lemma KeptLinesAppend(lines: seq<string>, line: string)
    ensures KeptLines(lines + [line]) == KeptLines(lines) + (if Kept(line) then [line] else [])
  {
    assert (lines + [line])[..|lines|] == lines;
  }

  lemma RunAppend(st: State, elements: seq<string>, element: string)
    ensures Run(st, elements + [element]) == Step(Run(st, elements), element)
  {
    assert (elements + [element])[..|elements|] == elements;
  }

  lemma AppendKept(lines: seq<string>, line: string)
    ensures Run(Start, KeptLines(lines + [line]))
         == if Kept(line) then Step(Run(Start, KeptLines(lines)), line) else Run(Start, KeptLines(lines))
  {
    KeptLinesAppend(lines, line);
    if Kept(line) {
      RunAppend(Start, KeptLines(lines), line);
    } else {
      assert KeptLines(lines + [line]) == KeptLines(lines);
    }
  }

  /** An ignored line is neither a `supports` line nor a scalar line. */
  lemma IgnoredLineIsInert(line: string)
    requires IsIgnoredLine(line)
    ensures !IsSupportsLine(line) && forall key :: !IsScalarLine(line, key)
  {
    KindsNeedKept(line);
  }

  /** A blank line, a comment, a `%w(` header or a single-token line such as
      `end` contributes nothing, wherever it stands in the file. */
  lemma {:induction false} IgnoredLineContributesNothing(before: seq<string>, line: string, after: seq<string>)
    requires IsIgnoredLine(line)
    ensures MetadataSpec(before + [line] + after) == MetadataSpec(before + after)
    decreases |after|
  {
    IgnoredLineIsInert(line);
    if after == [] {
      assert before + [line] + after == before + [line];
      assert before + after == before;
      OtherLineInert(before, line);
    } else {
      var init, last := after[..|after| - 1], after[|after| - 1];
      assert before + [line] + after == (before + [line] + init) + [last];
      assert before + after == (before + init) + [last];
      IgnoredLineContributesNothing(before, line, init);
      LastLine(before + [line] + init, before + init, last);
    }
  }

  /** Two files with the same result keep the same result when one more line
      is added to both. */
  lemma LastLine(a: seq<string>, b: seq<string>, line: string)
    requires MetadataSpec(a) == MetadataSpec(b)
    ensures MetadataSpec(a + [line]) == MetadataSpec(b + [line])
  {
    if IsSupportsLine(line) {
      SupportsLineAppends(a, line);
      SupportsLineAppends(b, line);
    } else if key :| IsScalarLine(line, key) {
      ScalarLineSets(a, line, key);
      ScalarLineSets(b, line, key);
    } else {
      OtherLineInert(a, line);
      OtherLineInert(b, line);
    }
  }

  /** The result always binds `supports` to a list, and binds no key other
      than `supports` and the nine allow-listed ones. */
  lemma {:induction false} ResultKeys(lines: seq<string>)
    ensures SupportsKey in MetadataSpec(lines) && MetadataSpec(lines)[SupportsKey].List?
    ensures forall key :: key in MetadataSpec(lines) ==> key == SupportsKey || key in AllowedKeys
    ensures forall key :: key in MetadataSpec(lines) && key != SupportsKey ==> MetadataSpec(lines)[key].Scalar?
    decreases |lines|
  {
    if lines != [] {
      var init, last := lines[..|lines| - 1], lines[|lines| - 1];
      assert lines == init + [last];
      ResultKeys(init);
      if IsSupportsLine(last) {
        SupportsLineAppends(init, last);
      } else if key :| IsScalarLine(last, key) {
        ScalarLineSets(init, last, key);
      } else {
        OtherLineInert(init, last);
      }
    }
  }

  /** A scalar key is bound exactly when some line declares it. */
  lemma {:induction false} ScalarKeyPresent(lines: seq<string>, key: string)
    requires key in AllowedKeys
    ensures key in MetadataSpec(lines) <==> exists n :: 0 <= n < |lines| && IsScalarLine(lines[n], key)
    decreases |lines|
  {
    if lines != [] {
      var init, last := lines[..|lines| - 1], lines[|lines| - 1];
      assert lines == init + [last];
      ScalarKeyPresent(init, key);
      KeyAfterLine(init, last, key);
      assert forall n :: 0 <= n < |init| ==> lines[n] == init[n];
    }
  }

  lemma KeyAfterLine(lines: seq<string>, line: string, key: string)
    requires key in AllowedKeys
    ensures key in MetadataSpec(lines + [line]) <==> key in MetadataSpec(lines) || IsScalarLine(line, key)
  {
    KeysAreWords();
    if IsSupportsLine(line) {
      SupportsLineAppends(lines, line);
      LineKindsExclusive(line, key);
    } else if k :| IsScalarLine(line, k) {
      ScalarLineSets(lines, line, k);
      LineKindsExclusive(line, key);
      LineKindsExclusive(line, k);
    } else {
      OtherLineInert(lines, line);
    }
  }

  /** A line declares at most one key, and a `supports` line declares none. */
  lemma LineKindsExclusive(line: string, key: string)
    requires key in AllowedKeys
    ensures IsSupportsLine(line) ==> !IsScalarLine(line, key)
    ensures forall k :: IsScalarLine(line, k) && IsScalarLine(line, key) ==> k == key
  {
    KeysAreWords();
    var t := Trim(line);
    FirstToken(t, SupportsKey);
    FirstToken(t, key);
    forall k | IsScalarLine(line, k) && IsScalarLine(line, key) ensures k == key {
      FirstToken(t, k);
    }
  }

  /** With no `supports` line the list is empty. */
  lemma {:induction false} NoSupportsLines(lines: seq<string>)
    requires forall n :: 0 <= n < |lines| ==> !IsSupportsLine(lines[n])
    ensures Supports(MetadataSpec(lines)) == []
    decreases |lines|
  {
    if lines != [] {
      var init, last := lines[..|lines| - 1], lines[|lines| - 1];
      assert lines == init + [last];
      NoSupportsLines(init);
      KeysAreWords();
      if key :| IsScalarLine(last, key) {
        ScalarLineSets(init, last, key);
      } else {
        OtherLineInert(init, last);
      }
    }
  }
}
