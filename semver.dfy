/**
  `isValidSemVer` (src/metadata.ts): the Semantic Versioning 2.0.0 grammar,
  read as a version value with a renderer and a parser that are inverse to
  each other.
 */
module SemVer {
  import opened Wrappers
  import opened Strings

  /** A version `major.minor.patch[-prerelease][+build]`; each part is kept as
      its text, the identifiers of the two tails without their dots. */
  datatype Version = Version(
    major: string, minor: string, patch: string,
    prerelease: seq<string>, build: seq<string>)

  /** `[0-9a-zA-Z-]`. */
  predicate IsIdentifierChar(c: char) { IsAlpha(c) || IsDigit(c) || c == '-' }

  /** `0|[1-9]\d*`: digits without a leading zero. */
  predicate IsNumericIdentifier(x: string) {
    x != [] && All(x, IsDigit) && (x[0] == '0' ==> |x| == 1)
  }

  /** `[0-9a-zA-Z-]+`: a build identifier. */
  predicate IsBuildIdentifier(x: string) {
    x != [] && All(x, IsIdentifierChar)
  }

  /** `0|[1-9]\d*|\d*[a-zA-Z-][0-9a-zA-Z-]*`: a pre-release identifier, which
      when it is all digits has no leading zero. */
  predicate IsPrereleaseIdentifier(x: string) {
    IsBuildIdentifier(x) && (All(x, IsDigit) ==> IsNumericIdentifier(x))
  }

  predicate Valid(v: Version) {
    && IsNumericIdentifier(v.major) && IsNumericIdentifier(v.minor) && IsNumericIdentifier(v.patch)
    && (forall k :: 0 <= k < |v.prerelease| ==> IsPrereleaseIdentifier(v.prerelease[k]))
    && (forall k :: 0 <= k < |v.build| ==> IsBuildIdentifier(v.build[k]))
  }

  function Core(v: Version): string {
    Join([v.major, v.minor, v.patch], '.')
  }

  /** `"-" + identifiers.join(".")`, or nothing for no identifiers. */
  function Tail(sep: char, ids: seq<string>): string {
    if ids == [] then "" else [sep] + Join(ids, '.')
  }

  /** The text of a version. */
  function Render(v: Version): string {
    Core(v) + Tail('-', v.prerelease) + Tail('+', v.build)
  }

  /** The identifiers after a separator at `i`, if there is one. */
  function TailIds(s: string, i: nat): seq<string>
    requires i <= |s|
  {
    if i < |s| then SplitOn(s[i + 1..], '.') else []
  }

  /** Reads a version: the build starts at the first `+`, the pre-release at
      the first `-` before it, and what precedes is the dotted core. */
  function Parse(s: string): Option<Version> {
    var plus := IndexOf(s, '+');
    var head := s[..plus];
    var dash := IndexOf(head, '-');
    var core := SplitOn(head[..dash], '.');
    if |core| != 3 then None
    else
      var v := Version(core[0], core[1], core[2], TailIds(head, dash), TailIds(s, plus));
      if Valid(v) then Some(v) else None
  }

  /** `isValidSemVer`. */
  predicate IsValidSemVer(version: string) {
    Parse(version).Some?
  }

  /** Every valid version reads back from its text. */
  lemma ParseRender(v: Version)
    requires Valid(v)
    ensures Parse(Render(v)) == Some(v)
  {
    var c, p := Core(v), Tail('-', v.prerelease);
    var parts := [v.major, v.minor, v.patch];
    assert forall k :: 0 <= k < 3 ==> All(parts[k], IsDigit);
    NoSeparatorsInCore(parts);
    IdentifiersAvoid(v.prerelease, '+');
    IdentifiersAvoid(v.prerelease, '.');
    IdentifiersAvoid(v.build, '.');
    assert '+' !in c + p;
    TailReadsBack(c + p, '+', v.build);
    TailReadsBack(c, '-', v.prerelease);
    SplitJoin(parts, '.');
  }

  /** Text followed by a tail whose separator the text does not contain: the
      first separator ends the text and the identifiers read back. */
  lemma TailReadsBack(head: string, sep: char, ids: seq<string>)
    requires sep !in head
    requires forall k :: 0 <= k < |ids| ==> '.' !in ids[k]
    ensures IndexOf(head + Tail(sep, ids), sep) == |head|
    ensures (head + Tail(sep, ids))[..|head|] == head
    ensures TailIds(head + Tail(sep, ids), |head|) == ids
  {
    var t := Tail(sep, ids);
    var s := head + t;
    TailStartsWithSeparator(sep, ids);
    IndexOfAfter(head, t, sep);
    assert s[..|head|] == head;
    if ids != [] {
      assert s[|head| + 1..] == Join(ids, '.');
      SplitJoin(ids, '.');
    } else {
      assert |s| == |head|;
    }
  }

  lemma TailStartsWithSeparator(sep: char, ids: seq<string>)
    ensures IndexOf(Tail(sep, ids), sep) == 0
  {
    if ids != [] {
      assert Tail(sep, ids)[0] == sep;
    }
  }

  /** Cutting at a separator and rejoining gives back the text. */
  lemma TailSplits(s: string, sep: char, i: nat)
    requires i <= |s| && (i < |s| ==> s[i] == sep)
    ensures s == s[..i] + Tail(sep, TailIds(s, i))
  {
    if i < |s| {
      assert s == s[..i] + [sep] + s[i + 1..];
      TailOfRest(sep, s[i + 1..]);
    } else {
      assert s[..i] == s;
    }
  }

  lemma TailOfRest(sep: char, rest: string)
    ensures Tail(sep, SplitOn(rest, '.')) == [sep] + rest
  {
    JoinSplit(rest, '.');
  }

  lemma NoSeparatorsInCore(parts: seq<string>)
    requires |parts| == 3
    requires forall k :: 0 <= k < 3 ==> All(parts[k], IsDigit)
    ensures '+' !in Join(parts, '.') && '-' !in Join(parts, '.')
    ensures forall k :: 0 <= k < 3 ==> '.' !in parts[k]
  {
    JoinAvoids(parts, '.', '+');
    JoinAvoids(parts, '.', '-');
  }

  lemma IdentifiersAvoid(ids: seq<string>, d: char)
    requires forall k :: 0 <= k < |ids| ==> All(ids[k], IsIdentifierChar)
    requires !IsIdentifierChar(d)
    ensures forall k :: 0 <= k < |ids| ==> d !in ids[k]
    ensures d != '.' ==> d !in Join(ids, '.')
  {
    if d != '.' {
      JoinAvoids(ids, '.', d);
    }
  }

  /** Whatever reads as a version is valid and is exactly the text of what it
      reads as. */
  lemma RenderParse(s: string)
    requires Parse(s).Some?
    ensures Valid(Parse(s).value) && Render(Parse(s).value) == s
  {
    var v := Parse(s).value;
    var plus := IndexOf(s, '+');
    var head := s[..plus];
    var dash := IndexOf(head, '-');
    JoinSplit(head[..dash], '.');
    assert Core(v) == head[..dash] by {
      assert SplitOn(head[..dash], '.') == [v.major, v.minor, v.patch];
    }
    TailSplits(head, '-', dash);
    TailSplits(s, '+', plus);
  }

  /** A string is accepted exactly when it is the text of a valid version. */
  lemma IsValidSemVerIff(s: string)
    ensures IsValidSemVer(s) <==> exists v :: Valid(v) && Render(v) == s
  {
    if IsValidSemVer(s) {
      RenderParse(s);
    }
    if v :| Valid(v) && Render(v) == s {
      ParseRender(v);
    }
  }

  // The versions the project's tests accept and reject.

  lemma AcceptsCore()
    ensures IsValidSemVer("1.2.3")
  {
    var v := Version("1", "2", "3", [], []);
    assert Valid(v) && Render(v) == "1.2.3";
    ParseRender(v);
  }

  lemma AcceptsZeroMajor()
    ensures IsValidSemVer("0.1.0")
  {
    var v := Version("0", "1", "0", [], []);
    assert Valid(v) && Render(v) == "0.1.0";
    ParseRender(v);
  }

  lemma AcceptsTwoDigits()
    ensures IsValidSemVer("10.20.30")
  {
    var v := Version("10", "20", "30", [], []);
    assert Valid(v) && Render(v) == "10.20.30";
    ParseRender(v);
  }

  /** The versions with a pre-release and a build part that the project's
      tests use, as values; the `TextOf` lemmas give their texts. */
  const Prerelease := Version("1", "2", "3", ["alpha", "1"], [])
  const WithBuild := Version("1", "2", "3", [], ["build", "1"])

  lemma TextOfPrerelease()
    ensures Render(Prerelease) == "1.2.3-alpha.1"
  {
  }

  lemma TextOfWithBuild()
    ensures Render(WithBuild) == "1.2.3+build.1"
  {
  }

  lemma AcceptsPrerelease()
    ensures IsValidSemVer(Render(Prerelease))
  {
    assert Valid(Prerelease);
    ParseRender(Prerelease);
  }

  lemma AcceptsBuild()
    ensures IsValidSemVer(Render(WithBuild))
  {
    assert Valid(WithBuild);
    ParseRender(WithBuild);
  }

  lemma RejectsTwoParts()
    ensures !IsValidSemVer("1.2")
  {
    assert IndexOf("1.2", '+') == 3;
  }

  lemma RejectsVPrefix()
    ensures !IsValidSemVer("v1.2.3")
  {
    RejectsLeadingNonDigit("v1.2.3");
  }

  lemma RejectsFourParts()
    ensures !IsValidSemVer("1.2.3.4")
  {
    var s := "1.2.3.4";
    assert '+' !in s && '-' !in s;
    WithoutTails(s);
    FourPartsSplit();
  }

  /** A text without `+` or `-` is a version only when its dotted parts are
      three numbers. */
  lemma WithoutTails(s: string)
    requires '+' !in s && '-' !in s
    ensures IsValidSemVer(s) ==>
              var core := SplitOn(s, '.');
              |core| == 3 && IsNumericIdentifier(core[0]) && IsNumericIdentifier(core[1]) && IsNumericIdentifier(core[2])
  {
    var head := s[..IndexOf(s, '+')];
    assert head == s;
    assert head[..IndexOf(head, '-')] == s;
  }

  lemma FourPartsSplit()
    ensures SplitOn("1.2.3.4", '.') == ["1", "2", "3", "4"]
  {
    assert Join(["1", "2", "3", "4"], '.') == "1.2.3.4";
    SplitJoin(["1", "2", "3", "4"], '.');
  }

  lemma RejectsWord()
    ensures !IsValidSemVer("abc")
  {
    RejectsLeadingNonDigit("abc");
  }

  /** A version starts with a digit of its major number. */
  lemma RejectsLeadingNonDigit(s: string)
    requires s != [] && !IsDigit(s[0])
    ensures !IsValidSemVer(s)
  {
    var head := s[..IndexOf(s, '+')];
    var c := head[..IndexOf(head, '-')];
    var core := SplitOn(c, '.');
    if |core| == 3 && core[0] != [] {
      assert core[0] == c[..IndexOf(c, '.')];
      assert core[0][0] == s[0];
    }
  }

  lemma RejectsEmpty()
    ensures !IsValidSemVer("")
  {
  }
}
