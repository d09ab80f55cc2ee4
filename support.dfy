/**
  `isValidSupport` (src/metadata.ts): one `supports` entry of `metadata.rb`,
  a quoted platform name optionally followed by a comma and a quoted version
  constraint, read as a value with a renderer and a parser that are inverse
  to each other.
 */
module Support {
  import opened Wrappers
  import opened Strings
  import VersionConstraint

  /** `, '>= 18.04'`: the white space around the comma, the quotes and the
      constraint text between them. */
  datatype Clause = Clause(before: string, after: string, open: char, text: string, close: char)

  /** `'ubuntu'` with an optional clause; either quote character may open or
      close, and the two need not agree. */
  datatype Entry = Entry(open: char, platform: string, close: char, clause: Option<Clause>)

  /** `[a-z0-9_-]`. */
  predicate IsPlatformChar(c: char) { IsLower(c) || IsDigit(c) || c == '_' || c == '-' }

  /** `[^'"]`. */
  predicate IsTextChar(c: char) { !IsQuote(c) }

  predicate ValidClause(cl: Clause) {
    && All(cl.before, IsSpace) && All(cl.after, IsSpace)
    && IsQuote(cl.open) && IsQuote(cl.close)
    && cl.text != [] && All(cl.text, IsTextChar)
  }

  predicate Valid(e: Entry) {
    && IsQuote(e.open) && IsQuote(e.close)
    && e.platform != [] && All(e.platform, IsPlatformChar)
    && (e.clause.Some? ==> ValidClause(e.clause.value))
  }

  function ClauseText(clause: Option<Clause>): string {
    match clause
    case None => ""
    case Some(cl) => cl.before + "," + cl.after + [cl.open] + cl.text + [cl.close]
  }

  /** The text of an entry. */
  function Render(e: Entry): string {
    [e.open] + e.platform + [e.close] + ClauseText(e.clause)
  }

  /** Reads an entry: a quote, the platform name, a quote, then the clause. */
  function Parse(s: string): Option<Entry> {
    if s == [] || !IsQuote(s[0]) then None
    else
      var p := Scan(s, 1, IsPlatformChar);
      if p == |s| || !IsQuote(s[p]) then None
      else match ParseClause(s[p + 1..])
        case None => None
        case Some(clause) =>
          var e := Entry(s[0], s[1..p], s[p], clause);
          if Valid(e) then Some(e) else None
  }

  /** Reads what follows the platform: nothing, or a clause that runs to the
      end of the text. `Some(None)` is "no clause", `None` a failed match. */
  function ParseClause(t: string): Option<Option<Clause>> {
    if t == [] then Some(None)
    else
      var a := Scan(t, 0, IsSpace);
      if a == |t| || t[a] != ',' then None
      else
        var b := Scan(t, a + 1, IsSpace);
        if b == |t| || !IsQuote(t[b]) then None
        else
          var e := Scan(t, b + 1, IsTextChar);
          if e + 1 != |t| || !IsQuote(t[e]) then None
          else Some(Some(Clause(t[..a], t[a + 1..b], t[b], t[b + 1..e], t[e])))
  }

  /** `isValidSupport`: the entry matches and its constraint, if any, is a
      valid version constraint. */
  predicate IsValidSupport(support: string) {
    match Parse(support)
    case None => false
    case Some(e) => e.clause.None? || VersionConstraint.IsValidVersionConstraint(e.clause.value.text)
  }

  /** Every valid clause reads back from its text. */
  lemma ClauseReadsBack(cl: Clause)
    requires ValidClause(cl)
    ensures ParseClause(ClauseText(Some(cl))) == Some(Some(cl))
  {
    var t := ClauseText(Some(cl));
    var a := |cl.before|;
    var b := a + 1 + |cl.after|;
    var e := b + 1 + |cl.text|;
    ClauseLayout(cl);
    ScanOverSlice(t, 0, a, IsSpace);
    ScanOverSlice(t, a + 1, b, IsSpace);
    ScanOverSlice(t, b + 1, e, IsTextChar);
    assert t != [];
    assert Clause(t[..a], t[a + 1..b], t[b], t[b + 1..e], t[e]) == cl;
  }

  /** Where the comma, the quotes and the parts sit in a clause's text. */
  lemma ClauseLayout(cl: Clause)
    ensures var t := ClauseText(Some(cl));
            var a := |cl.before|;
            var b := a + 1 + |cl.after|;
            var e := b + 1 + |cl.text|;
            && |t| == e + 1
            && t[0..a] == t[..a] == cl.before && t[a] == ','
            && t[a + 1..b] == cl.after && t[b] == cl.open
            && t[b + 1..e] == cl.text && t[e] == cl.close
  {
    var r2 := [cl.open] + (cl.text + [cl.close]);
    var r1 := cl.after + r2;
    var t := cl.before + ([','] + r1);
    Regroup6(cl.before, ",", cl.after, [cl.open], cl.text, [cl.close]);
    assert ClauseText(Some(cl)) == t;
    var a := |cl.before|;
    var b := a + 1 + |cl.after|;
    assert t[a + 1..] == r1;
    assert t[a + 1..b] == r1[..|cl.after|];
    assert t[b..] == r2;
    assert t[b + 1..] == cl.text + [cl.close];
  }

  /** Whatever reads as a clause is valid apart from its text being
      non-empty, and is exactly the text of what it reads as. */
  lemma ClauseFromText(t: string)
    requires ParseClause(t).Some?
    ensures ParseClause(t).value.Some? ==>
              var cl := ParseClause(t).value.value;
              All(cl.before, IsSpace) && All(cl.after, IsSpace) && IsQuote(cl.open) && IsQuote(cl.close)
              && All(cl.text, IsTextChar)
    ensures ClauseText(ParseClause(t).value) == t
  {
    if t != [] {
      var a := Scan(t, 0, IsSpace);
      var b := Scan(t, a + 1, IsSpace);
      var e := Scan(t, b + 1, IsTextChar);
      AllSlice(t, 0, a, IsSpace);
      AllSlice(t, a + 1, b, IsSpace);
      AllSlice(t, b + 1, e, IsTextChar);
      AssembleClause(t, a, b, e);
    }
  }

  /** A text cut at the comma, the opening quote and the closing quote. */
  lemma AssembleClause(t: string, a: nat, b: nat, e: nat)
    requires a < b < e && e + 1 == |t| && t[a] == ','
    ensures t == t[..a] + "," + t[a + 1..b] + [t[b]] + t[b + 1..e] + [t[e]]
  {
    var t1, t2 := t[a + 1..], t[b + 1..];
    assert t2 == t[b + 1..e] + [t[e]];
    assert t1 == t[a + 1..b] + ([t[b]] + t2);
    assert t == t[..a] + ([','] + t1);
    Regroup6(t[..a], ",", t[a + 1..b], [t[b]], t[b + 1..e], [t[e]]);
  }

  /** Every valid entry reads back from its text. */
  lemma ParseRender(e: Entry)
    requires Valid(e)
    ensures Parse(Render(e)) == Some(e)
  {
    var s := Render(e);
    var p := 1 + |e.platform|;
    var rest := ClauseText(e.clause);
    assert s[0] == e.open;
    assert forall k :: 1 <= k < p ==> s[k] == e.platform[k - 1];
    assert s[p] == e.close;
    ScanStopsAt(s, 1, p, IsPlatformChar);
    assert s[1..p] == e.platform;
    assert s[p + 1..] == rest;
    if e.clause.Some? {
      ClauseReadsBack(e.clause.value);
    }
  }

  /** Whatever reads as an entry is valid and is exactly the text of what it
      reads as. */
  lemma RenderParse(s: string)
    requires Parse(s).Some?
    ensures Valid(Parse(s).value) && Render(Parse(s).value) == s
  {
    var p := Scan(s, 1, IsPlatformChar);
    ClauseFromText(s[p + 1..]);
    AssembleEntry(s, p);
  }

  /** A text cut at the closing quote of the platform name. */
  lemma AssembleEntry(s: string, p: nat)
    requires 0 < p < |s|
    ensures s == [s[0]] + s[1..p] + [s[p]] + s[p + 1..]
  {
    assert s == [s[0]] + (s[1..p] + ([s[p]] + s[p + 1..]));
    Regroup([s[0]], s[1..p], [s[p]], s[p + 1..]);
  }

  /** A string is accepted exactly when it is the text of a valid entry whose
      constraint, if it has one, is a valid version constraint. */
  lemma IsValidSupportIff(s: string)
    ensures IsValidSupport(s) <==>
              exists e :: Valid(e) && Render(e) == s
                          && (e.clause.Some? ==> VersionConstraint.IsValidVersionConstraint(e.clause.value.text))
  {
    if Parse(s).Some? {
      RenderParse(s);
    }
    if e :| Valid(e) && Render(e) == s
            && (e.clause.Some? ==> VersionConstraint.IsValidVersionConstraint(e.clause.value.text)) {
      ParseRender(e);
    }
  }

  // The entries the project's tests accept and reject.

  /** The text of a valid entry is accepted exactly when its constraint, if
      it has one, is a valid version constraint. */
  lemma AcceptedEntry(e: Entry)
    requires Valid(e)
    ensures IsValidSupport(Render(e)) <==>
              (e.clause.Some? ==> VersionConstraint.IsValidVersionConstraint(e.clause.value.text))
  {
    ParseRender(e);
  }

  /** The entries the project's tests use, as values; the `TextOf` lemmas give
      their texts. */
  const PlatformOnly := Entry('\'', "ubuntu", '\'', None)
  const PlatformAndConstraint := Entry('\'', "ubuntu", '\'', Some(Clause("", " ", '\'', ">= 18.04", '\'')))
  const DoubleQuoted := Entry('"', "ubuntu", '"', Some(Clause("", " ", '"', ">= 18.04", '"')))
  const BadConstraint := Entry('\'', "ubuntu", '\'', Some(Clause("", " ", '\'', "invalid", '\'')))

  lemma TextOfPlatformOnly()
    ensures Render(PlatformOnly) == "'ubuntu'"
  {
  }

  lemma TextOfPlatformAndConstraint()
    ensures Render(PlatformAndConstraint) == "'ubuntu', '>= 18.04'"
  {
  }

  lemma TextOfDoubleQuoted()
    ensures Render(DoubleQuoted) == "\"ubuntu\", \">= 18.04\""
  {
  }

  lemma TextOfBadConstraint()
    ensures Render(BadConstraint) == "'ubuntu', 'invalid'"
  {
  }

  lemma AcceptsPlatform()
    ensures IsValidSupport(Render(PlatformOnly))
  {
    assert Valid(PlatformOnly);
    AcceptedEntry(PlatformOnly);
  }

  lemma AcceptsPlatformAndConstraint()
    ensures IsValidSupport(Render(PlatformAndConstraint))
  {
    assert Valid(PlatformAndConstraint);
    ConstraintOfExamples();
    AcceptedEntry(PlatformAndConstraint);
  }

  lemma AcceptsDoubleQuotes()
    ensures IsValidSupport(Render(DoubleQuoted))
  {
    assert Valid(DoubleQuoted);
    ConstraintOfExamples();
    AcceptedEntry(DoubleQuoted);
  }

  lemma ConstraintOfExamples()
    ensures VersionConstraint.IsValidVersionConstraint(">= 18.04")
  {
    var c := VersionConstraint.Constraint(">=", " ", ["18", "04"], None);
    assert VersionConstraint.Valid(c);
    assert VersionConstraint.Render(c) == ">= 18.04";
    VersionConstraint.ParseRender(c);
  }

  lemma RejectsEmpty()
    ensures !IsValidSupport("")
  {
  }

  lemma RejectsBadConstraint()
    ensures !IsValidSupport(Render(BadConstraint))
  {
    assert Valid(BadConstraint);
    VersionConstraint.RejectsLeadingLetter("invalid");
    AcceptedEntry(BadConstraint);
  }
}
