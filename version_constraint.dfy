/**
  `isValidVersionConstraint` (src/metadata.ts): a Chef version constraint
  such as `>= 15.3` or `~> 1.2.3-rc.1`, read as a constraint value with a
  renderer and a parser that are inverse to each other.
 */
module VersionConstraint {
  import opened Wrappers
  import opened Strings

  /** An optional operator, the white space after it, the dotted release
      numbers, and an optional qualifier after a `-`. */
  datatype Constraint = Constraint(
    operator: string, gap: string, release: seq<string>, qualifier: Option<string>)

  /** `>=|>|<=|<|~>|=`. */
  const Operators: seq<string> := [">=", ">", "<=", "<", "~>", "="]

  /** `[a-zA-Z0-9.]`. */
  predicate IsQualifierChar(c: char) { IsAlpha(c) || IsDigit(c) || c == '.' }

  predicate IsNumber(x: string) { x != [] && All(x, IsDigit) }

  predicate Valid(c: Constraint) {
    && (c.operator == "" || c.operator in Operators)
    && All(c.gap, IsSpace)
    && |c.release| >= 1
    && (forall k :: 0 <= k < |c.release| ==> IsNumber(c.release[k]))
    && (c.qualifier.Some? ==> c.qualifier.value != [] && All(c.qualifier.value, IsQualifierChar))
  }

  function QualifierText(q: Option<string>): string {
    match q
    case None => ""
    case Some(t) => "-" + t
  }

  /** The text of a constraint. */
  function Render(c: Constraint): string {
    c.operator + c.gap + Join(c.release, '.') + QualifierText(c.qualifier)
  }

  /** The operator at the start of `s`: a two-character operator when there
      is one, else a one-character operator, else none. */
  function OperatorPrefix(s: string): (op: string)
    ensures op == "" || op in Operators
    ensures |op| <= |s| && s[..|op|] == op
  {
    if |s| >= 2 && s[..2] in [">=", "<=", "~>"] then s[..2]
    else if |s| >= 1 && s[..1] in [">", "<", "="] then s[..1]
    else ""
  }

  /** Reads a constraint: the operator, then the rest. */
  function Parse(s: string): Option<Constraint> {
    var op := OperatorPrefix(s);
    ParseRest(op, s[|op|..])
  }

  /** After the operator: the white space, then the body. */
  function ParseRest(op: string, rest: string): Option<Constraint> {
    var g := Scan(rest, 0, IsSpace);
    ParseBody(op, rest[..g], rest[g..])
  }

  /** After the white space: the release numbers up to the first `-`, and the
      qualifier after it. */
  function ParseBody(op: string, gap: string, body: string): Option<Constraint> {
    var dash := IndexOf(body, '-');
    var qualifier := if dash < |body| then Some(body[dash + 1..]) else None;
    var c := Constraint(op, gap, SplitOn(body[..dash], '.'), qualifier);
    if Valid(c) then Some(c) else None
  }

  /** `isValidVersionConstraint`. */
  predicate IsValidVersionConstraint(constraint: string) {
    Parse(constraint).Some? && |constraint| > 0
  }

  /** The operator is found again in front of text that starts with white
      space or a digit. */
  lemma OperatorPrefixOf(op: string, t: string)
    requires op == "" || op in Operators
    requires t != [] && (IsSpace(t[0]) || IsDigit(t[0]))
    ensures OperatorPrefix(op + t) == op
  {
    var s := op + t;
    assert s[|op|] == t[0];
    if |op| == 2 {
      assert s[..2] == op;
    } else if |op| == 1 {
      assert s[..1] == op;
      assert |s| >= 2 ==> s[..2] == op + [t[0]];
    } else {
      assert s == t;
      assert |s| >= 2 ==> s[..2][0] == t[0];
    }
  }

  /** Every valid constraint reads back from its text. */
  lemma ParseRender(c: Constraint)
    requires Valid(c)
    ensures Parse(Render(c)) == Some(c)
  {
    var body := Join(c.release, '.') + QualifierText(c.qualifier);
    var tail := c.gap + body;
    ReleaseStartsWithDigit(c);
    assert Render(c) == c.operator + tail;
    OperatorPrefixOf(c.operator, tail);
    assert Render(c)[|c.operator|..] == tail;
    RestReadsBack(c.operator, c.gap, body);
    BodyParses(c);
  }

  /** The white space after the operator is read up to the body. */
  lemma RestReadsBack(op: string, gap: string, body: string)
    requires All(gap, IsSpace)
    requires body != [] && !IsSpace(body[0])
    ensures ParseRest(op, gap + body) == ParseBody(op, gap, body)
  {
    var tail := gap + body;
    ScanOfPrefix(gap, body, IsSpace);
    assert tail[..|gap|] == gap && tail[|gap|..] == body;
  }

  /** The body of a valid constraint reads back as that constraint. */
  lemma BodyParses(c: Constraint)
    requires Valid(c)
    ensures ParseBody(c.operator, c.gap, Join(c.release, '.') + QualifierText(c.qualifier)) == Some(c)
  {
    BodyReadsBack(c);
  }

  /** The text after the operator starts with white space or a digit. */
  lemma ReleaseStartsWithDigit(c: Constraint)
    requires Valid(c)
    ensures var body := Join(c.release, '.') + QualifierText(c.qualifier);
            && body != [] && IsDigit(body[0])
            && var tail := c.gap + body; IsSpace(tail[0]) || IsDigit(tail[0])
  {
    var j := Join(c.release, '.');
    JoinStartsWith(c.release, '.');
    assert j[0] == j[..|c.release[0]|][0] == c.release[0][0];
    var body := j + QualifierText(c.qualifier);
    assert body[0] == j[0];
    var tail := c.gap + body;
    if c.gap == [] { assert tail[0] == body[0]; } else { assert tail[0] == c.gap[0]; }
  }

  /** The release numbers and the qualifier read back from their text. */
  lemma BodyReadsBack(c: Constraint)
    requires Valid(c)
    ensures var j := Join(c.release, '.');
            var body := j + QualifierText(c.qualifier);
            var dash := IndexOf(body, '-');
            && dash == |j| && body[..dash] == j
            && SplitOn(j, '.') == c.release
            && (if dash < |body| then Some(body[dash + 1..]) else None) == c.qualifier
  {
    var j := Join(c.release, '.');
    assert forall k :: 0 <= k < |c.release| ==> '-' !in c.release[k] && '.' !in c.release[k];
    JoinAvoids(c.release, '.', '-');
    SplitJoin(c.release, '.');
    QualifierReadsBack(j, c.qualifier);
    assert (j + QualifierText(c.qualifier))[..|j|] == j;
  }

  lemma QualifierReadsBack(j: string, q: Option<string>)
    requires '-' !in j
    ensures var body := j + QualifierText(q);
            && IndexOf(body, '-') == |j|
            && (if IndexOf(body, '-') < |body| then Some(body[IndexOf(body, '-') + 1..]) else None) == q
  {
    var body := j + QualifierText(q);
    IndexOfAfter(j, QualifierText(q), '-');
    if q.Some? {
      assert body[|j| + 1..] == q.value;
    } else {
      assert body == j;
    }
  }

  /** Whatever reads as a constraint is valid and is exactly the text of what
      it reads as. */
  lemma RenderParse(s: string)
    requires Parse(s).Some?
    ensures Valid(Parse(s).value) && Render(Parse(s).value) == s
  {
    var c := Parse(s).value;
    var op := OperatorPrefix(s);
    RestReadsFrom(op, s[|op|..]);
    assert s == op + s[|op|..];
    Regroup(op, c.gap, Join(c.release, '.'), QualifierText(c.qualifier));
  }

  lemma RestReadsFrom(op: string, rest: string)
    requires ParseRest(op, rest).Some?
    ensures var c := ParseRest(op, rest).value;
            Valid(c) && c.operator == op && c.gap + (Join(c.release, '.') + QualifierText(c.qualifier)) == rest
  {
    var g := Scan(rest, 0, IsSpace);
    BodyReadsFrom(op, rest[..g], rest[g..]);
    assert rest == rest[..g] + rest[g..];
  }

  lemma BodyReadsFrom(op: string, gap: string, body: string)
    requires ParseBody(op, gap, body).Some?
    ensures var c := ParseBody(op, gap, body).value;
            && Valid(c) && c.operator == op && c.gap == gap
            && Join(c.release, '.') + QualifierText(c.qualifier) == body
  {
    var dash := IndexOf(body, '-');
    BodySplits(body, dash);
    JoinSplit(body[..dash], '.');
  }

  /** Cutting the text after the white space at a `-` and rejoining gives it
      back. */
  lemma BodySplits(body: string, dash: nat)
    requires dash <= |body| && (dash < |body| ==> body[dash] == '-')
    ensures body == body[..dash] + QualifierText(if dash < |body| then Some(body[dash + 1..]) else None)
  {
    if dash < |body| {
      assert body == body[..dash] + [body[dash]] + body[dash + 1..];
    } else {
      assert body[..dash] == body;
    }
  }

  /** A string is accepted exactly when it is the text of a valid constraint. */
  lemma IsValidVersionConstraintIff(s: string)
    ensures IsValidVersionConstraint(s) <==> exists c :: Valid(c) && Render(c) == s
  {
    if Parse(s).Some? {
      RenderParse(s);
      LengthCheckRedundant(s);
    }
    if c :| Valid(c) && Render(c) == s {
      ParseRender(c);
      LengthCheckRedundant(s);
    }
  }

  /** The regular expression already demands a digit, so the source's extra
      `constraint.length > 0` test never decides the outcome. */
  lemma LengthCheckRedundant(s: string)
    ensures Parse(s).Some? ==> |s| > 0
  {
    if Parse(s).Some? {
      RenderParse(s);
      var c := Parse(s).value;
      JoinStartsWith(c.release, '.');
      assert |Render(c)| >= |Join(c.release, '.')| >= |c.release[0]| > 0;
    }
  }

  /** A character an operator, white space or a release number starts with. */
  predicate IsConstraintStart(c: char) {
    c == '>' || c == '<' || c == '=' || c == '~' || IsSpace(c) || IsDigit(c)
  }

  /** An accepted constraint starts with an operator character, white space
      or a digit. */
  lemma FirstCharacter(s: string)
    requires IsValidVersionConstraint(s)
    ensures IsConstraintStart(s[0])
  {
    RenderParse(s);
    var c := Parse(s).value;
    ReleaseStartsWithDigit(c);
    var tail := c.gap + (Join(c.release, '.') + QualifierText(c.qualifier));
    Regroup(c.operator, c.gap, Join(c.release, '.'), QualifierText(c.qualifier));
    assert s == c.operator + tail;
    if c.operator == "" {
      assert s[0] == tail[0];
      assert IsConstraintStart(s[0]);
    } else {
      OperatorStart(c.operator);
      assert s[0] == c.operator[0];
    }
  }

  lemma OperatorStart(op: string)
    requires op in Operators
    ensures op != [] && IsConstraintStart(op[0])
  {
  }

  /** Text that starts with a letter is never a constraint. */
  lemma RejectsLeadingLetter(s: string)
    requires s != [] && IsAlpha(s[0])
    ensures !IsValidVersionConstraint(s)
  {
    LetterIsNoConstraintStart(s[0]);
    if IsValidVersionConstraint(s) {
      FirstCharacter(s);
    }
  }

  lemma LetterIsNoConstraintStart(c: char)
    requires IsAlpha(c)
    ensures !IsConstraintStart(c)
  {
  }

  // The constraints the project's tests accept and reject.

  lemma AcceptsAtLeast()
    ensures IsValidVersionConstraint(">= 15.3")
  {
    var c := Constraint(">=", " ", ["15", "3"], None);
    assert Valid(c) && Render(c) == ">= 15.3";
    ParseRender(c);
  }

  lemma AcceptsPessimistic()
    ensures IsValidVersionConstraint("~> 15.3")
  {
    var c := Constraint("~>", " ", ["15", "3"], None);
    assert Valid(c) && Render(c) == "~> 15.3";
    ParseRender(c);
  }

  lemma AcceptsBareVersion()
    ensures IsValidVersionConstraint("15.3")
  {
    var c := Constraint("", "", ["15", "3"], None);
    assert Valid(c) && Render(c) == "15.3";
    ParseRender(c);
  }

  lemma AcceptsThreeNumbers()
    ensures IsValidVersionConstraint(">= 15.3.1")
  {
    var c := Constraint(">=", " ", ["15", "3", "1"], None);
    assert Valid(c) && Render(c) == ">= 15.3.1";
    ParseRender(c);
  }

  lemma RejectsDoubledOperator()
    ensures !IsValidVersionConstraint(">> 15.3")
  {
    var s := ">> 15.3";
    assert s[..2] == ">>" && s[..1] == ">";
    assert OperatorPrefix(s) == ">";
    var rest := s[1..];
    assert Parse(s) == ParseRest(">", rest);
    assert rest[0] == '>';
    ScanStopsAt(rest, 0, 0, IsSpace);
    assert ParseRest(">", rest) == ParseBody(">", rest[..0], rest[0..]);
    if ParseBody(">", rest[..0], rest[0..]).Some? {
      BodyStartsWithDigit(">", rest[..0], rest[0..]);
    }
  }

  lemma RejectsWord()
    ensures !IsValidVersionConstraint("abc")
  {
    RejectsLeadingLetter("abc");
  }

  /** A constraint's release numbers start right after the white space. */
  lemma BodyStartsWithDigit(op: string, gap: string, body: string)
    requires ParseBody(op, gap, body).Some?
    ensures body != [] && IsDigit(body[0])
  {
    var c := ParseBody(op, gap, body).value;
    var dash := IndexOf(body, '-');
    var first := c.release[0];
    assert first == body[..dash][..IndexOf(body[..dash], '.')];
    assert first != [] && IsDigit(first[0]);
    assert first[0] == body[0];
  }

  lemma RejectsEmpty()
    ensures !IsValidVersionConstraint("")
  {
  }
}
