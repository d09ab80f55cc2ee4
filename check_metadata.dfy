/**
  `checkMetadata` (src/checkMetadata.ts): compares the parsed `metadata.rb`
  of a cookbook with the action's inputs and collects what does not match
  into a `Message`.

  The checks run in four stages that never stop early: field equality, URL
  reachability, mandatory fields, formats. Every failed check appends one
  error and one summary line and sets the conclusion to failure; at the end
  a failed message loses its "Metadata validated" line and gets a failure
  message and title.

  The specification is `Findings`, the failed checks of the four stages in
  order, and `Result`, the message they produce; the method `CheckMetadata`
  updates a `Message` object as the source does and is proved to end in
  `Result`.
 */
module CheckMetadata {
  import opened Wrappers
  import opened Strings
  import opened MetadataFile
  import opened Email
  import SemVer
  import VersionConstraint
  import Support

  /** The line map that comes with the parsed metadata: one line for a
      scalar key, one line per entry for a list key. */
  datatype LineRef = One(line: nat) | Many(lineList: seq<nat>)

  datatype Conclusion = Success | Failure

  /** The annotation level of an error. */
  datatype Level = FailureLevel | WarningLevel

  datatype ValidationError = ValidationError(
    field: string, expected: string, actual: string,
    line: Option<nat>, path: string, level: Level)

  /** A failed check: the error it appends and the summary line it appends. */
  datatype Finding = Finding(error: ValidationError, summary: string)

  /** What the checks read besides the metadata: the action inputs
      `maintainer`, `maintainer_email`, `license` and `mandatory_fields`, the
      repository owner and name, whether a URL answers, and the `depends`
      entry check. */
  datatype Inputs = Inputs(
    maintainer: string, maintainerEmail: string, license: string,
    mandatoryFields: string, owner: string, repo: string,
    reachable: string -> bool, isValidDepends: string -> bool)

  /** The contents of a `Message`. */
  datatype Snapshot = Snapshot(
    name: string, message: string, conclusion: Conclusion,
    summary: seq<string>, title: string, errors: seq<ValidationError>,
    rawMetadata: map<string, Value>)

  /** The summary line of a message that passed every check. */
  const Validated: string := "Metadata validated"

  /** `mandatory_fields` when the input is empty. */
  const DefaultMandatoryFields: string := "version,chef_version,supports"

  const ScalarFields: set<string> :=
    {"maintainer_email", "maintainer", "license", "source_url", "issues_url", "version", "chef_version"}

  /** The keys whose values are read as strings hold strings, and `supports`
      and `depends` hold lists. */
  predicate WellTyped(data: map<string, Value>) {
    && (forall field :: field in data && field in ScalarFields ==> data[field].Scalar?)
    && ("supports" in data ==> data["supports"].List?)
    && ("depends" in data ==> data["depends"].List?)
  }

  /** A list key with entries has a line for each of them. */
  predicate LinesCover(data: map<string, Value>, lines: map<string, LineRef>, field: string) {
    field in data && data[field].List? && data[field].items != [] ==>
      field in lines && lines[field].Many? && |lines[field].lineList| >= |data[field].items|
  }

  /** `data.get(field) as string`. */
  function ScalarOf(data: map<string, Value>, field: string): Option<string> {
    if field in data && data[field].Scalar? then Some(data[field].text) else None
  }

  /** `actual || 'MISSING'`. */
  function Display(actual: Option<string>): string {
    if actual.None? || actual.value == "" then "MISSING" else actual.value
  }

  /** A summary line about `field`: the field, a colon and a space, then the
      detail. */
  function Describe(field: string, detail: string): (s: string)
    ensures |field| + 2 <= |s| && s[..|field| + 2] == field + ": " && s[|field| + 2..] == detail
  {
    field + ": " + detail
  }

  /** `getLine`: the line of a scalar key, or the line at `index` (by default
      the first) of a list key. */
  function GetLine(lines: map<string, LineRef>, field: string, index: Option<nat>): (line: Option<nat>)
    ensures line.Some? ==> field in lines && line.value in LinesOf(lines[field])
    ensures field in lines && lines[field].One? ==> line == Some(lines[field].line)
    ensures field in lines && lines[field].Many? ==>
              var ns, i := lines[field].lineList, index.GetOr(0);
              && (i < |ns| ==> line == Some(ns[i]))
              && (i >= |ns| ==> line == None)
    ensures field !in lines ==> line == None
  {
    if field !in lines then None
    else match lines[field]
      case One(n) => Some(n)
      case Many(ns) => var i := index.GetOr(0); if i < |ns| then Some(ns[i]) else None
  }

  /** `supportsLines[i]` / `dependsLines[i]`: indexing a single line number
      gives nothing. */
  function EntryLine(lines: map<string, LineRef>, field: string, i: nat): (line: Option<nat>)
    ensures line.Some? ==> field in lines && line.value in LinesOf(lines[field])
  {
    if field in lines && lines[field].Many? && i < |lines[field].lineList|
    then Some(lines[field].lineList[i]) else None
  }

  /** The line numbers a line map holds for one key. */
  function LinesOf(r: LineRef): seq<nat> {
    match r
    case One(n) => [n]
    case Many(ns) => ns
  }

  function Errors(fs: seq<Finding>): (r: seq<ValidationError>)
    ensures |r| == |fs| && forall k :: 0 <= k < |fs| ==> r[k] == fs[k].error
  {
    seq(|fs|, k requires 0 <= k < |fs| => fs[k].error)
  }

  function Summaries(fs: seq<Finding>): (r: seq<string>)
    ensures |r| == |fs| && forall k :: 0 <= k < |fs| ==> r[k] == fs[k].summary
  {
    seq(|fs|, k requires 0 <= k < |fs| => fs[k].summary)
  }

  /** `xs.filter(s => s !== x)`. */
  function Without(xs: seq<string>, x: string): (r: seq<string>)
    ensures forall y :: y in r <==> y in xs && y != x
    ensures |r| <= |xs|
  {
    if xs == [] then [] else (if xs[0] == x then [] else [xs[0]]) + Without(xs[1..], x)
  }

  // Stage 1: field equality.

  /** `checkField`: nothing when the declared value is the expected one,
      otherwise one failure whose actual value reads `MISSING` when the
      declared value is empty or absent. */
  function FieldFinding(path: string, lines: map<string, LineRef>, field: string,
                        expected: string, actual: Option<string>): (fs: seq<Finding>)
    ensures fs == [] <==> actual == Some(expected)
    ensures fs != [] ==>
              && |fs| == 1 && fs[0].error.field == field && fs[0].error.expected == expected
              && fs[0].error.level == FailureLevel && fs[0].error.line == GetLine(lines, field, None)
              && (actual.None? || actual == Some("") ==> fs[0].error.actual == "MISSING")
              && (actual.Some? && actual.value != "" ==> fs[0].error.actual == actual.value)
              && fs[0].summary == field + ": expected '" + expected + "', got '" + fs[0].error.actual + "'"
  {
    if actual == Some(expected) then []
    else
      var shown := Display(actual);
      [Finding(ValidationError(field, expected, shown, GetLine(lines, field, None), path, FailureLevel),
               Describe(field, "expected '" + expected + "', got '" + shown + "'"))]
  }

  function SourceUrl(env: Inputs): string { "https://github.com/" + env.owner + "/" + env.repo }

  function IssuesUrl(env: Inputs): string { SourceUrl(env) + "/issues" }

  function FieldStage(path: string, data: map<string, Value>, lines: map<string, LineRef>, env: Inputs): seq<Finding> {
    FieldFinding(path, lines, "maintainer_email", env.maintainerEmail, ScalarOf(data, "maintainer_email"))
    + FieldFinding(path, lines, "maintainer", env.maintainer, ScalarOf(data, "maintainer"))
    + FieldFinding(path, lines, "license", env.license, ScalarOf(data, "license"))
    + FieldFinding(path, lines, "source_url", SourceUrl(env), ScalarOf(data, "source_url"))
    + FieldFinding(path, lines, "issues_url", IssuesUrl(env), ScalarOf(data, "issues_url"))
  }

  // Stage 2: URL reachability.

  /** A declared, non-empty URL that does not answer is a warning. */
  function ReachFinding(path: string, data: map<string, Value>, lines: map<string, LineRef>,
                        field: string, reachable: string -> bool): (fs: seq<Finding>)
    ensures fs != [] <==> exists url :: ScalarOf(data, field) == Some(url) && url != "" && !reachable(url)
    ensures fs != [] ==>
              && |fs| == 1 && fs[0].error.field == field && fs[0].error.level == WarningLevel
              && fs[0].error.expected == "HTTP 200" && fs[0].error.actual == "UNREACHABLE"
              && fs[0].error.line == GetLine(lines, field, None) && fs[0].error.path == path
              && fs[0].summary == field + ": '" + ScalarOf(data, field).value + "' is not accessible"
  {
    var url := ScalarOf(data, field);
    if url.Some? && url.value != "" && !reachable(url.value) then
      [Finding(ValidationError(field, "HTTP 200", "UNREACHABLE", GetLine(lines, field, None), path, WarningLevel),
               Describe(field, "'" + url.value + "' is not accessible"))]
    else []
  }

  function ReachStage(path: string, data: map<string, Value>, lines: map<string, LineRef>, env: Inputs): seq<Finding> {
    ReachFinding(path, data, lines, "source_url", env.reachable)
    + ReachFinding(path, data, lines, "issues_url", env.reachable)
  }

  // Stage 3: mandatory fields.

  /** A mandatory name: not empty, and no white space at either end. */
  predicate IsName(name: string) {
    name != [] && !IsSpace(name[0]) && !IsSpace(name[|name| - 1])
  }

  /** The name one piece gives: its trimmed text, unless that is empty. */
  function Piece(part: string): (r: seq<string>)
    ensures |r| <= 1 && (r != [] ==> IsName(r[0]))
  {
    var t := Trim(part);
    if t == [] then [] else [t]
  }

  /** The trimmed, non-empty pieces. */
  function TrimmedNames(parts: seq<string>): (names: seq<string>)
    ensures |names| <= |parts|
  {
    if parts == [] then [] else Piece(parts[0]) + TrimmedNames(parts[1..])
  }

  /** The `mandatory_fields` input (or its default when empty) split on
      commas, trimmed, without empty names. */
  function MandatoryNames(input: string): seq<string> {
    TrimmedNames(SplitOn(if input == "" then DefaultMandatoryFields else input, ','))
  }

  /** Absent, the empty string or the empty list. */
  predicate IsMissing(data: map<string, Value>, field: string) {
    field !in data || data[field] == Scalar("") || data[field] == List([])
  }

  function MissingFinding(path: string, field: string): Finding {
    Finding(ValidationError(field, "Field to exist", "MISSING", None, path, FailureLevel),
            Describe(field, "field is missing from metadata.rb"))
  }

  function MissingStage(path: string, data: map<string, Value>, names: seq<string>): (fs: seq<Finding>)
    ensures |fs| <= |names|
  {
    if names == [] then []
    else
      var field := names[|names| - 1];
      MissingStage(path, data, names[..|names| - 1]) + (if IsMissing(data, field) then [MissingFinding(path, field)] else [])
  }

  // Stage 4: formats.

  /** A declared, non-empty `version` that `isValidSemVer` rejects is one
      failure at the key's line. */
  function VersionFinding(path: string, data: map<string, Value>, lines: map<string, LineRef>): (fs: seq<Finding>)
    ensures fs != [] <==> exists v :: ScalarOf(data, "version") == Some(v) && v != "" && !SemVer.IsValidSemVer(v)
    ensures fs != [] ==>
              var v := ScalarOf(data, "version").value;
              && |fs| == 1
              && fs[0].error == ValidationError("version", "SemVer string", v, GetLine(lines, "version", None), path, FailureLevel)
              && fs[0].summary == Describe("version", "'" + v + "' is not a valid Semantic Version")
  {
    var version := ScalarOf(data, "version");
    if version.Some? && version.value != "" && !SemVer.IsValidSemVer(version.value) then
      [Finding(ValidationError("version", "SemVer string", version.value, GetLine(lines, "version", None), path, FailureLevel),
               Describe("version", "'" + version.value + "' is not a valid Semantic Version"))]
    else []
  }

  /** A declared, non-empty `chef_version` that `isValidVersionConstraint`
      rejects is one failure at the key's line. */
  function ChefVersionFinding(path: string, data: map<string, Value>, lines: map<string, LineRef>): (fs: seq<Finding>)
    ensures fs != [] <==>
              exists v :: ScalarOf(data, "chef_version") == Some(v) && v != "" && !VersionConstraint.IsValidVersionConstraint(v)
    ensures fs != [] ==>
              var v := ScalarOf(data, "chef_version").value;
              && |fs| == 1
              && fs[0].error == ValidationError("chef_version", "Version constraint", v, GetLine(lines, "chef_version", None), path, FailureLevel)
              && fs[0].summary == Describe("chef_version", "'" + v + "' is not a valid version constraint")
  {
    var chefVersion := ScalarOf(data, "chef_version");
    if chefVersion.Some? && chefVersion.value != "" && !VersionConstraint.IsValidVersionConstraint(chefVersion.value) then
      [Finding(ValidationError("chef_version", "Version constraint", chefVersion.value, GetLine(lines, "chef_version", None), path, FailureLevel),
               Describe("chef_version", "'" + chefVersion.value + "' is not a valid version constraint"))]
    else []
  }

  function EntryFinding(path: string, lines: map<string, LineRef>, field: string, expected: string,
                        items: seq<string>, i: nat): Finding
    requires i < |items|
  {
    Finding(ValidationError(field, expected, items[i], EntryLine(lines, field, i), path, FailureLevel),
            Describe(field, "entry " + items[i] + " is malformed"))
  }

  /** The findings of the first `n` entries of a list. */
  function EntryFindings(path: string, lines: map<string, LineRef>, field: string, expected: string,
                         items: seq<string>, valid: string -> bool, n: nat): (fs: seq<Finding>)
    requires n <= |items|
    ensures |fs| <= n
    ensures fs == [] <==> AllValid(items, valid, n)
  {
    if n == 0 then []
    else
      EntryFindings(path, lines, field, expected, items, valid, n - 1)
      + EntryStep(path, lines, field, expected, items, valid, n - 1)
  }

  /** The first `n` entries are all valid. */
  predicate AllValid(items: seq<string>, valid: string -> bool, n: nat)
    requires n <= |items|
  {
    forall i :: 0 <= i < n ==> valid(items[i])
  }

  /** The finding of entry `i`, if it is malformed. */
  function EntryStep(path: string, lines: map<string, LineRef>, field: string, expected: string,
                     items: seq<string>, valid: string -> bool, i: nat): (fs: seq<Finding>)
    requires i < |items|
    ensures fs == [] <==> valid(items[i])
  {
    if valid(items[i]) then [] else [EntryFinding(path, lines, field, expected, items, i)]
  }

  function EntryStage(path: string, data: map<string, Value>, lines: map<string, LineRef>,
                      field: string, expected: string, valid: string -> bool): seq<Finding> {
    if field in data && data[field].List? then
      var items := data[field].items;
      EntryFindings(path, lines, field, expected, items, valid, |items|)
    else []
  }

  function FormatStage(path: string, data: map<string, Value>, lines: map<string, LineRef>, env: Inputs): seq<Finding> {
    VersionFinding(path, data, lines)
    + ChefVersionFinding(path, data, lines)
    + EntryStage(path, data, lines, "supports", "Valid platform/constraint", Support.IsValidSupport)
    + EntryStage(path, data, lines, "depends", "Valid cookbook/constraint", env.isValidDepends)
  }

  /** Every failed check, stage by stage. */
  function Findings(path: string, data: map<string, Value>, lines: map<string, LineRef>, env: Inputs): seq<Finding> {
    FieldStage(path, data, lines, env)
    + ReachStage(path, data, lines, env)
    + MissingStage(path, data, MandatoryNames(env.mandatoryFields))
    + FormatStage(path, data, lines, env)
  }

  // The message.

  function Initial(name: string, data: map<string, Value>): Snapshot {
    Snapshot(name, "Metadata matches", Success, [Validated], Validated, [], data)
  }

  /** A message after some more checks failed. */
  function Recorded(s: Snapshot, fs: seq<Finding>): Snapshot {
    if fs == [] then s
    else s.(conclusion := Failure, summary := s.summary + Summaries(fs), errors := s.errors + Errors(fs))
  }

  /** The last step: a failed message drops the success line. */
  function Finished(s: Snapshot): Snapshot {
    if s.conclusion == Failure then
      s.(summary := Without(s.summary, Validated), message := "Metadata doesn't match", title := "Metadata validation failed")
    else s
  }

  /** The message `checkMetadata` returns. */
  function Result(path: string, data: map<string, Value>, lines: map<string, LineRef>, env: Inputs): Snapshot {
    Finished(Recorded(Initial(path, data), Findings(path, data, lines, env)))
  }

  /** A non-empty `maintainer_email` input must be an address. */
  predicate EmailRejected(email: string) {
    email != "" && !IsValidEmail(email)
  }

  function EmailError(email: string): string {
    "Invalid email format for maintainer_email: " + email
  }

  class Message {
    var name: string
    var message: string
    var conclusion: Conclusion
    var summary: seq<string>
    var title: string
    var errors: seq<ValidationError>
    var rawMetadata: map<string, Value>

    function Current(): Snapshot
      reads this
    {
      Snapshot(name, message, conclusion, summary, title, errors, rawMetadata)
    }

    /** The message before any check: the success values. */
    constructor (name: string, data: map<string, Value>)
      ensures Current() == Initial(name, data)
    {
      this.name := name;
      message := "Metadata matches";
      conclusion := Success;
      summary := [Validated];
      title := Validated;
      errors := [];
      rawMetadata := data;
    }

    /** Records one failed check. */
    method Fail(f: Finding)
      modifies this
      ensures Current() == Recorded(old(Current()), [f])
    {
      conclusion := Failure;
      errors := errors + [f.error];
      summary := summary + [f.summary];
    }

    /** `checkField`. */
    method CheckField(path: string, lines: map<string, LineRef>, field: string, expected: string, actual: Option<string>)
      modifies this
      ensures Current() == Recorded(old(Current()), FieldFinding(path, lines, field, expected, actual))
    {
      if actual != Some(expected) {
        conclusion := Failure;
        var line := GetLine(lines, field, None);
        var shown := Display(actual);
        errors := errors + [ValidationError(field, expected, shown, line, path, FailureLevel)];
        summary := summary + [Describe(field, "expected '" + expected + "', got '" + shown + "'")];
      }
    }

    /** The final step of `checkMetadata`. */
    method Finish()
      modifies this
      ensures Current() == Finished(old(Current()))
    {
      if conclusion == Failure {
        summary := Without(summary, Validated);
        message := "Metadata doesn't match";
        title := "Metadata validation failed";
      }
    }
  }

  datatype Outcome = Thrown(reason: string) | Returned(message: Message)

  /** `checkMetadata` over the parsed metadata and its line map. */
  method CheckMetadata(path: string, data: map<string, Value>, lines: map<string, LineRef>, env: Inputs)
    returns (outcome: Outcome)
    requires WellTyped(data)
    requires LinesCover(data, lines, "supports") && LinesCover(data, lines, "depends")
    ensures outcome.Thrown? <==> EmailRejected(env.maintainerEmail)
    ensures outcome.Thrown? ==> outcome.reason == EmailError(env.maintainerEmail)
    ensures outcome.Returned? ==>
              fresh(outcome.message) && outcome.message.Current() == Result(path, data, lines, env)
  {
    if env.maintainerEmail != "" && !IsValidEmail(env.maintainerEmail) {
      return Thrown(EmailError(env.maintainerEmail));
    }
    var m := new Message(path, data);
    ghost var s0 := m.Current();
    CheckFields(m, path, data, lines, env);
    CheckReachability(m, path, data, lines, env);
    RecordedAppend(s0, FieldStage(path, data, lines, env), ReachStage(path, data, lines, env));
    ghost var done := FieldStage(path, data, lines, env) + ReachStage(path, data, lines, env);
    CheckMandatory(m, path, data, MandatoryNames(env.mandatoryFields));
    RecordedAppend(s0, done, MissingStage(path, data, MandatoryNames(env.mandatoryFields)));
    done := done + MissingStage(path, data, MandatoryNames(env.mandatoryFields));
    CheckFormats(m, path, data, lines, env);
    RecordedAppend(s0, done, FormatStage(path, data, lines, env));
    m.Finish();
    return Returned(m);
  }

  /** Stage 1: the five field comparisons. */
  method CheckFields(m: Message, path: string, data: map<string, Value>, lines: map<string, LineRef>, env: Inputs)
    modifies m
    ensures m.Current() == Recorded(old(m.Current()), FieldStage(path, data, lines, env))
  {
    var sourceUrl := "https://github.com/" + env.owner + "/" + env.repo;
    var issuesUrl := sourceUrl + "/issues";
    ghost var s0 := m.Current();
    ghost var f1 := FieldFinding(path, lines, "maintainer_email", env.maintainerEmail, ScalarOf(data, "maintainer_email"));
    ghost var f2 := FieldFinding(path, lines, "maintainer", env.maintainer, ScalarOf(data, "maintainer"));
    ghost var f3 := FieldFinding(path, lines, "license", env.license, ScalarOf(data, "license"));
    ghost var f4 := FieldFinding(path, lines, "source_url", sourceUrl, ScalarOf(data, "source_url"));
    ghost var f5 := FieldFinding(path, lines, "issues_url", issuesUrl, ScalarOf(data, "issues_url"));
    m.CheckField(path, lines, "maintainer_email", env.maintainerEmail, ScalarOf(data, "maintainer_email"));
    m.CheckField(path, lines, "maintainer", env.maintainer, ScalarOf(data, "maintainer"));
    RecordedAppend(s0, f1, f2);
    m.CheckField(path, lines, "license", env.license, ScalarOf(data, "license"));
    RecordedAppend(s0, f1 + f2, f3);
    m.CheckField(path, lines, "source_url", sourceUrl, ScalarOf(data, "source_url"));
    RecordedAppend(s0, f1 + f2 + f3, f4);
    m.CheckField(path, lines, "issues_url", issuesUrl, ScalarOf(data, "issues_url"));
    RecordedAppend(s0, f1 + f2 + f3 + f4, f5);
  }

  /** Stage 2: the declared URLs that do not answer. */
  method CheckReachability(m: Message, path: string, data: map<string, Value>, lines: map<string, LineRef>, env: Inputs)
    modifies m
    ensures m.Current() == Recorded(old(m.Current()), ReachStage(path, data, lines, env))
  {
    ghost var s0 := m.Current();
    var actualSourceUrl := ScalarOf(data, "source_url");
    if actualSourceUrl.Some? && actualSourceUrl.value != "" {
      var isAccessible := env.reachable(actualSourceUrl.value);
      if !isAccessible {
        m.Fail(Finding(
          ValidationError("source_url", "HTTP 200", "UNREACHABLE", GetLine(lines, "source_url", None), path, WarningLevel),
          Describe("source_url", "'" + actualSourceUrl.value + "' is not accessible")));
      }
    }
    var actualIssuesUrl := ScalarOf(data, "issues_url");
    if actualIssuesUrl.Some? && actualIssuesUrl.value != "" {
      var isAccessible := env.reachable(actualIssuesUrl.value);
      if !isAccessible {
        m.Fail(Finding(
          ValidationError("issues_url", "HTTP 200", "UNREACHABLE", GetLine(lines, "issues_url", None), path, WarningLevel),
          Describe("issues_url", "'" + actualIssuesUrl.value + "' is not accessible")));
      }
    }
    RecordedAppend(s0, ReachFinding(path, data, lines, "source_url", env.reachable),
                   ReachFinding(path, data, lines, "issues_url", env.reachable));
  }

  /** Stage 3: the mandatory names without a value. */
  method CheckMandatory(m: Message, path: string, data: map<string, Value>, mandatoryFields: seq<string>)
    modifies m
    ensures m.Current() == Recorded(old(m.Current()), MissingStage(path, data, mandatoryFields))
  {
    ghost var s0 := m.Current();
    for i := 0 to |mandatoryFields|
      invariant m.Current() == Recorded(s0, MissingStage(path, data, mandatoryFields[..i]))
    {
      var field := mandatoryFields[i];
      ghost var step := if IsMissing(data, field) then [MissingFinding(path, field)] else [];
      if field !in data || data[field] == Scalar("") || (data[field].List? && |data[field].items| == 0) {
        m.Fail(Finding(ValidationError(field, "Field to exist", "MISSING", None, path, FailureLevel),
                       Describe(field, "field is missing from metadata.rb")));
      }
      RecordedAppend(s0, MissingStage(path, data, mandatoryFields[..i]), step);
      assert mandatoryFields[..i + 1][..i] == mandatoryFields[..i];
    }
    assert mandatoryFields[..|mandatoryFields|] == mandatoryFields;
  }

  /** Stage 4: the version, the Chef version and the list entries. */
  method CheckFormats(m: Message, path: string, data: map<string, Value>, lines: map<string, LineRef>, env: Inputs)
    requires WellTyped(data)
    requires LinesCover(data, lines, "supports") && LinesCover(data, lines, "depends")
    modifies m
    ensures m.Current() == Recorded(old(m.Current()), FormatStage(path, data, lines, env))
  {
    ghost var s0 := m.Current();
    ghost var f1 := VersionFinding(path, data, lines);
    ghost var f2 := ChefVersionFinding(path, data, lines);
    ghost var f3 := EntryStage(path, data, lines, "supports", "Valid platform/constraint", Support.IsValidSupport);
    ghost var f4 := EntryStage(path, data, lines, "depends", "Valid cookbook/constraint", env.isValidDepends);
    CheckVersion(m, path, data, lines);
    CheckChefVersion(m, path, data, lines);
    RecordedAppend(s0, f1, f2);
    CheckEntries(m, path, data, lines, "supports", "Valid platform/constraint", Support.IsValidSupport);
    RecordedAppend(s0, f1 + f2, f3);
    CheckEntries(m, path, data, lines, "depends", "Valid cookbook/constraint", env.isValidDepends);
    RecordedAppend(s0, f1 + f2 + f3, f4);
  }

  /** A declared version that is not a semantic version is a failure. */
  method CheckVersion(m: Message, path: string, data: map<string, Value>, lines: map<string, LineRef>)
    modifies m
    ensures m.Current() == Recorded(old(m.Current()), VersionFinding(path, data, lines))
  {
    var version := ScalarOf(data, "version");
    if version.Some? && version.value != "" && !SemVer.IsValidSemVer(version.value) {
      m.Fail(Finding(
        ValidationError("version", "SemVer string", version.value, GetLine(lines, "version", None), path, FailureLevel),
        Describe("version", "'" + version.value + "' is not a valid Semantic Version")));
    }
  }

  /** A declared Chef version that is not a version constraint is a failure. */
  method CheckChefVersion(m: Message, path: string, data: map<string, Value>, lines: map<string, LineRef>)
    modifies m
    ensures m.Current() == Recorded(old(m.Current()), ChefVersionFinding(path, data, lines))
  {
    var chefVersion := ScalarOf(data, "chef_version");
    if chefVersion.Some? && chefVersion.value != "" && !VersionConstraint.IsValidVersionConstraint(chefVersion.value) {
      m.Fail(Finding(
        ValidationError("chef_version", "Version constraint", chefVersion.value, GetLine(lines, "chef_version", None), path, FailureLevel),
        Describe("chef_version", "'" + chefVersion.value + "' is not a valid version constraint")));
    }
  }

  /** The loop over the `supports` or `depends` entries: each entry that
      fails `valid` is a failure at the entry's own line. */
  method CheckEntries(m: Message, path: string, data: map<string, Value>, lines: map<string, LineRef>,
                      field: string, expected: string, valid: string -> bool)
    requires WellTyped(data) && LinesCover(data, lines, field)
    modifies m
    ensures m.Current() == Recorded(old(m.Current()), EntryStage(path, data, lines, field, expected, valid))
  {
    if field in data && data[field].List? {
      CheckEntryList(m, path, lines, field, expected, data[field].items, valid);
    }
  }

  /** Every entry of a list, in order. */
  method CheckEntryList(m: Message, path: string, lines: map<string, LineRef>, field: string, expected: string,
                        entries: seq<string>, valid: string -> bool)
    requires entries != [] ==> field in lines && lines[field].Many? && |lines[field].lineList| >= |entries|
    modifies m
    ensures m.Current() == Recorded(old(m.Current()), EntryFindings(path, lines, field, expected, entries, valid, |entries|))
  {
    ghost var s := m.Current();
    for i := 0 to |entries|
      invariant m.Current() == Recorded(s, EntryFindings(path, lines, field, expected, entries, valid, i))
    {
      CheckEntry(m, path, lines, field, expected, entries, valid, i, s);
    }
  }

  /** One entry of a list: a malformed entry is recorded at its own line,
      after the findings of the entries before it. */
  method CheckEntry(m: Message, path: string, lines: map<string, LineRef>, field: string, expected: string,
                    entries: seq<string>, valid: string -> bool, i: nat, ghost s: Snapshot)
    requires i < |entries|
    requires field in lines && lines[field].Many? && i < |lines[field].lineList|
    requires m.Current() == Recorded(s, EntryFindings(path, lines, field, expected, entries, valid, i))
    modifies m
    ensures m.Current() == Recorded(s, EntryFindings(path, lines, field, expected, entries, valid, i + 1))
  {
    RecordedAppend(s, EntryFindings(path, lines, field, expected, entries, valid, i),
                   EntryStep(path, lines, field, expected, entries, valid, i));
    if !valid(entries[i]) {
      var entryLines := lines[field].lineList;
      var line := entryLines[i];
      m.Fail(Finding(ValidationError(field, expected, entries[i], Some(line), path, FailureLevel),
                     Describe(field, "entry " + entries[i] + " is malformed")));
    }
  }

  /** Recording findings in two steps is recording them at once. */
  lemma RecordedAppend(s: Snapshot, a: seq<Finding>, b: seq<Finding>)
    ensures Recorded(Recorded(s, a), b) == Recorded(s, a + b)
  {
    if a != [] && b != [] {
      SummariesAppend(s.summary, a, b);
      ErrorsAppend(s.errors, a, b);
    } else if a == [] {
      assert a + b == b;
    } else {
      assert a + b == a;
    }
  }

  lemma SummariesAppend(init: seq<string>, a: seq<Finding>, b: seq<Finding>)
    ensures init + Summaries(a) + Summaries(b) == init + Summaries(a + b)
  {
    assert Summaries(a + b) == Summaries(a) + Summaries(b);
  }

  lemma ErrorsAppend(init: seq<ValidationError>, a: seq<Finding>, b: seq<Finding>)
    ensures init + Errors(a) + Errors(b) == init + Errors(a + b)
  {
    assert Errors(a + b) == Errors(a) + Errors(b);
  }

  // What every run promises.

  /** The shape of every finding: it carries the checked file, its summary line
      starts with its field, only an unreachable URL is a warning, and a line
      it reports is one the line map holds for its field. */
  predicate WellFormed(f: Finding, path: string, lines: map<string, LineRef>) {
    && f.error.path == path
    && |f.error.field| + 2 <= |f.summary| && f.summary[..|f.error.field| + 2] == f.error.field + ": "
    && (f.error.level == WarningLevel ==>
          && (f.error.field == "source_url" || f.error.field == "issues_url")
          && f.error.expected == "HTTP 200" && f.error.actual == "UNREACHABLE")
    && (f.error.line.Some? ==> f.error.field in lines && f.error.line.value in LinesOf(lines[f.error.field]))
  }

  predicate AllWellFormed(fs: seq<Finding>, path: string, lines: map<string, LineRef>) {
    forall k :: 0 <= k < |fs| ==> WellFormed(fs[k], path, lines)
  }

  lemma AllWellFormedAppend(a: seq<Finding>, b: seq<Finding>, path: string, lines: map<string, LineRef>)
    requires AllWellFormed(a, path, lines) && AllWellFormed(b, path, lines)
    ensures AllWellFormed(a + b, path, lines)
  {
    forall k | 0 <= k < |a + b| ensures WellFormed((a + b)[k], path, lines) {
      if k < |a| { assert (a + b)[k] == a[k]; } else { assert (a + b)[k] == b[k - |a|]; }
    }
  }

  /** Every finding of every stage is well formed. */
  lemma FindingsWellFormed(path: string, data: map<string, Value>, lines: map<string, LineRef>, env: Inputs)
    ensures AllWellFormed(Findings(path, data, lines, env), path, lines)
  {
    var f1 := FieldStage(path, data, lines, env);
    var f2 := ReachStage(path, data, lines, env);
    var f3 := MissingStage(path, data, MandatoryNames(env.mandatoryFields));
    var f4 := FormatStage(path, data, lines, env);
    FieldStageWellFormed(path, data, lines, env);
    ReachStageWellFormed(path, data, lines, env);
    MissingStageWellFormed(path, data, MandatoryNames(env.mandatoryFields), lines);
    FormatStageWellFormed(path, data, lines, env);
    AllWellFormedAppend(f1, f2, path, lines);
    AllWellFormedAppend(f1 + f2, f3, path, lines);
    AllWellFormedAppend(f1 + f2 + f3, f4, path, lines);
  }

  lemma FieldStageWellFormed(path: string, data: map<string, Value>, lines: map<string, LineRef>, env: Inputs)
    ensures AllWellFormed(FieldStage(path, data, lines, env), path, lines)
  {
    var f1 := FieldFinding(path, lines, "maintainer_email", env.maintainerEmail, ScalarOf(data, "maintainer_email"));
    var f2 := FieldFinding(path, lines, "maintainer", env.maintainer, ScalarOf(data, "maintainer"));
    var f3 := FieldFinding(path, lines, "license", env.license, ScalarOf(data, "license"));
    var f4 := FieldFinding(path, lines, "source_url", SourceUrl(env), ScalarOf(data, "source_url"));
    var f5 := FieldFinding(path, lines, "issues_url", IssuesUrl(env), ScalarOf(data, "issues_url"));
    FieldFindingWellFormed(path, lines, "maintainer_email", env.maintainerEmail, ScalarOf(data, "maintainer_email"));
    FieldFindingWellFormed(path, lines, "maintainer", env.maintainer, ScalarOf(data, "maintainer"));
    FieldFindingWellFormed(path, lines, "license", env.license, ScalarOf(data, "license"));
    FieldFindingWellFormed(path, lines, "source_url", SourceUrl(env), ScalarOf(data, "source_url"));
    FieldFindingWellFormed(path, lines, "issues_url", IssuesUrl(env), ScalarOf(data, "issues_url"));
    AllWellFormedAppend(f1, f2, path, lines);
    AllWellFormedAppend(f1 + f2, f3, path, lines);
    AllWellFormedAppend(f1 + f2 + f3, f4, path, lines);
    AllWellFormedAppend(f1 + f2 + f3 + f4, f5, path, lines);
  }

  lemma FieldFindingWellFormed(path: string, lines: map<string, LineRef>, field: string,
                               expected: string, actual: Option<string>)
    ensures AllWellFormed(FieldFinding(path, lines, field, expected, actual), path, lines)
  {
  }

  lemma ReachStageWellFormed(path: string, data: map<string, Value>, lines: map<string, LineRef>, env: Inputs)
    ensures AllWellFormed(ReachStage(path, data, lines, env), path, lines)
  {
    AllWellFormedAppend(ReachFinding(path, data, lines, "source_url", env.reachable),
                        ReachFinding(path, data, lines, "issues_url", env.reachable), path, lines);
  }

  lemma {:induction false} MissingStageWellFormed(path: string, data: map<string, Value>, names: seq<string>,
                                                  lines: map<string, LineRef>)
    ensures AllWellFormed(MissingStage(path, data, names), path, lines)
    decreases |names|
  {
    if names != [] {
      var field := names[|names| - 1];
      MissingStageWellFormed(path, data, names[..|names| - 1], lines);
      AllWellFormedAppend(MissingStage(path, data, names[..|names| - 1]),
                          if IsMissing(data, field) then [MissingFinding(path, field)] else [], path, lines);
    }
  }

  lemma {:induction false} EntryFindingsWellFormed(path: string, lines: map<string, LineRef>, field: string,
                                                   expected: string, items: seq<string>, valid: string -> bool, n: nat)
    requires n <= |items|
    ensures AllWellFormed(EntryFindings(path, lines, field, expected, items, valid, n), path, lines)
  {
    if n > 0 {
      EntryFindingsWellFormed(path, lines, field, expected, items, valid, n - 1);
      AllWellFormedAppend(EntryFindings(path, lines, field, expected, items, valid, n - 1),
                          EntryStep(path, lines, field, expected, items, valid, n - 1),
                          path, lines);
    }
  }

  lemma FormatStageWellFormed(path: string, data: map<string, Value>, lines: map<string, LineRef>, env: Inputs)
    ensures AllWellFormed(FormatStage(path, data, lines, env), path, lines)
  {
    var f1 := VersionFinding(path, data, lines);
    var f2 := ChefVersionFinding(path, data, lines);
    var f3 := EntryStage(path, data, lines, "supports", "Valid platform/constraint", Support.IsValidSupport);
    var f4 := EntryStage(path, data, lines, "depends", "Valid cookbook/constraint", env.isValidDepends);
    VersionFindingWellFormed(path, data, lines);
    ChefVersionFindingWellFormed(path, data, lines);
    EntryStageWellFormed(path, data, lines, "supports", "Valid platform/constraint", Support.IsValidSupport);
    EntryStageWellFormed(path, data, lines, "depends", "Valid cookbook/constraint", env.isValidDepends);
    AllWellFormedAppend(f1, f2, path, lines);
    AllWellFormedAppend(f1 + f2, f3, path, lines);
    AllWellFormedAppend(f1 + f2 + f3, f4, path, lines);
  }

  lemma VersionFindingWellFormed(path: string, data: map<string, Value>, lines: map<string, LineRef>)
    ensures AllWellFormed(VersionFinding(path, data, lines), path, lines)
  {
  }

  lemma ChefVersionFindingWellFormed(path: string, data: map<string, Value>, lines: map<string, LineRef>)
    ensures AllWellFormed(ChefVersionFinding(path, data, lines), path, lines)
  {
  }

  lemma EntryStageWellFormed(path: string, data: map<string, Value>, lines: map<string, LineRef>,
                             field: string, expected: string, valid: string -> bool)
    ensures AllWellFormed(EntryStage(path, data, lines, field, expected, valid), path, lines)
  {
    if field in data && data[field].List? {
      var items := data[field].items;
      EntryFindingsWellFormed(path, lines, field, expected, items, valid, |items|);
    }
  }

  /** A summary line that starts with a field name and a colon is never the
      success line. */
  lemma NotValidated(fs: seq<Finding>, path: string, lines: map<string, LineRef>)
    requires AllWellFormed(fs, path, lines)
    ensures Validated !in Summaries(fs)
  {
    assert forall i :: 0 <= i < |Validated| ==> Validated[i] != ':';
    forall k | 0 <= k < |fs| ensures fs[k].summary != Validated {
      var n := |fs[k].error.field|;
      assert fs[k].summary[n] == (fs[k].error.field + ": ")[n] == ':';
    }
  }

  lemma {:induction false} WithoutAbsent(xs: seq<string>, x: string)
    requires x !in xs
    ensures Without(xs, x) == xs
  {
    if xs != [] {
      WithoutAbsent(xs[1..], x);
    }
  }

  /** The message of a run: the success message when no check failed, and
      otherwise a failure whose summary has one line per error, in the order
      of the checks, without the success line. */
  lemma ResultOfFindings(path: string, data: map<string, Value>, lines: map<string, LineRef>, env: Inputs)
    ensures var fs, r := Findings(path, data, lines, env), Result(path, data, lines, env);
            && (r.conclusion == Success <==> fs == [])
            && (fs == [] ==> r == Initial(path, data))
            && (fs != [] ==>
                  r == Snapshot(path, "Metadata doesn't match", Failure, Summaries(fs),
                                "Metadata validation failed", Errors(fs), data))
  {
    FindingsWellFormed(path, data, lines, env);
    MessageOf(path, data, lines, Findings(path, data, lines, env));
  }

  /** The message that well-formed findings produce. */
  lemma MessageOf(path: string, data: map<string, Value>, lines: map<string, LineRef>, fs: seq<Finding>)
    requires AllWellFormed(fs, path, lines)
    ensures var r := Finished(Recorded(Initial(path, data), fs));
            && (r.conclusion == Success <==> fs == [])
            && (fs == [] ==> r == Initial(path, data))
            && (fs != [] ==>
                  r == Snapshot(path, "Metadata doesn't match", Failure, Summaries(fs),
                                "Metadata validation failed", Errors(fs), data))
  {
    if fs != [] {
      NotValidated(fs, path, lines);
      WithoutAbsent(Summaries(fs), Validated);
      assert ([Validated] + Summaries(fs))[1..] == Summaries(fs);
    }
  }

  /** The errors of the message a run returns: each carries the checked file,
      a warning is always an unreachable `source_url` or `issues_url`, a line
      is always one the line map holds for the field, and on failure the
      summary line at the same position starts with the error's field. */
  lemma ResultErrors(path: string, data: map<string, Value>, lines: map<string, LineRef>, env: Inputs)
    ensures var r := Result(path, data, lines, env);
            && (r.conclusion == Failure <==> r.errors != [])
            && (r.conclusion == Failure ==> |r.summary| == |r.errors|)
            && forall k :: 0 <= k < |r.errors| ==>
                 && r.errors[k].path == path
                 && (r.errors[k].level == WarningLevel ==>
                       && (r.errors[k].field == "source_url" || r.errors[k].field == "issues_url")
                       && r.errors[k].expected == "HTTP 200" && r.errors[k].actual == "UNREACHABLE")
                 && (r.errors[k].line.Some? ==>
                       r.errors[k].field in lines && r.errors[k].line.value in LinesOf(lines[r.errors[k].field]))
                 && |r.errors[k].field| + 2 <= |r.summary[k]|
                 && r.summary[k][..|r.errors[k].field| + 2] == r.errors[k].field + ": "
  {
    ResultOfFindings(path, data, lines, env);
    FindingsWellFormed(path, data, lines, env);
    MessageErrors(Result(path, data, lines, env), Findings(path, data, lines, env), path, data, lines);
  }

  /** The errors of a message assembled from well-formed findings. */
  lemma MessageErrors(r: Snapshot, fs: seq<Finding>, path: string, data: map<string, Value>, lines: map<string, LineRef>)
    requires AllWellFormed(fs, path, lines)
    requires r.conclusion == Success <==> fs == []
    requires fs == [] ==> r == Initial(path, data)
    requires fs != [] ==>
               r == Snapshot(path, "Metadata doesn't match", Failure, Summaries(fs),
                             "Metadata validation failed", Errors(fs), data)
    ensures && (r.conclusion == Failure <==> r.errors != [])
            && (r.conclusion == Failure ==> |r.summary| == |r.errors|)
            && forall k :: 0 <= k < |r.errors| ==>
                 && r.errors[k].path == path
                 && (r.errors[k].level == WarningLevel ==>
                       && (r.errors[k].field == "source_url" || r.errors[k].field == "issues_url")
                       && r.errors[k].expected == "HTTP 200" && r.errors[k].actual == "UNREACHABLE")
                 && (r.errors[k].line.Some? ==>
                       r.errors[k].field in lines && r.errors[k].line.value in LinesOf(lines[r.errors[k].field]))
                 && |r.errors[k].field| + 2 <= |r.summary[k]|
                 && r.summary[k][..|r.errors[k].field| + 2] == r.errors[k].field + ": "
  {
    if fs != [] {
      ErrorsOfWellFormed(fs, path, lines);
    }
  }

  /** The errors and summary lines of well-formed findings, position by position. */
  lemma ErrorsOfWellFormed(fs: seq<Finding>, path: string, lines: map<string, LineRef>)
    requires AllWellFormed(fs, path, lines)
    ensures var errors, summary := Errors(fs), Summaries(fs);
            && |summary| == |errors|
            && forall k :: 0 <= k < |errors| ==>
                 && errors[k].path == path
                 && (errors[k].level == WarningLevel ==>
                       && (errors[k].field == "source_url" || errors[k].field == "issues_url")
                       && errors[k].expected == "HTTP 200" && errors[k].actual == "UNREACHABLE")
                 && (errors[k].line.Some? ==>
                       errors[k].field in lines && errors[k].line.value in LinesOf(lines[errors[k].field]))
                 && |errors[k].field| + 2 <= |summary[k]|
                 && summary[k][..|errors[k].field| + 2] == errors[k].field + ": "
  {
    forall k | 0 <= k < |fs| ensures WellFormed(fs[k], path, lines) {
    }
  }

  /** Stage 3 reports exactly the mandatory names without a value, one
      failure each, in the order of the list. */
  lemma {:induction false} MissingStageExact(path: string, data: map<string, Value>, names: seq<string>)
    ensures var fs := MissingStage(path, data, names);
            && (forall k :: 0 <= k < |fs| ==>
                  fs[k].error.field in names && IsMissing(data, fs[k].error.field)
                  && fs[k] == MissingFinding(path, fs[k].error.field))
            && (forall field :: field in names && IsMissing(data, field) ==> MissingFinding(path, field) in fs)
    decreases |names|
  {
    if names != [] {
      var init, field := names[..|names| - 1], names[|names| - 1];
      MissingStageExact(path, data, init);
      var a := MissingStage(path, data, init);
      var b: seq<Finding> := if IsMissing(data, field) then [MissingFinding(path, field)] else [];
      assert names == init + [field];
      forall k | 0 <= k < |a + b|
        ensures (a + b)[k].error.field in names && IsMissing(data, (a + b)[k].error.field)
                && (a + b)[k] == MissingFinding(path, (a + b)[k].error.field)
      {
        if k < |a| { assert (a + b)[k] == a[k]; } else { assert (a + b)[k] == b[k - |a|]; }
      }
      forall g | g in names && IsMissing(data, g) ensures MissingFinding(path, g) in a + b {
        if g in init { assert MissingFinding(path, g) in a; } else { assert g == field; }
      }
    }
  }

  /** The format stage of a list reports exactly its invalid entries, each at
      its own line. */
  lemma EntryFindingsExact(path: string, lines: map<string, LineRef>, field: string, expected: string,
                           items: seq<string>, valid: string -> bool, n: nat)
    requires n <= |items|
    ensures var fs := EntryFindings(path, lines, field, expected, items, valid, n);
            && (forall k :: 0 <= k < |fs| ==>
                  exists i :: 0 <= i < n && !valid(items[i]) && fs[k] == EntryFinding(path, lines, field, expected, items, i))
            && (forall i :: 0 <= i < n && !valid(items[i]) ==> EntryFinding(path, lines, field, expected, items, i) in fs)
  {
    var fs := EntryFindings(path, lines, field, expected, items, valid, n);
    forall k | 0 <= k < |fs|
      ensures exists i :: 0 <= i < n && !valid(items[i]) && fs[k] == EntryFinding(path, lines, field, expected, items, i)
    {
      var i := EntryOfFinding(path, lines, field, expected, items, valid, n, k);
    }
    forall i | 0 <= i < n && !valid(items[i]) ensures EntryFinding(path, lines, field, expected, items, i) in fs {
      FindingOfEntry(path, lines, field, expected, items, valid, n, i);
    }
  }

  /** The entry a finding of the format stage reports. */
  lemma {:induction false} EntryOfFinding(path: string, lines: map<string, LineRef>, field: string, expected: string,
                                          items: seq<string>, valid: string -> bool, n: nat, k: nat) returns (i: nat)
    requires n <= |items| && k < |EntryFindings(path, lines, field, expected, items, valid, n)|
    ensures i < n && !valid(items[i])
    ensures EntryFindings(path, lines, field, expected, items, valid, n)[k] == EntryFinding(path, lines, field, expected, items, i)
  {
    var a := EntryFindings(path, lines, field, expected, items, valid, n - 1);
    var b := EntryStep(path, lines, field, expected, items, valid, n - 1);
    assert EntryFindings(path, lines, field, expected, items, valid, n) == a + b;
    if k < |a| {
      assert (a + b)[k] == a[k];
      i := EntryOfFinding(path, lines, field, expected, items, valid, n - 1, k);
    } else {
      assert (a + b)[k] == b[k - |a|];
      i := n - 1;
    }
  }

  /** A malformed entry is reported by the format stage. */
  lemma {:induction false} FindingOfEntry(path: string, lines: map<string, LineRef>, field: string, expected: string,
                                          items: seq<string>, valid: string -> bool, n: nat, i: nat)
    requires n <= |items| && i < n && !valid(items[i])
    ensures EntryFinding(path, lines, field, expected, items, i) in EntryFindings(path, lines, field, expected, items, valid, n)
  {
    var a := EntryFindings(path, lines, field, expected, items, valid, n - 1);
    var b := EntryStep(path, lines, field, expected, items, valid, n - 1);
    assert EntryFindings(path, lines, field, expected, items, valid, n) == a + b;
    if i < n - 1 {
      FindingOfEntry(path, lines, field, expected, items, valid, n - 1, i);
    }
  }

  /** The `version` check fails exactly when the declared, non-empty version
      is not the text of any semantic version. */
  lemma VersionFindingIff(path: string, data: map<string, Value>, lines: map<string, LineRef>)
    ensures VersionFinding(path, data, lines) != [] <==>
              exists v :: ScalarOf(data, "version") == Some(v) && v != ""
                          && forall w :: SemVer.Valid(w) ==> SemVer.Render(w) != v
  {
    var version := ScalarOf(data, "version");
    if version.Some? {
      SemVer.IsValidSemVerIff(version.value);
    }
  }

  /** The `chef_version` check fails exactly when the declared, non-empty
      constraint is not the text of any version constraint. */
  lemma ChefVersionFindingIff(path: string, data: map<string, Value>, lines: map<string, LineRef>)
    ensures ChefVersionFinding(path, data, lines) != [] <==>
              exists v :: ScalarOf(data, "chef_version") == Some(v) && v != ""
                          && forall c :: VersionConstraint.Valid(c) ==> VersionConstraint.Render(c) != v
  {
    var chefVersion := ScalarOf(data, "chef_version");
    if chefVersion.Some? {
      VersionConstraint.IsValidVersionConstraintIff(chefVersion.value);
    }
  }

  /** Where the line map covers a list, an entry's line is the line at the
      entry's own position. */
  lemma EntryLineOfCovered(data: map<string, Value>, lines: map<string, LineRef>, field: string, i: nat)
    requires LinesCover(data, lines, field)
    requires field in data && data[field].List? && i < |data[field].items|
    ensures EntryLine(lines, field, i) == Some(lines[field].lineList[i])
  {
  }

  /** `name` is one of the pieces, trimmed. */
  ghost predicate IsTrimmedPiece(name: string, parts: seq<string>) {
    exists j :: 0 <= j < |parts| && Trim(parts[j]) == name
  }

  /** The mandatory names are exactly the non-empty trimmed pieces: each
      name is a trimmed piece, and each piece that is not blank gives a name. */
  lemma TrimmedNamesExact(parts: seq<string>)
    ensures forall k :: 0 <= k < |TrimmedNames(parts)| ==> IsTrimmedPiece(TrimmedNames(parts)[k], parts)
    ensures forall j :: 0 <= j < |parts| && Trim(parts[j]) != [] ==> Trim(parts[j]) in TrimmedNames(parts)
  {
    forall k | 0 <= k < |TrimmedNames(parts)| ensures IsTrimmedPiece(TrimmedNames(parts)[k], parts) {
      var j := NameIsPiece(parts, k);
    }
    forall j | 0 <= j < |parts| && Trim(parts[j]) != [] ensures Trim(parts[j]) in TrimmedNames(parts) {
      PieceIsName(parts, j);
    }
  }

  /** Each name is the trimmed text of some piece: the `j`-th. */
  lemma {:induction false} NameIsPiece(parts: seq<string>, k: nat) returns (j: nat)
    requires k < |TrimmedNames(parts)|
    ensures j < |parts| && Trim(parts[j]) == TrimmedNames(parts)[k]
    decreases |parts|
  {
    assert parts != [];
    var head, tail := Piece(parts[0]), TrimmedNames(parts[1..]);
    assert TrimmedNames(parts) == head + tail;
    if k < |head| {
      j := 0;
      assert TrimmedNames(parts)[k] == Trim(parts[0]);
    } else {
      var i := NameIsPiece(parts[1..], k - |head|);
      assert TrimmedNames(parts)[k] == tail[k - |head|];
      assert parts[1..][i] == parts[i + 1];
      j := i + 1;
    }
  }

  /** Each piece that is not blank gives a name. */
  lemma {:induction false} PieceIsName(parts: seq<string>, j: nat)
    requires j < |parts| && Trim(parts[j]) != []
    ensures Trim(parts[j]) in TrimmedNames(parts)
    decreases j
  {
    var head, tail := Piece(parts[0]), TrimmedNames(parts[1..]);
    assert TrimmedNames(parts) == head + tail;
    if j == 0 {
      assert head == [Trim(parts[0])];
    } else {
      assert parts[1..][j - 1] == parts[j];
      PieceIsName(parts[1..], j - 1);
    }
  }

  /** The names keep the order and the multiplicity of the pieces: the names
      of two runs of pieces are the names of the first run, then those of the
      second, and one piece gives its trimmed text unless that is empty. */
  lemma {:induction false} TrimmedNamesAppend(a: seq<string>, b: seq<string>)
    ensures TrimmedNames(a + b) == TrimmedNames(a) + TrimmedNames(b)
    ensures forall p :: TrimmedNames([p]) == (if Trim(p) == [] then [] else [Trim(p)])
    decreases |a|
  {
    if a != [] {
      assert (a + b)[1..] == a[1..] + b;
      TrimmedNamesAppend(a[1..], b);
    } else {
      assert a + b == b;
    }
    forall p ensures TrimmedNames([p]) == (if Trim(p) == [] then [] else [Trim(p)]) {
      assert [p][1..] == [];
    }
  }

  /** A mandatory name is never empty and has no white space around it. */
  lemma MandatoryNamesAreTrimmed(input: string)
    ensures forall k :: 0 <= k < |MandatoryNames(input)| ==>
              MandatoryNames(input)[k] != [] && Trim(MandatoryNames(input)[k]) == MandatoryNames(input)[k]
  {
    var names := MandatoryNames(input);
    TrimmedNamesAreNames(SplitOn(if input == "" then DefaultMandatoryFields else input, ','));
    forall k | 0 <= k < |names| ensures Trim(names[k]) == names[k] {
      TrimOfName(names[k]);
    }
  }

  lemma {:induction false} TrimmedNamesAreNames(parts: seq<string>)
    ensures forall k :: 0 <= k < |TrimmedNames(parts)| ==> IsName(TrimmedNames(parts)[k])
  {
    if parts != [] {
      var head, tail := Piece(parts[0]), TrimmedNames(parts[1..]);
      assert TrimmedNames(parts) == head + tail;
      TrimmedNamesAreNames(parts[1..]);
      forall k | 0 <= k < |head + tail| ensures IsName((head + tail)[k]) {
        if k >= |head| {
          assert (head + tail)[k] == tail[k - |head|];
        }
      }
    }
  }

  /** Trimming a name changes nothing. */
  lemma TrimOfName(name: string)
    requires IsName(name)
    ensures Trim(name) == name
  {
    TrimPadded("", name, "");
    assert "" + name + "" == name;
  }

  /** An empty `mandatory_fields` input asks for `version`, `chef_version`
      and `supports`. */
  lemma DefaultMandatoryNames()
    ensures MandatoryNames("") == ["version", "chef_version", "supports"]
  {
    var parts := ["version", "chef_version", "supports"];
    DefaultWords();
    TrimmedNamesOfTrimmed(parts);
    DefaultSplits();
  }

  lemma DefaultWords()
    ensures var parts := ["version", "chef_version", "supports"];
            forall k :: 0 <= k < |parts| ==> IsName(parts[k])
  {
    var parts := ["version", "chef_version", "supports"];
    assert !IsSpace('v') && !IsSpace('n') && !IsSpace('c') && !IsSpace('s');
    assert parts[0][0] == 'v' && parts[0][6] == 'n';
    assert parts[1][0] == 'c' && parts[1][11] == 'n';
    assert parts[2][0] == 's' && parts[2][7] == 's';
  }

  lemma DefaultSplits()
    ensures SplitOn(DefaultMandatoryFields, ',') == ["version", "chef_version", "supports"]
  {
    var parts := ["version", "chef_version", "supports"];
    assert Join(parts, ',') == DefaultMandatoryFields;
    SplitJoin(parts, ',');
  }

  /** Pieces without white space around them are their own names. */
  lemma {:induction false} TrimmedNamesOfTrimmed(parts: seq<string>)
    requires forall k :: 0 <= k < |parts| ==> IsName(parts[k])
    ensures TrimmedNames(parts) == parts
  {
    if parts != [] {
      TrimOfName(parts[0]);
      assert Piece(parts[0]) == [parts[0]];
      TrimmedNamesOfTrimmed(parts[1..]);
      assert parts == [parts[0]] + parts[1..];
    }
  }

  /** The metadata the parser produces meets the method's typing
      precondition. */
  lemma ParsedMetadataIsWellTyped(lines: seq<string>)
    ensures WellTyped(MetadataSpec(lines))
  {
    var data := MetadataSpec(lines);
    ResultKeys(lines);
    ScalarFieldsAreNotSupports();
    DependsIsNotParsed();
    forall field | field in data && field in ScalarFields ensures data[field].Scalar? {
    }
  }

  lemma ScalarFieldsAreNotSupports()
    ensures forall field :: field in ScalarFields ==> field != SupportsKey
  {
  }

  lemma DependsIsNotParsed()
    ensures "depends" != SupportsKey && "depends" !in AllowedKeys
  {
  }

  /** `checkMetadata` throws exactly when a non-empty `maintainer_email` input
      does not have the address shape. */
  lemma EmailRejectedIff(email: string)
    ensures EmailRejected(email) <==> email != "" && !MatchesPattern(email)
  {
    IsValidEmailIff(email);
  }

  /** The mismatch the project's tests report for a cookbook maintained by
      `Bob`. */
  lemma MaintainerMismatch(path: string, lines: map<string, LineRef>)
    ensures var fs := FieldFinding(path, lines, "maintainer", "Sous Chefs", Some("Bob"));
            |fs| == 1 && fs[0].error.actual == "Bob"
            && fs[0].summary == "maintainer: expected 'Sous Chefs', got 'Bob'"
  {
    assert Display(Some("Bob")) == "Bob";
    MismatchText();
  }

  lemma MismatchText()
    ensures Describe("maintainer", "expected '" + "Sous Chefs" + "', got '" + "Bob" + "'")
            == "maintainer: expected 'Sous Chefs', got 'Bob'"
  {
  }
}
